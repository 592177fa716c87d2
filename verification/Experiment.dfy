/** The whole experiment: the client's request loop (client/client.c:36-71), its second thread
    that listens to the flooder (client/main.c:30-55), the server, the flooder and the clock,
    in any interleaving. Every lock, log write and message is one step. */
module Experiment {
  import opened Common
  import opened Protocol
  import opened TimingLog
  import opened Flooder
  import Parser

  // The request loop at its test, inside a request, or left.
  datatype Phase = Between | Transferring(link: Link) | Exited

  // The listening thread: reading, holding a note it has read, about to set flooder_state.
  datatype ListenerPc = Listening | Holding(note: Note) | Flagging

  // A note handled; kept says whether the log was open for its marker.
  datatype Handled = Handled(note: Note, kept: bool)

  // The request counter with all its increments and decrements; base, start and late are the
  // length of the log, the counter and flooder_state when the last transfer began.
  datatype Tally = Tally(counter: int, ups: nat, downs: nat, base: nat, start: int, late: bool)

  // A round the client measured, by the two clock readings it logged.
  datatype Round = Round(began: nat, ended: nat)

  datatype State = State(phase: Phase, tally: Tally, flag: bool, log: seq<Entry>,
                         now: nat, begun: nat, rounds: seq<Round>,
                         sent: seq<Note>, channel: seq<Note>, listener: ListenerPc, handled: seq<Handled>)

  datatype Action =
    | Connect(size: Option<nat>) | Leave
    | ClientMoves | ServerMoves | FlooderSends(n: Note) | ListenerMoves | Tick(d: nat)

  function Begin(now: nat): State {
    State(Between, Tally(0, 0, 0, 0, 0, false), false, [], now, now, [], [], [], Listening, [])
  }

  // The log is open from client_connect to the end of client_send_request.
  predicate LogOpen(s: State) {
    s.phase.Transferring?
  }

  function Marker(n: Note): Entry {
    match n
    case START => FlooderStart
    case CONTRO => FlooderControl
    case ENDIN => FlooderEnd
  }

  predicate Enabled(s: State, a: Action) {
    match a
    case Connect(_) => s.phase.Between? && s.tally.counter >= 0
    case Leave => s.phase.Between? && s.tally.counter < 0
    case ClientMoves => s.phase.Transferring? && (s.phase.link.client.Closing? || ClientReady(s.phase.link))
    case ServerMoves => s.phase.Transferring? && ServerReady(s.phase.link)
    case FlooderSends(n) => InCycles(s.sent + [n])
    case ListenerMoves => s.listener.Listening? ==> s.channel != []
    case Tick(_) => true
  }

  function Updated(t: Tally, flag: bool): Tally {
    if !flag then t.(counter := t.counter + 1, ups := t.ups + 1)
    else t.(counter := t.counter - 1, downs := t.downs + 1)
  }

  function ClientActs(s: State): State
    requires Enabled(s, ClientMoves)
  {
    var link := s.phase.link;
    if link.client.Closing? then s.(phase := Between)
    else
      var moved := s.(phase := Transferring(ClientStep(link)));
      match link.client
      case Starting => moved.(log := s.log + [Start(s.now)], begun := s.now)
      case Ending(_) => moved.(log := s.log + [End(s.now)], rounds := s.rounds + [Round(s.begun, s.now)])
      case Updating(_) => moved.(tally := Updated(s.tally, s.flag))
      case _ => moved
  }

  function ListenerActs(s: State): State
    requires Enabled(s, ListenerMoves)
  {
    match s.listener
    case Listening => s.(channel := s.channel[1..], listener := Holding(s.channel[0]))
    case Holding(n) =>
      s.(log := if LogOpen(s) then s.log + [Marker(n)] else s.log,
         handled := s.handled + [Handled(n, LogOpen(s))],
         listener := if n.CONTRO? then Flagging else Listening)
    case Flagging => s.(flag := true, listener := Listening)
  }

  function Step(s: State, a: Action): State
    requires Enabled(s, a)
  {
    match a
    case Connect(size) =>
      s.(phase := Transferring(Opened(size)),
         tally := s.tally.(base := |s.log|, start := s.tally.counter, late := s.flag))
    case Leave => s.(phase := Exited)
    case ClientMoves => ClientActs(s)
    case ServerMoves => s.(phase := Transferring(ServerStep(s.phase.link)))
    case FlooderSends(n) => s.(sent := s.sent + [n], channel := s.channel + [n])
    case ListenerMoves => ListenerActs(s)
    case Tick(d) => s.(now := s.now + d)
  }

  ghost predicate Run(s: State, actions: seq<Action>, s': State)
    decreases |actions|
  {
    if actions == [] then s == s'
    else Enabled(s, actions[0]) && Run(Step(s, actions[0]), actions[1..], s')
  }

  // ---- Views of the log ----

  // The END lines that come after the control marker.
  function EndsAfterControl(log: seq<Line>): nat {
    if log == [] then 0
    else
      var init, last := log[..|log| - 1], log[|log| - 1];
      EndsAfterControl(init) + if last.End? && Parser.Control(init) then 1 else 0
  }

  function ClientLines(log: seq<Line>): seq<Line> {
    if log == [] then []
    else
      var last := log[|log| - 1];
      ClientLines(log[..|log| - 1]) + if last.Start? || last.End? then [last] else []
  }

  function Markers(log: seq<Line>): seq<Line> {
    if log == [] then []
    else
      var last := log[|log| - 1];
      Markers(log[..|log| - 1]) + if last.Start? || last.End? then [] else [last]
  }

  function Flat(rounds: seq<Round>): seq<Line> {
    if rounds == [] then []
    else Flat(rounds[..|rounds| - 1]) + [Start(rounds[|rounds| - 1].began), End(rounds[|rounds| - 1].ended)]
  }

  function Kept(handled: seq<Handled>): seq<Line> {
    if handled == [] then []
    else
      var h := handled[|handled| - 1];
      Kept(handled[..|handled| - 1]) + if h.kept then [Marker(h.note)] else []
  }

  function NotesOf(handled: seq<Handled>): seq<Note> {
    if handled == [] then [] else NotesOf(handled[..|handled| - 1]) + [handled[|handled| - 1].note]
  }

  lemma Appended(log: seq<Line>, l: Line)
    ensures Parser.Ends(log + [l]) == Parser.Ends(log) + if l.End? then 1 else 0
    ensures Parser.Control(log + [l]) <==> l.FlooderControl? || Parser.Control(log)
    ensures EndsAfterControl(log + [l]) == EndsAfterControl(log) + if l.End? && Parser.Control(log) then 1 else 0
    ensures ClientLines(log + [l]) == if l.Start? || l.End? then ClientLines(log) + [l] else ClientLines(log)
    ensures Markers(log + [l]) == if l.Start? || l.End? then Markers(log) else Markers(log) + [l]
  {
    assert (log + [l])[..|log|] == log;
  }

  // ---- Invariants ----

  // An END is in the log and the counter not yet updated for it.
  function Pending(s: State): nat {
    if s.phase.Transferring? && s.phase.link.client.Updating? then 1 else 0
  }

  // A START is in the log and its END is not.
  predicate Measuring(s: State) {
    s.phase.Transferring? &&
    (s.phase.link.client.AwaitBlock? || s.phase.link.client.Acking? || s.phase.link.client.Ending?)
  }

  ghost predicate LinkInv(s: State) {
    s.phase.Transferring? ==> LinkOk(s.phase.link)
  }

  // END lines of the transfer under way, or else of the last one.
  function EndsSince(s: State): nat
    requires s.tally.base <= |s.log|
  {
    Parser.Ends(s.log[s.tally.base..])
  }

  ghost predicate CountInv(s: State) {
    var t := s.tally;
    && t.counter == t.ups - t.downs
    && (t.downs > 0 ==> s.flag)
    && t.ups + t.downs + Pending(s) == Parser.Ends(s.log)
    && t.base <= |s.log| && t.start >= 0
    && t.counter >= t.start - (EndsSince(s) - Pending(s))
    && (t.late ==> s.flag && t.counter == t.start - (EndsSince(s) - Pending(s)))
    && (s.phase.Transferring? ==> s.phase.link.rounds == EndsSince(s))
    && (s.phase.Exited? ==> t.counter < 0)
  }

  function InHand(c: ListenerPc): seq<Note> {
    if c.Holding? then [c.note] else []
  }

  ghost predicate NoteInv(s: State) {
    && InCycles(s.sent)
    && s.sent == NotesOf(s.handled) + InHand(s.listener) + s.channel
    && Markers(s.log) == Kept(s.handled)
    && (s.flag || s.listener.Flagging? <==> CONTRO in NotesOf(s.handled))
  }

  ghost predicate ControlInv(s: State) {
    Parser.Control(s.log) ==> s.tally.downs + Pending(s) <= EndsAfterControl(s.log) + 1
  }

  ghost predicate RoundInv(s: State) {
    && ClientLines(s.log) == Flat(s.rounds) + (if Measuring(s) then [Start(s.begun)] else [])
    && s.begun <= s.now
    && forall i :: 0 <= i < |s.rounds| ==> s.rounds[i].began <= s.rounds[i].ended <= s.now
  }

  ghost predicate Ok(s: State) {
    LinkInv(s) && CountInv(s) && NoteInv(s) && ControlInv(s) && RoundInv(s)
  }

  lemma BeginOk(now: nat)
    ensures Ok(Begin(now))
  {
    hide NoteInv, RoundInv;
    NothingNoted(now);
    NothingMeasured(now);
  }

  lemma NothingNoted(now: nat)
    ensures NoteInv(Begin(now))
  {
  }

  lemma NothingMeasured(now: nat)
    ensures RoundInv(Begin(now))
  {
  }

  lemma LinkKept(s: State, a: Action)
    requires LinkInv(s) && Enabled(s, a)
    ensures LinkInv(Step(s, a))
  {
    hide LinkOk, ClientReady, ServerReady, ClientStep, ServerStep, InCycles;
    match a
    case Connect(size) => OpenedOk(size);
    case ClientMoves => if !s.phase.link.client.Closing? { ClientKeeps(s.phase.link); }
    case ServerMoves => ServerKeeps(s.phase.link);
    case _ =>
  }

  lemma EndsSinceMore(s: State, l: Entry)
    requires s.tally.base <= |s.log|
    ensures EndsSince(s.(log := s.log + [l])) == EndsSince(s) + if l.End? then 1 else 0
  {
    Appended(s.log[s.tally.base..], l);
    assert (s.log + [l])[s.tally.base..] == s.log[s.tally.base..] + [l];
  }

  lemma CountKept(s: State, a: Action)
    requires CountInv(s) && Enabled(s, a)
    ensures CountInv(Step(s, a))
  {
    hide ClientReady, ServerReady, ClientActs, ServerStep, InCycles;
    hide Parser.Ends, Parser.Control, EndsAfterControl, ClientLines, Markers;
    match a
    case Connect(size) => assert s.log[|s.log|..] == []; NoEnds();
    case ClientMoves => ClientCountKept(s);
    case ServerMoves => ServerLeaves(s.phase.link);
    case ListenerMoves =>
      if s.listener.Holding? {
        Appended(s.log, Marker(s.listener.note));
        EndsSinceMore(s, Marker(s.listener.note));
      }
    case _ =>
  }

  lemma NoEnds()
    ensures Parser.Ends([]) == 0
  {
  }

  lemma ClientCountKept(s: State)
    requires CountInv(s) && Enabled(s, ClientMoves)
    ensures CountInv(ClientActs(s))
  {
    hide ClientReady, ClientStep, Parser.Ends, CountInv;
    match s.phase.link.client
    case Ending(_) => EndCounted(s);
    case Updating(_) => UpdateCounted(s);
    case _ => OthersCounted(s);
  }

  lemma EndCounted(s: State)
    requires CountInv(s) && Enabled(s, ClientMoves) && s.phase.link.client.Ending?
    ensures CountInv(ClientActs(s))
  {
    hide ClientReady, ClientStep, Parser.Ends, Parser.Control, EndsAfterControl, ClientLines, Markers;
    ClientLeaves(s.phase.link);
    Appended(s.log, End(s.now));
    EndsSinceMore(s, End(s.now));
  }

  lemma UpdateCounted(s: State)
    requires CountInv(s) && Enabled(s, ClientMoves) && s.phase.link.client.Updating?
    ensures CountInv(ClientActs(s))
  {
    hide ClientReady, ClientStep, Parser.Ends;
    ClientLeaves(s.phase.link);
  }

  lemma OthersCounted(s: State)
    requires CountInv(s) && Enabled(s, ClientMoves) && !s.phase.link.client.Ending? && !s.phase.link.client.Updating?
    ensures CountInv(ClientActs(s))
  {
    hide ClientReady, ClientStep, Parser.Ends, Parser.Control, EndsAfterControl, ClientLines, Markers;
    if !s.phase.link.client.Closing? {
      ClientLeaves(s.phase.link);
      Appended(s.log, Start(s.now));
      EndsSinceMore(s, Start(s.now));
    }
  }

  // ---- Notes and markers ----

  lemma MoreNotes(handled: seq<Handled>, h: Handled)
    ensures NotesOf(handled + [h]) == NotesOf(handled) + [h.note]
    ensures Kept(handled + [h]) == if h.kept then Kept(handled) + [Marker(h.note)] else Kept(handled)
  {
    assert (handled + [h])[..|handled|] == handled;
  }

  // A control note in hand is the only one there is.
  lemma ControlInHand(s: State)
    requires NoteInv(s) && s.listener == Holding(CONTRO)
    ensures !s.flag
  {
    hide Kept, Markers, NotesOf;
    var before := NotesOf(s.handled);
    assert s.sent[|before|] == CONTRO;
    assert forall i :: 0 <= i < |before| ==> s.sent[i] == before[i];
  }

  lemma NoteKept(s: State, a: Action)
    requires NoteInv(s) && Enabled(s, a)
    ensures NoteInv(Step(s, a))
  {
    hide ClientReady, ServerReady, ClientActs, ListenerActs, ServerStep, InCycles, NotesOf, Kept, Markers;
    match a
    case ClientMoves => ClientKeepsNotes(s);
    case ListenerMoves => ListenerKeepsNotes(s);
    case FlooderSends(n) =>
      assert NotesOf(s.handled) + InHand(s.listener) + s.channel + [n]
          == NotesOf(s.handled) + InHand(s.listener) + (s.channel + [n]);
    case _ =>
  }

  lemma ClientKeepsNotes(s: State)
    requires NoteInv(s) && Enabled(s, ClientMoves)
    ensures NoteInv(ClientActs(s))
  {
    hide ClientActs, Enabled, InCycles, NotesOf, Kept, Markers;
    ClientLeavesNotes(s);
  }

  lemma ClientLeavesNotes(s: State)
    requires Enabled(s, ClientMoves)
    ensures var t := ClientActs(s);
      && t.sent == s.sent && t.channel == s.channel && t.listener == s.listener && t.handled == s.handled
      && t.flag == s.flag && Markers(t.log) == Markers(s.log)
  {
    hide ClientReady, ClientStep, Markers;
    NoMarker(s.log, Start(s.now));
    NoMarker(s.log, End(s.now));
  }

  lemma NoMarker(log: seq<Line>, l: Line)
    requires l.Start? || l.End?
    ensures Markers(log + [l]) == Markers(log)
  {
    assert (log + [l])[..|log|] == log;
  }

  lemma ListenerKeepsNotes(s: State)
    requires NoteInv(s) && Enabled(s, ListenerMoves)
    ensures NoteInv(ListenerActs(s))
  {
    hide InCycles, NotesOf, Kept, Markers, Parser.Control, Parser.Ends, ClientLines;
    match s.listener
    case Listening => assert [s.channel[0]] + s.channel[1..] == s.channel;
    case Holding(n) => MarkerKeepsNotes(s, n);
    case Flagging =>
  }

  lemma MarkerKeepsNotes(s: State, n: Note)
    requires NoteInv(s) && s.listener == Holding(n)
    ensures NoteInv(ListenerActs(s))
  {
    hide InCycles, NotesOf, Kept, Markers, Parser.Control, Parser.Ends, ClientLines;
    MoreNotes(s.handled, Handled(n, LogOpen(s)));
    Appended(s.log, Marker(n));
    assert NotesOf(s.handled) + [n] + [] == NotesOf(s.handled) + [n];
  }

  // ---- The counter against the control marker ----

  lemma NoDecrementYet(s: State)
    requires CountInv(s) && !s.flag
    ensures s.tally.downs == 0 && EndsAfterControl([]) == 0
  {
  }

  lemma ControlKept(s: State, a: Action)
    requires ControlInv(s) && CountInv(s) && NoteInv(s) && Enabled(s, a)
    ensures ControlInv(Step(s, a))
  {
    hide ClientReady, ClientActs, ListenerActs, ServerStep, InCycles;
    hide NoteInv, CountInv, EndsAfterControl, Parser.Control;
    match a
    case ClientMoves => ClientKeepsControl(s);
    case ServerMoves => ServerLeaves(s.phase.link);
    case ListenerMoves => ListenerKeepsControl(s);
    case _ =>
  }

  lemma ClientKeepsControl(s: State)
    requires ControlInv(s) && Enabled(s, ClientMoves)
    ensures ControlInv(ClientActs(s))
  {
    hide ClientReady, ClientStep, EndsAfterControl, Parser.Control, Parser.Ends, ClientLines, Markers;
    if !s.phase.link.client.Closing? {
      ClientLeaves(s.phase.link);
    }
    match s.phase.link.client
    case Starting => Appended(s.log, Start(s.now));
    case Ending(_) => Appended(s.log, End(s.now));
    case _ =>
  }

  lemma ListenerKeepsControl(s: State)
    requires ControlInv(s) && CountInv(s) && NoteInv(s) && Enabled(s, ListenerMoves)
    ensures ControlInv(ListenerActs(s))
  {
    hide NoteInv, CountInv, EndsAfterControl, Parser.Control, Parser.Ends, ClientLines, Markers;
    if s.listener.Holding? {
      Appended(s.log, Marker(s.listener.note));
      if s.listener.note.CONTRO? {
        ControlInHand(s);
        NoDecrementYet(s);
      }
    }
  }

  // ---- Rounds ----

  lemma MoreRounds(rounds: seq<Round>, r: Round)
    ensures Flat(rounds + [r]) == Flat(rounds) + [Start(r.began), End(r.ended)]
  {
    assert (rounds + [r])[..|rounds|] == rounds;
  }

  lemma ServerKeepsMeasuring(s: State)
    requires Enabled(s, ServerMoves)
    ensures Measuring(Step(s, ServerMoves)) == Measuring(s)
  {
    ServerLeaves(s.phase.link);
  }

  lemma RoundKept(s: State, a: Action)
    requires LinkInv(s) && RoundInv(s) && Enabled(s, a)
    ensures RoundInv(Step(s, a))
  {
    hide LinkInv, ServerReady, ClientActs, ListenerActs, ServerStep, InCycles, ClientLines, Flat;
    match a
    case ClientMoves => ClientKeepsRounds(s);
    case ServerMoves => ServerKeepsMeasuring(s);
    case ListenerMoves => ListenerKeepsRounds(s);
    case _ =>
  }

  lemma ListenerKeepsRounds(s: State)
    requires RoundInv(s) && Enabled(s, ListenerMoves)
    ensures RoundInv(ListenerActs(s))
  {
    hide ClientLines, Flat, Parser.Control, Parser.Ends, EndsAfterControl, Markers;
    if s.listener.Holding? {
      Appended(s.log, Marker(s.listener.note));
    }
  }

  // A client step inside a transfer: a START opens a measurement, an END closes it.
  lemma ClientMeasures(s: State)
    requires LinkInv(s) && Enabled(s, ClientMoves) && !s.phase.link.client.Closing?
    ensures Measuring(s) <==>
              s.phase.link.client.AwaitBlock? || s.phase.link.client.Acking? || s.phase.link.client.Ending?
    ensures Measuring(ClientActs(s)) <==>
              s.phase.link.client.Starting? || s.phase.link.client.AwaitBlock? || s.phase.link.client.Acking?
  {
    hide LinkOk;
    ClientKeeps(s.phase.link);
    NoFailureNoDeadlock(ClientStep(s.phase.link));
  }

  lemma ClosingMeasuresNothing(s: State)
    requires Enabled(s, ClientMoves) && s.phase.link.client.Closing?
    ensures !Measuring(s) && !Measuring(ClientActs(s))
  {
  }

  lemma OneClientLine(log: seq<Line>, l: Line)
    requires l.Start? || l.End?
    ensures ClientLines(log + [l]) == ClientLines(log) + [l]
  {
    assert (log + [l])[..|log|] == log;
  }

  lemma ClientKeepsRounds(s: State)
    requires LinkInv(s) && RoundInv(s) && Enabled(s, ClientMoves)
    ensures RoundInv(ClientActs(s))
  {
    hide LinkInv, ClientReady, ClientStep, ClientLines, Flat, Measuring;
    assert Flat(s.rounds) + [] == Flat(s.rounds);
    if s.phase.link.client.Closing? {
      ClosingMeasuresNothing(s);
    } else {
      ClientMeasures(s);
      match s.phase.link.client
      case Starting => OneClientLine(s.log, Start(s.now));
      case Ending(_) =>
        OneClientLine(s.log, End(s.now));
        MoreRounds(s.rounds, Round(s.begun, s.now));
        assert Flat(s.rounds) + [Start(s.begun)] + [End(s.now)] == Flat(s.rounds) + [Start(s.begun), End(s.now)];
      case _ =>
    }
  }

  lemma StepOk(s: State, a: Action)
    requires Ok(s) && Enabled(s, a)
    ensures Ok(Step(s, a))
  {
    hide LinkInv, CountInv, NoteInv, ControlInv, RoundInv, Enabled, Step;
    LinkKept(s, a);
    CountKept(s, a);
    NoteKept(s, a);
    ControlKept(s, a);
    RoundKept(s, a);
  }

  // Every state of every interleaving keeps all of these.
  lemma {:induction false} RunOk(s: State, actions: seq<Action>, s': State)
    requires Ok(s) && Run(s, actions, s')
    ensures Ok(s')
    decreases |actions|
  {
    if actions != [] {
      hide Ok, Enabled, Step;
      StepOk(s, actions[0]);
      RunOk(Step(s, actions[0]), actions[1..], s');
    }
  }

  // ---- Theorems ----

  // Inside a transfer no assertion about message types has failed and at most two messages are
  // in flight; at its end it has logged one END for each block and one for the completion.
  lemma TransfersSafe(now: nat, actions: seq<Action>, s: State)
    requires Run(Begin(now), actions, s) && s.phase.Transferring?
    ensures var l := s.phase.link;
      && !l.client.ClientFailed? && !l.server.ServerFailed? && |l.c2s| + |l.s2c| <= 2
      && s.tally.base <= |s.log| && EndsSince(s) == l.rounds
      && (l.client.Closing? ==> EndsSince(s) == Ceil(FileSize(l)) + 1 && l.sent == 2 * Ceil(FileSize(l)) + 4)
  {
    hide NoteInv, ControlInv, RoundInv, LinkOk, Ceil, StepsLeft, Parser.Ends;
    BeginOk(now);
    RunOk(Begin(now), actions, s);
    NoFailureNoDeadlock(s.phase.link);
    InFlight(s.phase.link);
    if s.phase.link.client.Closing? {
      ClosingIsLast(s.phase.link);
    }
  }

  // On an exit of the request loop the decrements exceed the increments, by at most the
  // number of END lines of the last transfer.
  lemma ExitBalance(now: nat, actions: seq<Action>, s: State)
    requires Run(Begin(now), actions, s) && s.phase.Exited?
    ensures s.tally.base <= |s.log|
    ensures s.tally.ups < s.tally.downs <= s.tally.ups + EndsSince(s)
  {
    hide LinkInv, NoteInv, ControlInv, RoundInv;
    BeginOk(now);
    RunOk(Begin(now), actions, s);
  }

  // The decrements are at most one more than the END lines after the control marker.
  predicate Bounded(s: State) {
    s.tally.downs <= EndsAfterControl(s.log) + 1
  }

  // They are where the marker is in the log, and before flooder_state is set there are none.
  lemma BoundedBefore(s: State)
    requires Ok(s) && (!s.flag || Parser.Control(s.log))
    ensures Bounded(s) && (!s.flag ==> s.tally.downs == 0)
  {
    hide LinkInv, NoteInv, RoundInv;
  }

  // ---- Progress ----

  // As long as the request loop has not exited, it or the server can move.
  lemma NeverStuck(s: State)
    requires Ok(s) && !s.phase.Exited?
    ensures Enabled(s, ClientMoves) || Enabled(s, ServerMoves) || Enabled(s, Leave)
            || forall size :: Enabled(s, Connect(size))
  {
    hide CountInv, NoteInv, ControlInv, RoundInv, LinkOk, StepsLeft;
    if s.phase.Transferring? {
      NoFailureNoDeadlock(s.phase.link);
      if !Enabled(s, ClientMoves) && !Enabled(s, ServerMoves) {
        EndedIsReady(s.phase.link);
      }
    }
  }

  lemma EndedIsReady(l: Link)
    requires Protocol.Ended(l.client)
    ensures ClientReady(l) || l.client.Closing?
  {
  }

  // Rounds of the transfer under way whose counter update is still to come.
  function UpdatesLeft(s: State): int {
    if s.phase.Transferring? then Ceil(FileSize(s.phase.link)) + 1 - s.phase.link.rounds + Pending(s) else 0
  }

  // Once flooder_state is set, the number of transfers that can still begin.
  function TransfersLeft(s: State): nat {
    if s.phase.Exited? || s.tally.counter + 1 < UpdatesLeft(s) then 0 else s.tally.counter + 1 - UpdatesLeft(s)
  }

  function LoopSteps(s: State): int {
    match s.phase
    case Between => 1
    case Transferring(link) => StepsLeft(link) + 2
    case Exited => 0
  }

  // The measure of the request loop after the control note: each transfer costs at least one,
  // and inside a transfer every step of the client or the server brings its end nearer.
  lemma LoopWindsDown(s: State, a: Action)
    requires Ok(s) && s.flag && Enabled(s, a)
    ensures Step(s, a).flag
    ensures a.Connect? ==> TransfersLeft(Step(s, a)) < TransfersLeft(s)
    ensures !a.Connect? ==> TransfersLeft(Step(s, a)) == TransfersLeft(s)
    ensures a.ClientMoves? || a.ServerMoves? || a.Leave? ==> LoopSteps(Step(s, a)) == LoopSteps(s) - 1
    ensures a.FlooderSends? || a.ListenerMoves? || a.Tick? ==> LoopSteps(Step(s, a)) == LoopSteps(s)
  {
    hide CountInv, NoteInv, ControlInv, RoundInv, LinkOk;
    hide StepsLeft, InCycles, ServerStep, ServerReady, ClientActs, Ceil;
    match a
    case Connect(size) => CeilPositive(FileSize(Opened(size)));
    case Leave =>
    case ClientMoves => ClientWindsDown(s);
    case ServerMoves => ServerLeaves(s.phase.link); ServerCounts(s.phase.link);
    case _ =>
  }

  lemma CeilPositive(n: nat)
    ensures Ceil(n) >= 0
  {
  }

  lemma ClientWindsDown(s: State)
    requires LinkInv(s) && s.flag && Enabled(s, ClientMoves)
    ensures ClientActs(s).flag && TransfersLeft(ClientActs(s)) == TransfersLeft(s)
    ensures LoopSteps(ClientActs(s)) == LoopSteps(s) - 1
  {
    hide LinkOk, StepsLeft, ClientStep, ClientReady, Ceil;
    var link := s.phase.link;
    if link.client.Closing? {
      ClosingIsLast(link);
    } else {
      ClientLeaves(link);
      ClientCounts(link);
    }
  }

  lemma ClosingIsLast(l: Link)
    requires LinkOk(l) && l.client.Closing?
    ensures StepsLeft(l) == 0 && l.rounds == Ceil(FileSize(l)) + 1 && l.sent == 2 * Ceil(FileSize(l)) + 4
  {
  }

  function Connects(actions: seq<Action>): nat {
    if actions == [] then 0 else (if actions[0].Connect? then 1 else 0) + Connects(actions[1..])
  }

  lemma {:induction false} ConnectsBounded(s: State, actions: seq<Action>, s': State)
    requires Ok(s) && s.flag && Run(s, actions, s')
    ensures Connects(actions) + TransfersLeft(s') <= TransfersLeft(s)
    decreases |actions|
  {
    if actions != [] {
      hide Ok, Enabled, Step, TransfersLeft;
      StepOk(s, actions[0]);
      LoopWindsDown(s, actions[0]);
      ConnectsBounded(Step(s, actions[0]), actions[1..], s');
    }
  }

  // After the control note the loop begins at most counter + 1 more transfers.
  lemma FewTransfersAfterControl(s: State, actions: seq<Action>, s': State)
    requires Ok(s) && s.flag && Run(s, actions, s')
    ensures Connects(actions) <= if s.tally.counter < 0 then 0 else s.tally.counter + 1
  {
    hide NoteInv, ControlInv, RoundInv, LinkOk, Run, Connects, Ceil;
    ConnectsBounded(s, actions, s');
    if s.phase.Transferring? {
      UpdatesRemain(s);
    }
  }

  lemma UpdatesRemain(s: State)
    requires LinkInv(s) && s.phase.Transferring?
    ensures UpdatesLeft(s) >= 0
  {
    RoundsAtMost(s.phase.link);
  }

  // ---- Every transfer can be completed ----

  predicate Completed(s: State, s': State)
    requires s.phase.Transferring?
  {
    && s'.phase.Between? && s'.flag == s.flag && s'.tally.late == s.tally.late
    && s'.tally.start == s.tally.start && s'.tally.base <= |s'.log| && EndsSince(s') == Ceil(FileSize(s.phase.link)) + 1
    && s'.tally.ups >= s.tally.ups && s'.listener == s.listener && s'.handled == s.handled
    && (Parser.Control(s'.log) <==> Parser.Control(s.log))
  }

  // One more step of the client or of the server.
  function NextMove(s: State): Action {
    if Enabled(s, ClientMoves) then ClientMoves else ServerMoves
  }

  lemma NextMoveNearer(s: State)
    requires Ok(s) && s.phase.Transferring?
    ensures Enabled(s, NextMove(s)) && Ok(Step(s, NextMove(s)))
    ensures var t := Step(s, NextMove(s));
      && t.flag == s.flag && t.tally.late == s.tally.late && t.tally.start == s.tally.start
      && t.tally.ups >= s.tally.ups && t.listener == s.listener && t.handled == s.handled
      && (Parser.Control(t.log) <==> Parser.Control(s.log))
      && (t.phase.Transferring? ==> t.phase.link.size == s.phase.link.size
                                    && StepsLeft(t.phase.link) == StepsLeft(s.phase.link) - 1)
      && (!t.phase.Transferring? ==> Completed(s, t))
  {
    hide LinkOk, CountInv, NoteInv, ControlInv, RoundInv;
    hide StepsLeft, ClientStep, ServerStep, ClientReady, ServerReady, Ceil;
    NoFailureNoDeadlock(s.phase.link);
    NeverStuck(s);
    assert !Enabled(s, Connect(None)) && !Enabled(s, Leave);
    StepOk(s, NextMove(s));
    if Enabled(s, ClientMoves) {
      ClientNearer(s);
    } else {
      ServerLeaves(s.phase.link);
      ServerCounts(s.phase.link);
    }
  }

  lemma ClientNearer(s: State)
    requires Ok(s) && Enabled(s, ClientMoves)
    ensures var t := ClientActs(s);
      && t.flag == s.flag && t.tally.late == s.tally.late && t.tally.start == s.tally.start
      && t.tally.ups >= s.tally.ups && t.listener == s.listener && t.handled == s.handled
      && (Parser.Control(t.log) <==> Parser.Control(s.log))
      && (t.phase.Transferring? ==> t.phase.link.size == s.phase.link.size
                                    && StepsLeft(t.phase.link) == StepsLeft(s.phase.link) - 1)
      && (!t.phase.Transferring? ==> Completed(s, t))
  {
    hide LinkOk, NoteInv, ControlInv, RoundInv, StepsLeft, ClientStep, ClientReady, Ceil, Parser.Control;
    hide Parser.Ends, EndsAfterControl, ClientLines, Markers;
    var link := s.phase.link;
    if link.client.Closing? {
      ClosingIsLast(link);
    } else {
      ClientLeaves(link);
      ClientCounts(link);
      Appended(s.log, Start(s.now));
      Appended(s.log, End(s.now));
    }
  }

  // From every reachable state inside a transfer, the client and the server can finish it.
  lemma {:induction false} CanComplete(s: State)
    requires Ok(s) && s.phase.Transferring?
    ensures exists actions, s' :: Run(s, actions, s') && Ok(s') && Completed(s, s')
    decreases StepsLeft(s.phase.link) + 1
  {
    hide Ok, Enabled, Step, StepsLeft, NextMove;
    var a := NextMove(s);
    NextMoveNearer(s);
    var t := Step(s, a);
    if t.phase.Transferring? {
      OkNotNegative(t);
      CanComplete(t);
      var rest, s' :| Run(t, rest, s') && Ok(s') && Completed(t, s');
      assert ([a] + rest)[1..] == rest;
      assert Run(s, [a] + rest, s');
      assert Completed(s, s');
    } else {
      assert [a][1..] == [];
      assert Run(s, [a], t);
    }
  }

  lemma OkNotNegative(s: State)
    requires Ok(s) && s.phase.Transferring?
    ensures StepsLeft(s.phase.link) >= 0
  {
    hide CountInv, NoteInv, ControlInv, RoundInv, StepsLeft, LinkOk;
    RoundsAtMost(s.phase.link);
  }

  lemma {:induction false} RunThen(s: State, xs: seq<Action>, s1: State, ys: seq<Action>, s2: State)
    requires Run(s, xs, s1) && Run(s1, ys, s2)
    ensures Run(s, xs + ys, s2)
    decreases |xs|
  {
    hide Enabled, Step;
    if xs == [] {
      assert xs + ys == ys;
    } else {
      assert (xs + ys)[1..] == xs[1..] + ys;
      RunThen(Step(s, xs[0]), xs[1..], s1, ys, s2);
    }
  }

  lemma NotesStart()
    ensures InCycles([START]) && InCycles([START, CONTRO])
  {
    assert [START][..0] == [] && [START, CONTRO][..0] == [] && [START, CONTRO][..1] == [START];
  }

  lemma OneStep(s: State, a: Action, rest: seq<Action>, s': State)
    requires Enabled(s, a) && Run(Step(s, a), rest, s')
    ensures Run(s, [a] + rest, s')
  {
    assert ([a] + rest)[1..] == rest;
  }

  lemma {:induction false} NoControlNoEnds(log: seq<Line>)
    requires !Parser.Control(log)
    ensures EndsAfterControl(log) == 0
    decreases |log|
  {
    if log != [] {
      assert log == log[..|log| - 1] + [log[|log| - 1]];
      NoControlNoEnds(log[..|log| - 1]);
    }
  }
}
