/** What the parser (analysis/parser/data_parser.py) recovers from the log of a run of the
    experiment (client/client.c, client/main.c), whatever the interleaving. */
module Measurements {
  import opened Common
  import opened TimingLog
  import opened Parser
  import opened Flooder
  import opened Experiment

  // The rounds, told from the client's lines alone.
  lemma {:induction false} FlatEnds(rounds: seq<Round>)
    ensures Flat(rounds) == [] <==> rounds == []
    ensures rounds != [] ==> var f := Flat(rounds);
      && f[|f| - 1] == End(rounds[|rounds| - 1].ended)
      && f[..|f| - 1] == Flat(rounds[..|rounds| - 1]) + [Start(rounds[|rounds| - 1].began)]
  {
    if rounds != [] {
      var rest := Flat(rounds[..|rounds| - 1]);
      var began, ended := Start(rounds[|rounds| - 1].began), End(rounds[|rounds| - 1].ended);
      assert Flat(rounds) == rest + [began] + [ended];
      assert (rest + [began] + [ended])[..|rest| + 1] == rest + [began];
    }
  }

  predicate AtMostStart(open: seq<Line>) {
    open == [] || (|open| == 1 && open[0].Start?)
  }

  // The first time the client logged.
  function FirstOf(rounds: seq<Round>, open: seq<Line>): Option<nat>
    requires AtMostStart(open)
  {
    if rounds != [] then Some(rounds[0].began) else if open != [] then Some(open[0].t) else None
  }

  ghost predicate Recovered(log: seq<Line>, rounds: seq<Round>) {
    && Parses(log) && |Marks(log)| == |rounds|
    && (forall i :: 0 <= i < |rounds| ==> Marks(log)[i].point.rtt == rounds[i].ended - rounds[i].began)
  }

  ghost predicate StartsKnown(log: seq<Line>, rounds: seq<Round>, open: seq<Line>)
    requires AtMostStart(open)
  {
    && (open != [] ==> LastStart(log) == Some(open[0].t))
    && (FirstOf(rounds, open) == None ==> FirstStart(log) == None)
    && (FirstOf(rounds, open) != None && FirstOf(rounds, open) != Some(0) ==> FirstStart(log) == FirstOf(rounds, open))
  }

  ghost predicate Placed(log: seq<Line>, rounds: seq<Round>)
    requires Recovered(log, rounds)
  {
    rounds != [] && rounds[0].began != 0 ==>
      forall i :: 0 <= i < |rounds| ==>
        Marks(log)[i].point.at == (rounds[i].began - rounds[0].began) as real / 1000000000.0
  }

  lemma LastLine(rounds: seq<Round>, open: seq<Line>, rest: seq<Line>, l: Line)
    requires AtMostStart(open) && Flat(rounds) + open == rest + [l]
    ensures l.Start? ==> open == [l] && rest == Flat(rounds) + []
    ensures l.End? ==> open == [] && rounds != [] && l.t == rounds[|rounds| - 1].ended
                       && rest == Flat(rounds[..|rounds| - 1]) + [Start(rounds[|rounds| - 1].began)]
  {
    hide Flat;
    FlatEnds(rounds);
    var f := Flat(rounds);
    assert (rest + [l])[|rest|] == l && (rest + [l])[..|rest|] == rest;
    if open == [] {
      assert f + open == f;
    } else {
      assert (f + open)[|f|] == open[0] && (f + open)[..|f|] == f;
    }
  }

  lemma {:induction false} RoundsRecovered(log: seq<Entry>, rounds: seq<Round>, open: seq<Line>)
    requires AtMostStart(open) && ClientLines(log) == Flat(rounds) + open
    ensures StartsKnown(log, rounds, open) && Recovered(log, rounds) && Placed(log, rounds)
    decreases |log|
  {
    if log == [] {
      FlatEnds(rounds);
      assert ClientLines(log) == [];
    } else {
      var init, l := log[..|log| - 1], log[|log| - 1];
      assert log == init + [l];
      OneLineRecovered(init, l, rounds, open);
      match l
      case Start(t) =>
        RoundsRecovered(init, rounds, []);
        StartAdds(init, rounds, t);
      case End(t) =>
        var n := |rounds| - 1;
        RoundsRecovered(init, rounds[..n], [Start(rounds[n].began)]);
        EndAdds(init, rounds, t);
      case _ =>
        RoundsRecovered(init, rounds, open);
        MarkerAdds(init, l, rounds, open);
    }
  }

  // The lines before the last, and what they have to give.
  lemma OneLineRecovered(init: seq<Entry>, l: Entry, rounds: seq<Round>, open: seq<Line>)
    requires AtMostStart(open) && ClientLines(init + [l]) == Flat(rounds) + open
    ensures l.Start? ==> open == [l] && ClientLines(init) == Flat(rounds) + []
    ensures l.End? ==> open == [] && rounds != [] && l.t == rounds[|rounds| - 1].ended
                       && ClientLines(init) == Flat(rounds[..|rounds| - 1]) + [Start(rounds[|rounds| - 1].began)]
    ensures !l.Start? && !l.End? ==> ClientLines(init) == Flat(rounds) + open
  {
    hide ClientLines, Flat, Markers, EndsAfterControl, Ends, Control;
    Appended(init, l);
    if l.Start? || l.End? {
      LastLine(rounds, open, ClientLines(init), l);
    }
  }

  lemma MarkerAdds(init: seq<Line>, l: Line, rounds: seq<Round>, open: seq<Line>)
    requires !l.Start? && !l.End? && !l.Malformed? && AtMostStart(open)
    requires StartsKnown(init, rounds, open) && Recovered(init, rounds) && Placed(init, rounds)
    ensures StartsKnown(init + [l], rounds, open) && Recovered(init + [l], rounds) && Placed(init + [l], rounds)
  {
    hide Parses, Marks, LastStart, FirstStart, FlooderOn, Control;
    OneMore(init, l);
    OneMoreMark(init, l);
  }

  lemma StartAdds(init: seq<Line>, rounds: seq<Round>, t: nat)
    requires StartsKnown(init, rounds, []) && Recovered(init, rounds) && Placed(init, rounds)
    ensures StartsKnown(init + [Start(t)], rounds, [Start(t)])
    ensures Recovered(init + [Start(t)], rounds) && Placed(init + [Start(t)], rounds)
  {
    hide Parses, Marks, LastStart, FirstStart, FlooderOn, Control;
    OneMore(init, Start(t));
    OneMoreMark(init, Start(t));
  }

  lemma EndAdds(init: seq<Line>, rounds: seq<Round>, t: nat)
    requires rounds != [] && rounds[|rounds| - 1].ended == t
    requires var r, o := rounds[..|rounds| - 1], [Start(rounds[|rounds| - 1].began)];
      StartsKnown(init, r, o) && Recovered(init, r) && Placed(init, r)
    ensures StartsKnown(init + [End(t)], rounds, [])
    ensures Recovered(init + [End(t)], rounds) && Placed(init + [End(t)], rounds)
  {
    hide Parses, Marks, LastStart, FirstStart, FlooderOn, Control;
    OneMore(init, End(t));
    OneMoreMark(init, End(t));
  }

  // The parser gives one data point for each END line, in order, with the round trip time of
  // the round that ended there, at its own start counted from the first.
  lemma ParserRecoversRounds(now: nat, actions: seq<Action>, s: State)
    requires Run(Begin(now), actions, s)
    ensures Outcomes(ReadLog(TextOf(s.log))).Parsed?
    ensures Recovered(s.log, s.rounds) && Placed(s.log, s.rounds) && |s.rounds| == Ends(s.log)
    ensures Outcomes(ReadLog(TextOf(s.log))).lists == Sorted(Marks(s.log))
  {
    hide LinkInv, NoteInv, ControlInv, CountInv, Run, Recovered, Placed, Flat, ClientLines, Sorted, Marks;
    BeginOk(now);
    RunOk(Begin(now), actions, s);
    LogRoundTrip(s.log);
    RoundsRecovered(s.log, s.rounds, if Measuring(s) then [Start(s.begun)] else []);
    RecoveredParses(s.log, s.rounds);
  }

  lemma RecoveredParses(log: seq<Line>, rounds: seq<Round>)
    requires Recovered(log, rounds)
    ensures Parses(log) && |rounds| == Ends(log)
  {
    MarksCount(log);
  }

  // ---- Labels ----

  // The latest note that reached the log says whether the flooder is on.
  predicate OnAfter(handled: seq<Handled>) {
    if handled == [] then true
    else
      var h := handled[|handled| - 1];
      if h == Handled(START, true) then true
      else if h == Handled(ENDIN, true) then false
      else OnAfter(handled[..|handled| - 1])
  }

  lemma {:induction false} OnByMarkers(log: seq<Line>)
    ensures FlooderOn(Markers(log)) == FlooderOn(log) && Control(Markers(log)) == Control(log)
    decreases |log|
  {
    if log != [] {
      var init, l := log[..|log| - 1], log[|log| - 1];
      assert log == init + [l];
      OnByMarkers(init);
      Appended(init, l);
      OneMore(init, l);
      OneMore(Markers(init), l);
    }
  }

  lemma NothingKept()
    ensures Kept([]) == []
  {
  }

  lemma {:induction false} OnByNotes(handled: seq<Handled>)
    ensures FlooderOn(Kept(handled)) == OnAfter(handled)
    ensures Control(Kept(handled)) == (Handled(CONTRO, true) in handled)
    decreases |handled|
  {
    hide FirstStart, LastStart, NotesOf, Kept;
    if handled == [] {
      NothingKept();
    } else {
      var init, h := handled[..|handled| - 1], handled[|handled| - 1];
      assert handled == init + [h];
      OnByNotes(init);
      MoreNotes(init, h);
      OneMore(Kept(init), Marker(h.note));
    }
  }

  // At every moment of a run, and so at every END, the two labels the parser gives follow
  // from the flooder's notes whose markers reached the log, the latest START or ENDIN deciding.
  lemma LabelsFollowNotes(now: nat, actions: seq<Action>, s: State)
    requires Run(Begin(now), actions, s)
    ensures FlooderOn(s.log) == OnAfter(s.handled) && Control(s.log) == (Handled(CONTRO, true) in s.handled)
  {
    hide LinkInv, CountInv, ControlInv, RoundInv, Run;
    BeginOk(now);
    RunOk(Begin(now), actions, s);
    OnByMarkers(s.log);
    OnByNotes(s.handled);
  }

  function MarkersOf(notes: seq<Note>): seq<Line> {
    if notes == [] then [] else MarkersOf(notes[..|notes| - 1]) + [Marker(notes[|notes| - 1])]
  }

  // If the log was open whenever a note was handled, its markers are the flooder's notes, in
  // the order sent, up to those still on their way.
  lemma MarkersAreNotes(now: nat, actions: seq<Action>, s: State)
    requires Run(Begin(now), actions, s) && forall h <- s.handled :: h.kept
    ensures InCycles(s.sent) && NotesOf(s.handled) <= s.sent && Markers(s.log) == MarkersOf(NotesOf(s.handled))
  {
    hide LinkInv, CountInv, ControlInv, RoundInv, Run, InCycles, NotesOf, Markers, MarkersOf;
    BeginOk(now);
    RunOk(Begin(now), actions, s);
    AllKept(s.handled);
  }

  lemma {:induction false} AllKept(handled: seq<Handled>)
    requires forall h <- handled :: h.kept
    ensures Kept(handled) == MarkersOf(NotesOf(handled))
    decreases |handled|
  {
    if handled != [] {
      var init, h := handled[..|handled| - 1], handled[|handled| - 1];
      assert handled == init + [h];
      AllKept(init);
      MoreNotes(init, h);
      var notes := NotesOf(handled);
      assert notes[..|notes| - 1] == NotesOf(init);
    }
  }

  // ---- When the lines were written ----

  predicate AtStarting(s: State) {
    s.phase.Transferring? && s.phase.link.client.Starting?
  }

  predicate AtEnding(s: State) {
    s.phase.Transferring? && s.phase.link.client.Ending?
  }

  // What a step writes: the client the clock as it stands, the listening thread a marker.
  lemma StepWrites(s: State, a: Action)
    requires Enabled(s, a)
    ensures var t := Step(s, a);
      t.log == if a.ClientMoves? && AtStarting(s) then s.log + [Start(s.now)]
               else if a.ClientMoves? && AtEnding(s) then s.log + [End(s.now)]
               else if a.ListenerMoves? && s.listener.Holding? && LogOpen(s) then s.log + [Marker(s.listener.note)]
               else s.log
  {
    hide InCycles;
  }

  lemma {:induction false} LogGrows(s: State, actions: seq<Action>, s': State)
    requires Run(s, actions, s')
    ensures s.log <= s'.log
    decreases |actions|
  {
    if actions != [] {
      hide Enabled, Step;
      StepWrites(s, actions[0]);
      LogGrows(Step(s, actions[0]), actions[1..], s');
    }
  }

  // u is the moment at which line i of the log of s was written by the client.
  predicate WrittenAt(u: State, s: State, i: nat)
    requires i < |s.log|
  {
    && u.log == s.log[..i]
    && (s.log[i].Start? ==> AtStarting(u) && s.log[i].t == u.now)
    && (s.log[i].End? ==> AtEnding(u) && s.log[i].t == u.now)
  }

  lemma {:induction false} WrittenIn(s: State, actions: seq<Action>, s': State, i: nat)
    requires Run(s, actions, s') && |s.log| <= i < |s'.log|
    ensures exists k, u :: 0 <= k <= |actions| && Run(s, actions[..k], u) && WrittenAt(u, s', i)
    decreases |actions|
  {
    hide Enabled, Step, WrittenAt;
    assert actions != [];
    var a, t := actions[0], Step(s, actions[0]);
    StepWrites(s, a);
    LogGrows(t, actions[1..], s');
    if i < |t.log| {
      WrittenNow(s, a, s', i);
      assert actions[..0] == [] && Run(s, actions[..0], s);
    } else {
      WrittenIn(t, actions[1..], s', i);
      var k, u :| 0 <= k <= |actions[1..]| && Run(t, actions[1..][..k], u) && WrittenAt(u, s', i);
      assert actions[..k + 1] == [a] + actions[1..][..k];
      OneStep(s, a, actions[1..][..k], u);
    }
  }

  lemma WrittenNow(s: State, a: Action, s': State, i: nat)
    requires Enabled(s, a) && Step(s, a).log <= s'.log && |s.log| <= i < |Step(s, a).log|
    ensures i < |s'.log| && WrittenAt(s, s', i)
  {
    hide Enabled, Step;
    StepWrites(s, a);
    assert s'.log[i] == Step(s, a).log[i];
    assert s'.log[..i] == s.log;
  }

  // Every START and END line of a run carries the clock at which the client, about to log it,
  // wrote it behind the lines before it.
  lemma StampedWhenWritten(now: nat, actions: seq<Action>, s: State, i: nat)
    requires Run(Begin(now), actions, s) && i < |s.log|
    ensures exists k, u :: 0 <= k <= |actions| && Run(Begin(now), actions[..k], u) && WrittenAt(u, s, i)
  {
    hide Run, WrittenAt;
    WrittenIn(Begin(now), actions, s, i);
  }
}
