/** The control note against the request counter (client/client.c:58-71, client/main.c:46-52):
    whether the log is open when the note is handled decides what the log can say later. */
module ControlNote {
  import opened Common
  import opened Protocol
  import opened TimingLog
  import opened Flooder
  import opened Experiment
  import Parser
  import Measurements

  ghost predicate BoundedFrom(s: State) {
    forall actions, t :: Run(s, actions, t) ==> Bounded(t)
  }

  // ---- The marker in the log stays there ----

  lemma ControlStaysStep(s: State, a: Action)
    requires Enabled(s, a) && Parser.Control(s.log)
    ensures Parser.Control(Step(s, a).log)
  {
    hide ClientReady, ServerReady, ClientStep, ServerStep, InCycles;
  }

  lemma {:induction false} ControlStays(s: State, actions: seq<Action>, t: State)
    requires Run(s, actions, t) && Parser.Control(s.log)
    ensures Parser.Control(t.log)
    decreases |actions|
  {
    if actions != [] {
      hide Enabled, Step, Parser.Control;
      ControlStaysStep(s, actions[0]);
      ControlStays(Step(s, actions[0]), actions[1..], t);
    }
  }

  // ---- A note in hand is not in the log yet ----

  lemma {:induction false} KeptIsHandled(handled: seq<Handled>, n: Note)
    requires Handled(n, true) in handled
    ensures n in NotesOf(handled)
    decreases |handled|
  {
    var init, h := handled[..|handled| - 1], handled[|handled| - 1];
    assert handled == init + [h];
    if h != Handled(n, true) {
      KeptIsHandled(init, n);
    }
  }

  lemma NotYetMarked(s: State)
    requires Ok(s) && s.listener == Holding(CONTRO)
    ensures !s.flag && !Parser.Control(s.log)
  {
    hide LinkInv, CountInv, ControlInv, RoundInv, InCycles, Markers, Kept, NotesOf;
    ControlInHand(s);
    Measurements.OnByMarkers(s.log);
    Measurements.OnByNotes(s.handled);
    if Handled(CONTRO, true) in s.handled {
      KeptIsHandled(s.handled, CONTRO);
    }
  }

  // ---- The note handled while the log is closed ----

  // What follows: flooder_state is set, and the client asks for a file of one block.
  function Unmarked(s: State): State
    requires s.phase.Between? && s.listener == Holding(CONTRO)
  {
    s.(handled := s.handled + [Handled(CONTRO, false)], flag := true, listener := Listening,
       phase := Transferring(Opened(Some(BLOCK))),
       tally := s.tally.(base := |s.log|, start := s.tally.counter, late := true))
  }

  lemma UnmarkedReached(s: State)
    requires s.phase.Between? && s.listener == Holding(CONTRO) && s.tally.counter >= 0
    ensures Enabled(s, ListenerMoves)
    ensures Run(Step(s, ListenerMoves), [ListenerMoves, Connect(Some(BLOCK))], Unmarked(s))
  {
    hide InCycles;
    var s1 := Step(s, ListenerMoves);
    var s2 := Step(s1, ListenerMoves);
    assert Step(s2, Connect(Some(BLOCK))) == Unmarked(s);
    OneStep(s2, Connect(Some(BLOCK)), [], Unmarked(s));
    OneStep(s1, ListenerMoves, [Connect(Some(BLOCK))], Unmarked(s));
    assert [ListenerMoves] + [Connect(Some(BLOCK))] == [ListenerMoves, Connect(Some(BLOCK))];
    assert [Connect(Some(BLOCK))] + [] == [Connect(Some(BLOCK))];
  }

  // Both rounds of that file are counted down, and no marker stands before them.
  lemma UnmarkedUnbounded(s: State, t: State)
    requires s.phase.Between? && s.listener == Holding(CONTRO)
    requires Ok(t) && !Parser.Control(s.log) && s.tally.ups == s.tally.counter && Completed(Unmarked(s), t)
    ensures !Bounded(t)
  {
    hide LinkInv, NoteInv, ControlInv, RoundInv, Parser.Ends;
    assert Ceil(BLOCK) == 1;
    NoControlNoEnds(t.log);
  }

  lemma NoDecrements(s: State)
    requires Ok(s) && s.listener == Holding(CONTRO)
    ensures !s.flag && s.tally.ups == s.tally.counter && !s.phase.Exited?
  {
    hide LinkInv, ControlInv, RoundInv, NoteInv;
    ControlInHand(s);
  }

  lemma ClosedLogBreaksBound(s: State)
    requires Ok(s) && s.listener == Holding(CONTRO) && !LogOpen(s)
    ensures Enabled(s, ListenerMoves)
    ensures exists actions, t :: Run(Step(s, ListenerMoves), actions, t) && !Bounded(t)
  {
    hide Ok, Run, Step, Enabled, Completed, Bounded;
    NoDecrements(s);
    NotYetMarked(s);
    UnmarkedReached(s);
    var s1, u := Step(s, ListenerMoves), Unmarked(s);
    StepOk(s, ListenerMoves);
    RunOk(s1, [ListenerMoves, Connect(Some(BLOCK))], u);
    CanComplete(u);
    var ys, t :| Run(u, ys, t) && Ok(t) && Completed(u, t);
    RunThen(s1, [ListenerMoves, Connect(Some(BLOCK))], u, ys, t);
    UnmarkedUnbounded(s, t);
  }

  // ---- The note handled while the log is open ----

  lemma OpenLogKeepsBound(s: State, actions: seq<Action>, t: State)
    requires Ok(s) && s.listener == Holding(CONTRO) && LogOpen(s)
    requires Run(Step(s, ListenerMoves), actions, t)
    ensures Bounded(t)
  {
    hide Ok, Run, Step, Bounded;
    StepOk(s, ListenerMoves);
    RunOk(Step(s, ListenerMoves), actions, t);
    MarkerWritten(s);
    ControlStays(Step(s, ListenerMoves), actions, t);
    BoundedBefore(t);
  }

  lemma MarkerWritten(s: State)
    requires s.listener == Holding(CONTRO) && LogOpen(s)
    ensures Parser.Control(Step(s, ListenerMoves).log)
  {
    assert Step(s, ListenerMoves).log == s.log + [FlooderControl];
  }

  // The bound on the decrements holds in every state after the control note is handled if and
  // only if the log is open when it is; up to then nothing is decremented.
  lemma DecrementsAfterControl(now: nat, actions: seq<Action>, s: State)
    requires Run(Begin(now), actions, s)
    ensures !s.flag ==> s.tally.downs == 0
    ensures s.listener == Holding(CONTRO) ==> !s.flag && (BoundedFrom(Step(s, ListenerMoves)) <==> LogOpen(s))
  {
    hide Ok, Run, Step, Enabled, LogOpen, Bounded;
    BeginOk(now);
    RunOk(Begin(now), actions, s);
    if !s.flag {
      BoundedBefore(s);
    }
    if s.listener == Holding(CONTRO) {
      NoDecrements(s);
      Holds(s);
      if LogOpen(s) {
        forall ys, t | Run(Step(s, ListenerMoves), ys, t) ensures Bounded(t) {
          OpenLogKeepsBound(s, ys, t);
        }
      } else {
        ClosedLogBreaksBound(s);
      }
    }
  }

  lemma Holds(s: State)
    requires s.listener.Holding?
    ensures Enabled(s, ListenerMoves)
  {
  }

  // ---- A run that loses the marker ----

  // Inside the first transfer the flooder has started, and its control note is in hand.
  function InTransfer(now: nat): State {
    Begin(now).(phase := Transferring(Opened(None)), log := [FlooderStart], sent := [START, CONTRO],
                listener := Holding(CONTRO), handled := [Handled(START, true)])
  }

  lemma InTransferReached(now: nat)
    ensures exists actions :: Run(Begin(now), actions, InTransfer(now))
  {
    var s := Begin(now);
    NotesStart();
    var s1 := Step(s, Connect(None));
    var s2 := Step(s1, FlooderSends(START));
    var s3 := Step(s2, FlooderSends(CONTRO));
    var s4 := Step(s3, ListenerMoves);
    var s5 := Step(s4, ListenerMoves);
    var s6 := Step(s5, ListenerMoves);
    assert s6 == InTransfer(now);
    OneStep(s5, ListenerMoves, [], s6);
    OneStep(s4, ListenerMoves, [ListenerMoves] + [], s6);
    OneStep(s3, ListenerMoves, [ListenerMoves] + ([ListenerMoves] + []), s6);
    var three := [ListenerMoves] + ([ListenerMoves] + ([ListenerMoves] + []));
    OneStep(s2, FlooderSends(CONTRO), three, s6);
    OneStep(s1, FlooderSends(START), [FlooderSends(CONTRO)] + three, s6);
    OneStep(s, Connect(None), [FlooderSends(START)] + ([FlooderSends(CONTRO)] + three), s6);
  }

  // A transfer is completed, the log is closed, and only then the note in hand is handled.
  lemma LostControlMarker(now: nat)
    ensures exists xs, s, ys, t ::
      && Run(Begin(now), xs, s) && s.phase.Between? && s.listener == Holding(CONTRO)
      && s.tally.base <= |s.log| && EndsSince(s) > 0
      && Run(Step(s, ListenerMoves), ys, t) && !Bounded(t)
  {
    hide Ok, Run, Step, Enabled, Bounded;
    BeginOk(now);
    InTransferReached(now);
    var xs :| Run(Begin(now), xs, InTransfer(now));
    RunOk(Begin(now), xs, InTransfer(now));
    CanComplete(InTransfer(now));
    var ys, s :| Run(InTransfer(now), ys, s) && Ok(s) && Completed(InTransfer(now), s);
    RunThen(Begin(now), xs, InTransfer(now), ys, s);
    ClosedLogBreaksBound(s);
    var zs, t :| Run(Step(s, ListenerMoves), zs, t) && !Bounded(t);
    assert EndsSince(s) > 0 by { CeilPositive(0); }
  }
}
