/** The flooder (flooder/flooder.c:61-155): an endless loop of cycles that notifies the client
    and writes to the packet sink. */
module Flooder {
  import opened Common

  const CONTROL_AFTER: int := 60

  // The six-byte messages to the client.
  datatype Note = START | CONTRO | ENDIN

  // What the flooder does: tell the client, write its own log, send a datagram.
  datatype Event = Notified(note: Note) | Stamped | Udp(ok: bool)

  // ---- The order of events, each against everything before it ----

  function LastNote(before: seq<Event>): Option<Note> {
    if before == [] then None
    else if before[|before| - 1].Notified? then Some(before[|before| - 1].note)
    else LastNote(before[..|before| - 1])
  }

  predicate Controlled(before: seq<Event>) {
    Notified(CONTRO) in before
  }

  predicate JustTold(before: seq<Event>) {
    before != [] && before[|before| - 1] == Notified(START)
  }

  predicate Follows(before: seq<Event>, e: Event) {
    match e
    case Notified(START) => LastNote(before) == None || LastNote(before) == Some(ENDIN)
    case Stamped => JustTold(before)
    case Notified(CONTRO) =>
      before != [] && before[|before| - 1].Stamped? && LastNote(before) == Some(START) && !Controlled(before)
    case Udp(_) => LastNote(before) == Some(START) && !JustTold(before) && !Controlled(before)
    case Notified(ENDIN) => LastNote(before).Some? && LastNote(before) != Some(ENDIN) && !JustTold(before)
  }

  predicate WellRun(events: seq<Event>) {
    forall i :: 0 <= i < |events| ==> Follows(events[..i], events[i])
  }

  // The notes are cycles of START, CONTRO at most once in all, and ENDIN.
  predicate InCycles(notes: seq<Note>) {
    && (forall i :: 0 <= i < |notes| ==> MayFollow(Latest(notes[..i]), notes[i]))
    && (forall i, j :: 0 <= i < j < |notes| && notes[i].CONTRO? ==> !notes[j].CONTRO?)
  }

  function Latest(notes: seq<Note>): Option<Note> {
    if notes == [] then None else Some(notes[|notes| - 1])
  }

  predicate MayFollow(previous: Option<Note>, n: Note) {
    match n
    case START => previous == None || previous == Some(ENDIN)
    case CONTRO => previous == Some(START)
    case ENDIN => previous == Some(START) || previous == Some(CONTRO)
  }

  function Notes(events: seq<Event>): seq<Note> {
    if events == [] then []
    else
      var e := events[|events| - 1];
      Notes(events[..|events| - 1]) + if e.Notified? then [e.note] else []
  }

  lemma {:induction false} NotesEnd(events: seq<Event>)
    ensures var notes := Notes(events);
      && LastNote(events) == Latest(notes)
      && (CONTRO in notes <==> Controlled(events))
    decreases |events|
  {
    if events != [] {
      var init, e := events[..|events| - 1], events[|events| - 1];
      NotesEnd(init);
      assert events == init + [e];
    }
  }

  lemma MoreInCycles(notes: seq<Note>, n: Note)
    requires InCycles(notes) && (n.CONTRO? ==> CONTRO !in notes)
    requires MayFollow(Latest(notes), n)
    ensures InCycles(notes + [n])
  {
    hide MayFollow, Latest;
    var all := notes + [n];
    forall i | 0 <= i < |all| ensures MayFollow(Latest(all[..i]), all[i]) {
      assert i < |notes| ==> all[..i] == notes[..i] && all[i] == notes[i];
      assert i == |notes| ==> all[..i] == notes;
    }
  }

  // The notifications of every flooder run are such cycles.
  lemma {:induction false} NotesInCycles(events: seq<Event>)
    requires WellRun(events)
    ensures InCycles(Notes(events))
    decreases |events|
  {
    if events != [] {
      var init, e := events[..|events| - 1], events[|events| - 1];
      WellRunInit(events);
      NotesInCycles(init);
      NotesEnd(init);
      if e.Notified? {
        MoreInCycles(Notes(init), e.note);
      } else {
        assert Notes(events) == Notes(init);
      }
    }
  }

  lemma WellRunInit(events: seq<Event>)
    requires events != [] && WellRun(events)
    ensures WellRun(events[..|events| - 1]) && Follows(events[..|events| - 1], events[|events| - 1])
  {
    hide Follows;
    var init := events[..|events| - 1];
    forall i | 0 <= i < |init| ensures Follows(init[..i], init[i]) {
      assert init[..i] == events[..i] && init[i] == events[i];
    }
  }

  lemma WellRunMore(events: seq<Event>, e: Event)
    requires WellRun(events) && Follows(events, e)
    ensures WellRun(events + [e])
  {
    hide Follows;
    var all := events + [e];
    forall i | 0 <= i < |all| ensures Follows(all[..i], all[i]) {
      assert i < |events| ==> all[..i] == events[..i];
      assert i == |events| ==> all[..i] == events;
    }
  }

  // ---- One run ----

  // The outcome of one datagram and the clock reading after it.
  datatype Shot = Shot(ok: bool, now: int)

  // What one cycle reads: the clock after START, and the outcomes of the datagrams.
  datatype Input = Input(now: int, shots: seq<Shot>)

  // The clock reading that decides about datagram k.
  function Reading(input: Input, k: nat): int
    requires k <= |input.shots|
  {
    if k == 0 then input.now else input.shots[k - 1].now
  }

  function Datagrams(shots: seq<Shot>): seq<Event> {
    if shots == [] then [] else Datagrams(shots[..|shots| - 1]) + [Udp(shots[|shots| - 1].ok)]
  }

  function Delivered(shots: seq<Shot>): nat {
    if shots == [] then 0
    else Delivered(shots[..|shots| - 1]) + if shots[|shots| - 1].ok then 1 else 0
  }

  lemma {:induction false} DatagramAt(shots: seq<Shot>, i: nat)
    requires i < |shots|
    ensures |Datagrams(shots)| == |shots| && Datagrams(shots)[i] == Udp(shots[i].ok)
  {
    if i < |shots| - 1 {
      DatagramAt(shots[..|shots| - 1], i);
    } else if i > 0 {
      DatagramAt(shots[..i], i - 1);
    }
  }

  // The datagrams delivered are those whose write did not fail.
  lemma {:induction false} DeliveredAre(shots: seq<Shot>)
    ensures Delivered(shots) == |set i | 0 <= i < |shots| && shots[i].ok|
  {
    var all := set i | 0 <= i < |shots| && shots[i].ok;
    if shots == [] {
      assert all == {};
    } else {
      var n := |shots| - 1;
      var init := shots[..n];
      var before := set i | 0 <= i < |init| && init[i].ok;
      DeliveredAre(init);
      assert all == if shots[n].ok then before + {n} else before;
    }
  }

  function Bytes(n: nat, size: nat): nat {
    n * size
  }

  lemma BytesAre(n: nat, size: nat)
    ensures Bytes(n, size) == n * size
  {
  }

  lemma BytesMore(n: nat, m: nat, size: nat)
    requires n <= m
    ensures Bytes(0, size) == 0 && Bytes(n + 1, size) == Bytes(n, size) + size && Bytes(n, size) <= Bytes(m, size)
  {
  }

  lemma OneMoreShot(shots: seq<Shot>, k: nat)
    requires k < |shots|
    ensures Datagrams(shots[..k + 1]) == Datagrams(shots[..k]) + [Udp(shots[k].ok)]
    ensures Delivered(shots[..k + 1]) == Delivered(shots[..k]) + if shots[k].ok then 1 else 0
  {
    assert shots[..k + 1][..k] == shots[..k];
  }

  lemma {:induction false} DeliveredAtMost(shots: seq<Shot>)
    ensures Delivered(shots) <= |shots|
  {
    if shots != [] {
      DeliveredAtMost(shots[..|shots| - 1]);
    }
  }

  lemma NothingYet(size: nat)
    ensures Datagrams([]) == [] && Delivered([]) == 0 && Bytes(0, size) == 0
  {
  }

  class FlooderRun {
    const dataSize: nat
    const withControl: bool
    const noFlood: bool
    const duration: int
    const startTime: int
    var notified: bool
    ghost var trace: seq<Event>

    // Between two cycles.
    ghost predicate Valid()
      reads this
    {
      && WellRun(trace)
      && (LastNote(trace) == None || LastNote(trace) == Some(ENDIN))
      && (notified <==> Controlled(trace))
      && (notified ==> withControl)
    }

    constructor (dataSize: nat, withControl: bool, noFlood: bool, duration: int, startTime: int)
      ensures Valid() && trace == [] && !notified
      ensures this.dataSize == dataSize && this.withControl == withControl && this.noFlood == noFlood
      ensures this.duration == duration && this.startTime == startTime
    {
      this.dataSize, this.withControl, this.noFlood := dataSize, withControl, noFlood;
      this.duration, this.startTime := duration, startTime;
      notified, trace := false, [];
    }

    predicate ControlDue(now: int)
      reads this
    {
      withControl && now - startTime >= CONTROL_AFTER && !notified
    }

    ghost method Record(e: Event)
      requires WellRun(trace) && Follows(trace, e)
      modifies this`trace
      ensures WellRun(trace) && trace == old(trace) + [e]
      ensures LastNote(trace) == if e.Notified? then Some(e.note) else LastNote(old(trace))
      ensures Controlled(trace) <==> e == Notified(CONTRO) || Controlled(old(trace))
      ensures JustTold(trace) <==> e == Notified(START)
    {
      WellRunMore(trace, e);
      trace := trace + [e];
      assert trace[..|trace| - 1] == old(trace);
    }

    // One turn of the loop. done is false when the datagrams read from the input ran out
    // before the cycle did; count is the number sent.
    method RunCycle(input: Input) returns (sendBytes: nat, sentBytes: nat, done: bool, count: nat)
      requires Valid()
      modifies this
      ensures WellRun(trace) && (done ==> Valid())
      ensures notified == (old(notified) || old(ControlDue(input.now)))
      ensures notified <==> old(notified) || (withControl && input.now >= startTime + 60)
      ensures count <= |input.shots|
      ensures trace == old(trace) + [Notified(START), Stamped]
                       + (if old(ControlDue(input.now)) then [Notified(CONTRO)] else [])
                       + Datagrams(input.shots[..count]) + (if done then [Notified(ENDIN)] else [])
      ensures sendBytes == Bytes(count, dataSize) && sentBytes == Bytes(Delivered(input.shots[..count]), dataSize)
      ensures sendBytes == count * dataSize && sentBytes <= sendBytes
      ensures notified || noFlood ==> count == 0 && done
      ensures !notified && !noFlood ==>
                && (forall k :: 0 <= k < count ==> Reading(input, k) < input.now + duration)
                && (done <==> Reading(input, count) >= input.now + duration)
      ensures !notified && !noFlood ==>
                && (count == 0 ==> (done <==> duration <= 0))
                && (count > 0 ==> duration > 0 && (done <==> input.shots[count - 1].now >= input.now + duration))
                && (forall k :: 0 <= k < count - 1 ==> input.shots[k].now < input.now + duration)
    {
      hide WellRun, Controlled, LastNote, JustTold, Datagrams, Delivered, Bytes;
      NothingYet(dataSize);
      Record(Notified(START));
      Record(Stamped);
      sendBytes, sentBytes, count := 0, 0, 0;
      if withControl && input.now - startTime >= CONTROL_AFTER && !notified {
        Record(Notified(CONTRO));
        notified := true;
      }
      ghost var before := trace;
      assert input.shots[..0] == [] && before + [] == before;
      done := true;
      if withControl && notified {
        // Sleeps or spins.
      } else if !noFlood {
        sendBytes, sentBytes, done, count := Flood(input);
        assert Reading(input, 0) == input.now;
        assert forall k {:trigger input.shots[k]} :: 0 <= k < count - 1 ==> Reading(input, k + 1) == input.shots[k].now;
      }
      if done {
        Record(Notified(ENDIN));
      }
      BytesAre(count, dataSize);
    }

    // The datagrams of a cycle, until its time is up.
    method Flood(input: Input) returns (sendBytes: nat, sentBytes: nat, done: bool, count: nat)
      requires !notified && WellRun(trace)
      requires LastNote(trace) == Some(START) && !JustTold(trace) && !Controlled(trace)
      modifies `trace
      ensures count <= |input.shots| && WellRun(trace) && trace == old(trace) + Datagrams(input.shots[..count])
      ensures LastNote(trace) == Some(START) && !JustTold(trace) && !Controlled(trace)
      ensures sendBytes == Bytes(count, dataSize) && sentBytes == Bytes(Delivered(input.shots[..count]), dataSize)
      ensures sentBytes <= sendBytes
      ensures forall k :: 0 <= k < count ==> Reading(input, k) < input.now + duration
      ensures done <==> Reading(input, count) >= input.now + duration
    {
      hide WellRun, Controlled, LastNote, JustTold, Datagrams, Delivered, Bytes;
      NothingYet(dataSize);
      var clockTime, currentTime := input.now, input.now;
      sendBytes, sentBytes, count, done := 0, 0, 0, true;
      ghost var before := trace;
      assert input.shots[..0] == [] && before + [] == before;
      while currentTime < clockTime + duration
        invariant count <= |input.shots| && currentTime == Reading(input, count)
        invariant forall k :: 0 <= k < count ==> Reading(input, k) < input.now + duration
        invariant sendBytes == Bytes(count, dataSize) && sentBytes == Bytes(Delivered(input.shots[..count]), dataSize)
        invariant !notified && WellRun(trace) && trace == before + Datagrams(input.shots[..count])
        invariant LastNote(trace) == Some(START) && !JustTold(trace) && !Controlled(trace)
        decreases |input.shots| - count
      {
        if count == |input.shots| {
          done := false;
          break;
        }
        var shot := input.shots[count];
        Record(Udp(shot.ok));
        OneMoreShot(input.shots, count);
        BytesMore(count, count, dataSize);
        DeliveredAtMost(input.shots[..count]);
        BytesMore(Delivered(input.shots[..count]), count, dataSize);
        if shot.ok {
          sentBytes := sentBytes + dataSize;
        }
        sendBytes := sendBytes + dataSize;
        currentTime := shot.now;
        count := count + 1;
      }
      DeliveredAtMost(input.shots[..count]);
      BytesMore(Delivered(input.shots[..count]), count, dataSize);
    }

    // Any number of cycles, up to where the input ends.
    method Run(inputs: seq<Input>)
      requires Valid()
      modifies this
      ensures WellRun(trace) && InCycles(Notes(trace)) && old(trace) <= trace
    {
      var i := 0;
      var done := true;
      while i < |inputs| && done
        invariant i <= |inputs| && WellRun(trace) && (done ==> Valid()) && old(trace) <= trace
      {
        var _, _, more, _ := RunCycle(inputs[i]);
        done := more;
        i := i + 1;
      }
      NotesInCycles(trace);
    }
  }

  // Datagrams go out only between START and ENDIN, and never in or after the control cycle.
  lemma DatagramsOnlyWhileFlooding(events: seq<Event>, i: nat, j: nat)
    requires WellRun(events) && i < |events| && j < |events| && events[i].Udp? && events[j] == Notified(CONTRO)
    ensures LastNote(events[..i]) == Some(START)
    ensures i < j && exists k :: i < k < j && events[k] == Notified(ENDIN)
  {
    assert Follows(events[..i], events[i]) && Follows(events[..j], events[j]);
    forall k | 0 <= k < i ensures events[k] != Notified(CONTRO) {
      assert events[..i][k] == events[k];
    }
    assert events[..j][j - 1] == events[j - 1] && i < j - 1;
    assert Follows(events[..j - 1], events[j - 1]);
    assert events[..j - 1][j - 2] == events[j - 2] == Notified(START);
    assert Follows(events[..j - 2], events[j - 2]);
    EndinSince(events, i, j - 2);
  }

  lemma {:induction false} EndinSince(events: seq<Event>, i: nat, j: nat)
    requires i < j <= |events| && LastNote(events[..i]) == Some(START) && events[i].Udp?
    requires LastNote(events[..j]) == None || LastNote(events[..j]) == Some(ENDIN)
    ensures exists k :: i < k < j && events[k] == Notified(ENDIN)
    decreases j
  {
    assert events[..j][..j - 1] == events[..j - 1] && events[..j][j - 1] == events[j - 1];
    if j - 1 == i {
    } else if events[j - 1].Notified? {
    } else {
      EndinSince(events, i, j - 1);
    }
  }
}
