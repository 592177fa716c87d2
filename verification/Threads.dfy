/** The loops of the three threads as they are written, each run by itself on the messages it
    is given: server_func (server/server.c:45-113), client_send_request (client/client.c:58-162)
    and flooder_checks (client/main.c:30-55). Each is a run of the steps of the experiment. */
module Threads {
  import opened Common
  import opened Protocol
  import opened TimingLog
  import opened Flooder
  import opened Experiment

  // ---- The server ----

  // A connection on which the client's messages are all there already.
  function Fed(size: Option<nat>, incoming: seq<MsgType>): Link {
    Opened(size).(c2s := incoming)
  }

  ghost predicate ServerRan(start: Link, moves: seq<Move>, l: Link) {
    Leads(start, moves, l) && forall m <- moves :: m.Server?
  }

  lemma {:induction false} LeadsMore(l: Link, moves: seq<Move>, l1: Link, m: Move)
    requires Leads(l, moves, l1) && Ready(l1, m)
    ensures Leads(l, moves + [m], Moved(l1, m))
    decreases |moves|
  {
    hide Ready, Moved;
    if moves == [] {
      assert [m][1..] == [];
      assert Leads(Moved(l, m), [], Moved(l, m));
    } else {
      assert (moves + [m])[1..] == moves[1..] + [m];
      LeadsMore(Moved(l, moves[0]), moves[1..], l1, m);
    }
  }

  lemma ServerGoesOn(start: Link, moves: seq<Move>, l: Link) returns (moves': seq<Move>, l': Link)
    requires ServerRan(start, moves, l) && ServerReady(l)
    ensures ServerRan(start, moves', l') && l' == ServerStep(l)
  {
    hide Leads, ServerStep, ServerReady;
    LeadsMore(start, moves, l, Server);
    moves', l' := moves + [Server], ServerStep(l);
  }

  function Blocks(n: nat): seq<MsgType> {
    seq(n, _ => FILE_BLOCK)
  }

  lemma MoreBlocks(n: nat)
    ensures Blocks(0) == [] && Blocks(n + 1) == Blocks(n) + [FILE_BLOCK]
  {
  }

  function LeadingAcks(msgs: seq<MsgType>): nat {
    if msgs == [] || msgs[0] != FILE_BLOCK_ACK then 0 else 1 + LeadingAcks(msgs[1..])
  }

  // A file of k blocks: one block more than have been acknowledged, as far as it has them.
  function Served(k: nat, incoming: seq<MsgType>): seq<MsgType> {
    if incoming == [] || incoming[0] != REQ_FILE then []
    else
      var acks := LeadingAcks(incoming[1..]);
      [REQ_ACK] + if acks < k then Blocks(acks + 1) else Blocks(k) + [FILE_COMPLETE]
  }

  lemma BlocksLeft(size: nat, n: nat, left: nat)
    requires n * BLOCK + left == size
    ensures left == 0 ==> Ceil(size) == n
    ensures left > 0 ==> n < Ceil(size)
    ensures 0 < left < BLOCK ==> Ceil(size) == n + 1
  {
  }

  lemma NoAcks()
    ensures LeadingAcks([]) == 0
  {
  }

  lemma AckRead(incoming: seq<MsgType>, next: nat)
    requires next < |incoming|
    ensures LeadingAcks(incoming[next..]) ==
      if incoming[next] != FILE_BLOCK_ACK then 0 else 1 + LeadingAcks(incoming[next + 1..])
  {
    assert incoming[next..][1..] == incoming[next + 1..];
  }

  // The steps of the server, one by one.
  lemma AtReq(l: Link)
    requires l.server.AwaitReq? && l.c2s != []
    ensures ServerReady(l)
    ensures ServerStep(l) == l.(c2s := l.c2s[1..], server := if l.c2s[0] == REQ_FILE then SendAck else ServerFailed)
  {
  }

  lemma AtAck(l: Link)
    requires l.server.SendAck?
    ensures ServerReady(l)
    ensures ServerStep(l) == ServerSends(l, REQ_ACK, if l.size.None? then Completing else Reading)
  {
  }

  lemma AtReading(l: Link, got: nat)
    requires l.server.Reading? && got == if l.left < BLOCK then l.left else BLOCK
    ensures ServerReady(l)
    ensures ServerStep(l) == if l.eof || got == 0 then l.(server := Completing)
                             else l.(left := l.left - got, eof := got < BLOCK, server := Sending)
  {
  }

  lemma AtSending(l: Link)
    requires l.server.Sending?
    ensures ServerReady(l)
    ensures ServerStep(l) == ServerSends(l, FILE_BLOCK, AwaitBlockAck).(blocks := l.blocks + 1)
  {
  }

  lemma AtBlockAck(l: Link)
    requires l.server.AwaitBlockAck? && l.c2s != []
    ensures ServerReady(l)
    ensures ServerStep(l) ==
      l.(c2s := l.c2s[1..], server := if l.c2s[0] == FILE_BLOCK_ACK then Reading else ServerFailed)
  {
  }

  lemma AtCompleting(l: Link)
    requires l.server.Completing?
    ensures ServerReady(l) && ServerStep(l) == ServerSends(l, FILE_COMPLETE, Gone)
  {
  }

  lemma Stopped(l: Link)
    requires l.server.AwaitReq? || l.server.AwaitBlockAck? ==> l.c2s == []
    requires l.server.AwaitReq? || l.server.AwaitBlockAck? || l.server.Gone? || l.server.ServerFailed?
    ensures !ServerReady(l)
  {
  }

  // Ends when the connection is closed, an assertion fails, or a message does not come.
  method ServerFunc(size: Option<nat>, incoming: seq<MsgType>)
    returns (sent: seq<MsgType>, ghost moves: seq<Move>, ghost l: Link)
    ensures ServerRan(Fed(size, incoming), moves, l) && !ServerReady(l)
    ensures sent == l.s2c
    ensures sent == Served(Ceil(if size.None? then 0 else size.value), incoming)
  {
    hide ServerRan, ServerStep, ServerReady, Ceil, Blocks, LeadingAcks;
    ghost var start := Fed(size, incoming);
    moves, l, sent := [], start, [];
    NothingRan(start);
    if incoming == [] {
      Stopped(l);
      return;
    }
    var msg := incoming[0];
    AtReq(l);
    moves, l := ServerGoesOn(start, moves, l);
    if msg != REQ_FILE {
      Stopped(l);
      return;
    }
    sent := [REQ_ACK];
    AtAck(l);
    moves, l := ServerGoesOn(start, moves, l);
    if size.None? {
      BlocksLeft(0, 0, 0);
      MoreBlocks(0);
    } else {
      var done;
      sent, done, moves, l := SendFile(size.value, incoming, start, moves, l);
      if !done {
        return;
      }
    }
    sent := sent + [FILE_COMPLETE];
    AtCompleting(l);
    moves, l := ServerGoesOn(start, moves, l);
    Stopped(l);
  }

  // Where the server is in a file when n blocks are acknowledged.
  predicate At(size: nat, n: nat, left: nat, eof: bool) {
    if eof then n == Ceil(size) else n * BLOCK + left == size
  }

  lemma AtStart(size: nat)
    ensures At(size, 0, size, false)
  {
  }

  lemma AtNext(size: nat, n: nat, left: nat)
    requires At(size, n, left, false)
    ensures left == 0 ==> n == Ceil(size)
    ensures left > 0 ==> n < Ceil(size)
    ensures 0 < left < BLOCK ==> At(size, n + 1, 0, true)
    ensures left >= BLOCK ==> At(size, n + 1, left - BLOCK, false)
  {
    hide Ceil;
    BlocksLeft(size, n, left);
  }

  // The loop over the blocks of the file. done is false when it ends in the middle.
  method SendFile(size: nat, incoming: seq<MsgType>, ghost start: Link, ghost moves0: seq<Move>, ghost l0: Link)
    returns (sent: seq<MsgType>, done: bool, ghost moves: seq<Move>, ghost l: Link)
    requires incoming != [] && ServerRan(start, moves0, l0) && l0.server.Reading?
    requires l0.left == size && !l0.eof && l0.size == Some(size) && l0.s2c == [REQ_ACK] && l0.c2s == incoming[1..]
    ensures ServerRan(start, moves, l) && sent == l.s2c
    ensures var k, acks := Ceil(size), LeadingAcks(incoming[1..]);
      && (done <==> acks >= k)
      && sent == [REQ_ACK] + if acks < k then Blocks(acks + 1) else Blocks(k)
    ensures if done then l.server.Completing? else !ServerReady(l)
  {
    hide ServerRan, ServerStep, ServerReady, Ceil, Blocks, LeadingAcks, At;
    moves, l, sent, done := moves0, l0, [REQ_ACK], false;
    var next: nat, left: nat, eof := 1, size, false;
    ghost var n: nat := 0;
    MoreBlocks(0);
    AtStart(size);
    while !eof
      invariant next == n + 1 && next <= |incoming| && sent == [REQ_ACK] + Blocks(n)
      invariant n + LeadingAcks(incoming[next..]) == LeadingAcks(incoming[1..])
      invariant At(size, n, left, eof)
      invariant ServerRan(start, moves, l) && l.server.Reading?
      invariant l.left == left && l.eof == eof && l.s2c == sent && l.size == Some(size)
      invariant l.c2s == incoming[next..]
      decreases left, !eof
    {
      AtNext(size, n, left);
      var got := if left < BLOCK then left else BLOCK;
      if got <= 0 {
        break;
      }
      AtReading(l, got);
      left, eof := left - got, got < BLOCK;
      moves, l := ServerGoesOn(start, moves, l);
      sent := sent + [FILE_BLOCK];
      MoreBlocks(n);
      n := n + 1;
      AtSending(l);
      moves, l := ServerGoesOn(start, moves, l);
      if next == |incoming| {
        assert incoming[next..] == [];
        NoAcks();
        Stopped(l);
        return;
      }
      AckRead(incoming, next);
      AtBlockAck(l);
      var msg := incoming[next];
      next := next + 1;
      moves, l := ServerGoesOn(start, moves, l);
      if msg != FILE_BLOCK_ACK {
        Stopped(l);
        return;
      }
    }
    AtEnd(size, n, left, eof);
    AtReading(l, if left < BLOCK then left else BLOCK);
    moves, l := ServerGoesOn(start, moves, l);
    done := true;
  }

  lemma AtEnd(size: nat, n: nat, left: nat, eof: bool)
    requires At(size, n, left, eof) && (eof || left == 0)
    ensures n == Ceil(size)
  {
    hide Ceil;
    if !eof {
      AtNext(size, n, left);
    }
  }

  lemma NothingRan(l: Link)
    ensures ServerRan(l, [], l)
  {
  }

  // ---- The two client threads ----

  // The request loop by itself, with the clock.
  predicate Own(a: Action) {
    a.ClientMoves? || a.Tick?
  }

  ghost predicate Ran(start: State, actions: seq<Action>, s: State) {
    Run(start, actions, s) && forall a <- actions :: Own(a)
  }

  lemma GoesOn(start: State, actions: seq<Action>, s: State, a: Action)
    requires Ran(start, actions, s) && Enabled(s, a) && Own(a)
    ensures Ran(start, actions + [a], Step(s, a))
  {
    hide Enabled, Step, Run;
    RunsOn(start, actions, s, a);
  }

  lemma RunsOn(start: State, actions: seq<Action>, s: State, a: Action)
    requires Run(start, actions, s) && Enabled(s, a)
    ensures Run(start, actions + [a], Step(s, a))
  {
    hide Enabled, Step, Run;
    RunsOnce(s, a);
    RunThen(start, actions, s, [a], Step(s, a));
  }

  lemma RanNothing(s: State)
    ensures Ran(s, [], s)
  {
  }

  lemma RunsOnce(s: State, a: Action)
    requires Enabled(s, a)
    ensures Run(s, [a], Step(s, a))
  {
    hide Enabled, Step;
    assert Run(Step(s, a), [], Step(s, a));
    OneStep(s, a, [], Step(s, a));
    assert [a] + [] == [a];
  }

  // An acknowledgement for each block up to the end of the file or the first odd message.
  function Replies(msgs: seq<MsgType>): seq<MsgType> {
    if msgs == [] then []
    else if msgs[0] == FILE_BLOCK then [FILE_BLOCK_ACK] + Replies(msgs[1..])
    else if msgs[0] == FILE_COMPLETE then [FILE_COMPLETE_ACK]
    else []
  }

  function Requested(incoming: seq<MsgType>): seq<MsgType> {
    [REQ_FILE] + if incoming == [] || incoming[0] != REQ_ACK then [] else Replies(incoming[1..])
  }

  lemma NothingReplied(incoming: seq<MsgType>)
    ensures incoming == [] || incoming[0] != REQ_ACK ==> Requested(incoming) == [REQ_FILE]
    ensures incoming != [] && incoming[0] == REQ_ACK ==> Requested(incoming) == [REQ_FILE] + Replies(incoming[1..])
    ensures Replies([]) == []
  {
  }

  lemma ReplyRead(incoming: seq<MsgType>, next: nat)
    requires next < |incoming|
    ensures Replies(incoming[next..]) ==
      if incoming[next] == FILE_BLOCK then [FILE_BLOCK_ACK] + Replies(incoming[next + 1..])
      else if incoming[next] == FILE_COMPLETE then [FILE_COMPLETE_ACK] else []
  {
    assert incoming[next..][1..] == incoming[next + 1..];
  }

  lemma Blocked(s: State)
    requires s.phase.Transferring?
    requires var l := s.phase.link;
      l.client.ClientFailed? || ((l.client.AwaitAck? || l.client.AwaitBlock?) && l.s2c == [])
    ensures !Enabled(s, ClientMoves)
  {
  }

  // The steps of the client that only send or receive.
  lemma AtBlock(l: Link)
    requires l.client.AwaitBlock? && l.s2c != []
    ensures ClientReady(l)
    ensures ClientStep(l) ==
      l.(s2c := l.s2c[1..],
         client := if l.s2c[0] == FILE_BLOCK then Acking(false)
                   else if l.s2c[0] == FILE_COMPLETE then Acking(true) else ClientFailed)
  {
  }

  lemma AtAcking(l: Link)
    requires l.client.Acking?
    ensures ClientReady(l)
    ensures ClientStep(l) ==
      ClientSends(l, if l.client.last then FILE_COMPLETE_ACK else FILE_BLOCK_ACK, Ending(l.client.last))
  {
  }

  lemma Ticks(s: State, d: nat)
    ensures Enabled(s, Tick(d)) && Step(s, Tick(d)) == s.(now := s.now + d)
  {
  }

  lemma AtEnding(s: State)
    requires s.phase.Transferring? && s.phase.link.client.Ending?
    ensures Enabled(s, ClientMoves)
    ensures var l := s.phase.link;
      Step(s, ClientMoves) ==
      s.(phase := Transferring(l.(client := Updating(l.client.last), rounds := l.rounds + 1)),
         log := s.log + [End(s.now)], rounds := s.rounds + [Round(s.begun, s.now)])
  {
  }

  lemma LastStep(s: State)
    requires s.phase.Transferring? && s.phase.link.client.Closing?
    ensures Enabled(s, ClientMoves) && Step(s, ClientMoves) == s.(phase := Between)
  {
  }

  class Client {
    var requestCounter: int
    var flooderState: bool
    var log: seq<Entry>
    var clock: nat
    ghost var start: State
    ghost var actions: seq<Action>
    ghost var state: State

    constructor (state: State)
      ensures Valid() && this.state == start == state && actions == []
    {
      requestCounter, flooderState, log, clock := state.tally.counter, state.flag, state.log, state.now;
      this.state, start, actions := state, state, [];
      new;
      RanNothing(state);
    }

    // The fields are those of a state of the experiment, reached by the client's own steps.
    ghost predicate Valid()
      reads this
    {
      && Ran(start, actions, state)
      && requestCounter == state.tally.counter && flooderState == state.flag
      && log == state.log && clock == state.now
    }

    ghost method Moves(a: Action)
      requires Ran(start, actions, state) && Enabled(state, a) && Own(a)
      modifies `actions, `state
      ensures Ran(start, actions, state) && state == Step(old(state), a)
    {
      GoesOn(start, actions, state, a);
      actions, state := actions + [a], Step(state, a);
    }

    // A step that only sends or receives.
    ghost method Communicates()
      requires Ran(start, actions, state) && state.phase.Transferring? && ClientReady(state.phase.link)
      requires !state.phase.link.client.Starting? && !state.phase.link.client.Ending?
      requires !state.phase.link.client.Updating?
      modifies `actions, `state
      ensures Ran(start, actions, state)
      ensures state == old(state).(phase := Transferring(ClientStep(old(state).phase.link)))
    {
      hide Ran, ClientStep;
      Moves(ClientMoves);
    }

    method LogRequestStart(elapsed: nat)
      requires Valid() && state.phase.Transferring? && state.phase.link.client.Starting?
      modifies this
      ensures Valid() && start == old(start)
      ensures clock == old(clock) + elapsed && log == old(log) + [Start(clock)]
      ensures state == Step(Step(old(state), Tick(elapsed)), ClientMoves)
      ensures state.phase == Transferring(old(state).phase.link.(client := AwaitBlock))
    {
      hide Ran;
      clock := clock + elapsed;
      Moves(Tick(elapsed));
      log := log + [Start(clock)];
      Moves(ClientMoves);
    }

    method UpdateRequestCounter()
      requires Valid() && state.phase.Transferring? && state.phase.link.client.Updating?
      modifies this
      ensures Valid() && start == old(start)
      ensures requestCounter == old(requestCounter) + if flooderState then -1 else 1
      ensures flooderState == old(flooderState) && log == old(log) && clock == old(clock)
      ensures state == Step(old(state), ClientMoves)
      ensures state.phase == Transferring(ClientStep(old(state).phase.link))
    {
      hide Ran;
      if !flooderState {
        requestCounter := requestCounter + 1;
      } else {
        requestCounter := requestCounter - 1;
      }
      Moves(ClientMoves);
    }

    method LogRequestEnd(elapsed: nat)
      requires Valid() && state.phase.Transferring? && state.phase.link.client.Ending?
      modifies this
      ensures Valid() && start == old(start)
      ensures clock == old(clock) + elapsed && log == old(log) + [End(clock)]
      ensures flooderState == old(flooderState)
      ensures requestCounter == old(requestCounter) + if flooderState then -1 else 1
      ensures state == Step(Step(Step(old(state), Tick(elapsed)), ClientMoves), ClientMoves)
      ensures var was := old(state).phase.link;
        state.phase == Transferring(was.(client := if was.client.last then Closing else ClientPc.Starting,
                                         rounds := was.rounds + 1))
    {
      hide Ran, Step, Enabled;
      Ticks(state, elapsed);
      clock := clock + elapsed;
      Moves(Tick(elapsed));
      AtEnding(state);
      log := log + [End(clock)];
      Moves(ClientMoves);
      UpdateRequestCounter();
    }

    // The request and its acknowledgement, where client_send_request begins.
    method RequestFile(incoming: seq<MsgType>) returns (sent: seq<MsgType>, ok: bool, ghost link: Link)
      requires Valid() && state.phase.Transferring? && state.phase.link.client.Requesting?
      requires state.phase.link.c2s == [] && state.phase.link.s2c == incoming
      modifies this
      ensures Valid() && start == old(start) && sent == link.c2s && state.phase == Transferring(link)
      ensures ok ==> link.client == ClientPc.Starting && incoming != [] && link.s2c == incoming[1..]
      ensures !ok ==> !Enabled(state, ClientMoves)
      ensures sent == [REQ_FILE] && (ok <==> incoming != [] && incoming[0] == REQ_ACK)
    {
      hide Ran, Enabled, Step, ClientActs;
      ok := false;
      sent := [REQ_FILE];
      Communicates();
      link := state.phase.link;
      if incoming == [] {
        Blocked(state);
        return;
      }
      var msg := incoming[0];
      Communicates();
      link := state.phase.link;
      if msg != REQ_ACK {
        Blocked(state);
        return;
      }
      ok := true;
    }

    // The messages from the server and the times that pass between clock readings are given;
    // link is the connection as the client leaves it. done is false when an assertion fails or
    // a message does not come.
    method SendRequest(incoming: seq<MsgType>, elapsed: seq<nat>)
      returns (sent: seq<MsgType>, done: bool, ghost link: Link)
      requires Valid() && state.phase.Transferring? && state.phase.link.client.Requesting?
      requires state.phase.link.c2s == [] && state.phase.link.s2c == incoming
      modifies this
      ensures Valid() && start == old(start) && sent == link.c2s && sent == Requested(incoming)
      ensures done ==> link.client.Closing? && state.phase.Between?
      ensures !done ==> state.phase == Transferring(link) && !Enabled(state, ClientMoves)
    {
      hide Ran, Enabled, Step, ClientActs, ClientStep, ClientReady, ElapsedAt, Replies, Requested;
      NothingReplied(incoming);
      sent, done, link := RequestFile(incoming);
      if !done {
        return;
      }
      done := false;
      var next := 1;
      var fileAvailable := true;
      while fileAvailable
        invariant Valid() && start == old(start) && state.phase == Transferring(link)
        invariant link.client == if fileAvailable then ClientPc.Starting else ClientPc.Closing
        invariant 1 <= next <= |incoming| && link.s2c == incoming[next..] && link.c2s == sent
        invariant Requested(incoming) == if fileAvailable then sent + Replies(incoming[next..]) else sent
        decreases |incoming| - next, fileAvailable
      {
        LogRequestStart(ElapsedAt(elapsed, 2 * next));
        link := state.phase.link;
        if next == |incoming| {
          assert sent + [] == sent;
          Blocked(state);
          return;
        }
        var msg := incoming[next];
        ReplyRead(incoming, next);
        ghost var others := Replies(incoming[next + 1..]);
        assert sent + ([FILE_BLOCK_ACK] + others) == sent + [FILE_BLOCK_ACK] + others;
        next := next + 1;
        AtBlock(link);
        Communicates();
        link := state.phase.link;
        if msg == FILE_BLOCK {
          sent := sent + [FILE_BLOCK_ACK];
          AtAcking(link);
          Communicates();
          LogRequestEnd(ElapsedAt(elapsed, 2 * next + 1));
        } else if msg == FILE_COMPLETE {
          sent := sent + [FILE_COMPLETE_ACK];
          AtAcking(link);
          Communicates();
          LogRequestEnd(ElapsedAt(elapsed, 2 * next + 1));
          fileAvailable := false;
        } else {
          assert sent + [] == sent;
          Blocked(state);
          return;
        }
        link := state.phase.link;
      }
      LastStep(state);
      Moves(ClientMoves);
      done := true;
    }
  }

  function ElapsedAt(elapsed: seq<nat>, i: nat): nat {
    if i < |elapsed| then elapsed[i] else 0
  }

  // What the other threads leave alone.
  lemma OthersLeave(s: State, a: Action)
    requires Enabled(s, a) && !a.ListenerMoves?
    ensures var t := Step(s, a); t.listener == s.listener && t.handled == s.handled && s.channel <= t.channel
  {
    hide ClientReady, ServerReady, ClientStep, ServerStep, InCycles;
  }

  // The listening thread among the others. world is the state of the experiment; log, logOpen
  // and flooderState are what the thread shares with them.
  class Listener {
    var flooderState: bool
    var log: seq<Entry>
    var logOpen: bool
    var world: State
    ghost var start: State
    ghost var actions: seq<Action>

    ghost predicate Valid()
      reads this
    {
      && Run(start, actions, world)
      && flooderState == world.flag && log == world.log && logOpen == LogOpen(world)
    }

    constructor (world: State)
      ensures Valid() && this.world == start == world && actions == []
    {
      flooderState, log, logOpen := world.flag, world.log, LogOpen(world);
      this.world, start, actions := world, world, [];
    }

    // The thread's own step, once its writes are done.
    method Moves()
      requires Run(start, actions, world) && Enabled(world, ListenerMoves)
      modifies `actions, `world
      ensures Run(start, actions, world) && world == Step(old(world), ListenerMoves)
    {
      RunsOn(start, actions, world, ListenerMoves);
      actions, world := actions + [ListenerMoves], Step(world, ListenerMoves);
    }

    // Any steps of the other threads, as far as they are enabled.
    method Others(moves: seq<Action>)
      requires Valid()
      modifies this
      ensures Valid() && start == old(start)
      ensures world.listener == old(world.listener) && world.handled == old(world.handled)
      ensures old(world.channel) <= world.channel
    {
      hide Run, Step, Enabled, LogOpen;
      var i := 0;
      while i < |moves|
        invariant i <= |moves| && Run(start, actions, world) && start == old(start)
        invariant world.listener == old(world.listener) && world.handled == old(world.handled)
        invariant old(world.channel) <= world.channel
      {
        if !moves[i].ListenerMoves? && Enabled(world, moves[i]) {
          RunsOn(start, actions, world, moves[i]);
          OthersLeave(world, moves[i]);
          actions, world := actions + [moves[i]], Step(world, moves[i]);
        }
        i := i + 1;
      }
      flooderState, log, logOpen := world.flag, world.log, LogOpen(world);
    }

    // The thread's loop, up to where the notes given to it end. others are the steps of the
    // other threads before each of its own, so that the log may open and close in between.
    method FlooderChecks(incoming: seq<Note>, others: seq<seq<Action>>)
      requires Valid() && world.listener.Listening? && world.channel == incoming
      modifies this
      ensures Valid() && start == old(start) && world.listener.Listening?
      ensures NotesOf(world.handled) == NotesOf(old(world.handled)) + incoming
    {
      hide Run, NotesOf, Kept, Step, Enabled;
      var next := 0;
      assert incoming[..0] == [] && NotesOf(world.handled) + [] == NotesOf(world.handled);
      while next < |incoming|
        invariant Valid() && start == old(start) && next <= |incoming|
        invariant world.listener.Listening? && incoming[next..] <= world.channel
        invariant NotesOf(world.handled) == NotesOf(old(world.handled)) + incoming[..next]
      {
        Others(Before(others, 3 * next));
        Reads(world);
        Moves();
        Others(Before(others, 3 * next + 1));
        var msg := incoming[next];
        HandleNote(msg, Before(others, 3 * next + 2));
        assert incoming[..next + 1] == incoming[..next] + [msg];
        next := next + 1;
      }
      assert incoming[..next] == incoming;
    }

    // What the loop does with a note it has read.
    method HandleNote(msg: Note, others: seq<Action>)
      requires Valid() && world.listener == Holding(msg)
      modifies this
      ensures Valid() && start == old(start) && world.listener.Listening?
      ensures world.handled == old(world.handled) + [Handled(msg, old(logOpen))]
      ensures NotesOf(world.handled) == NotesOf(old(world.handled)) + [msg]
      ensures old(world.channel) <= world.channel
    {
      hide Run, NotesOf, Kept, Step, Enabled;
      MoreNotes(world.handled, Handled(msg, logOpen));
      Writes(world, msg);
      if msg == START {
        Write(FlooderStart);
        Moves();
      } else if msg == ENDIN {
        Write(FlooderEnd);
        Moves();
      } else {
        Write(FlooderControl);
        Moves();
        Others(others);
        Sets(world);
        flooderState := true;
        Moves();
      }
    }

    // A write to a closed file changes nothing.
    method Write(marker: Entry)
      modifies `log
      ensures log == if logOpen then old(log) + [marker] else old(log)
    {
      if logOpen {
        log := log + [marker];
      }
    }
  }

  function Before(others: seq<seq<Action>>, i: nat): seq<Action> {
    if i < |others| then others[i] else []
  }

  // The three steps of the thread.
  lemma Reads(w: State)
    requires w.listener.Listening? && w.channel != []
    ensures Enabled(w, ListenerMoves)
    ensures Step(w, ListenerMoves) == w.(channel := w.channel[1..], listener := Holding(w.channel[0]))
  {
  }

  lemma Writes(w: State, n: Note)
    requires w.listener == Holding(n)
    ensures Enabled(w, ListenerMoves)
    ensures Step(w, ListenerMoves) ==
      w.(log := if LogOpen(w) then w.log + [Marker(n)] else w.log, handled := w.handled + [Handled(n, LogOpen(w))],
         listener := if n.CONTRO? then Flagging else Listening)
  {
  }

  lemma Sets(w: State)
    requires w.listener.Flagging?
    ensures Enabled(w, ListenerMoves) && Step(w, ListenerMoves) == w.(flag := true, listener := Listening)
  {
  }
}
