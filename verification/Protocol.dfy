/** One file transfer (client/client.c, server/server.c): two threads and a FIFO channel
    each way. Messages are their types, since the server blanks the data it sends. */
module Protocol {
  import opened Common
  import Wire

  const BLOCK: nat := Wire.MAX_BLOCK_SIZE

  datatype MsgType = REQ_FILE | REQ_ACK | FILE_BLOCK | FILE_BLOCK_ACK | FILE_COMPLETE | FILE_COMPLETE_ACK

  // Where the client thread is. last tells the final block round from the others.
  datatype ClientPc =
    | Requesting | AwaitAck | Starting | AwaitBlock
    | Acking(last: bool) | Ending(last: bool) | Updating(last: bool)
    | Closing | ClientFailed

  datatype ServerPc =
    | AwaitReq | SendAck | Reading | Sending | AwaitBlockAck | Completing | Gone | ServerFailed

  // size is that of the requested file, None when it cannot be opened; left and eof are the
  // server's position in it; sent counts all messages, blocks the file blocks among them,
  // and rounds the block rounds the client has logged the end of.
  datatype Link = Link(client: ClientPc, server: ServerPc, c2s: seq<MsgType>, s2c: seq<MsgType>,
                       size: Option<nat>, left: nat, eof: bool, blocks: nat, sent: nat, rounds: nat)

  function FileSize(l: Link): nat {
    if l.size.None? then 0 else l.size.value
  }

  function Opened(size: Option<nat>): Link {
    Link(Requesting, AwaitReq, [], [], size, if size.None? then 0 else size.value, false, 0, 0, 0)
  }

  function ClientSends(l: Link, m: MsgType, pc: ClientPc): Link {
    l.(c2s := l.c2s + [m], sent := l.sent + 1, client := pc)
  }

  function ServerSends(l: Link, m: MsgType, pc: ServerPc): Link {
    l.(s2c := l.s2c + [m], sent := l.sent + 1, server := pc)
  }

  // The client thread inside client_send_request; the log and the counter are not here.
  predicate ClientReady(l: Link) {
    match l.client
    case Requesting => true
    case AwaitAck => l.s2c != []
    case Starting => true
    case AwaitBlock => l.s2c != []
    case Acking(_) => true
    case Ending(_) => true
    case Updating(_) => true
    case _ => false
  }

  function ClientStep(l: Link): Link
    requires ClientReady(l)
  {
    match l.client
    case Requesting => ClientSends(l, REQ_FILE, AwaitAck)
    case AwaitAck =>
      l.(s2c := l.s2c[1..], client := if l.s2c[0] == REQ_ACK then Starting else ClientFailed)
    case Starting => l.(client := AwaitBlock)
    case AwaitBlock =>
      l.(s2c := l.s2c[1..],
         client := if l.s2c[0] == FILE_BLOCK then Acking(false)
                   else if l.s2c[0] == FILE_COMPLETE then Acking(true) else ClientFailed)
    case Acking(last) => ClientSends(l, if last then FILE_COMPLETE_ACK else FILE_BLOCK_ACK, Ending(last))
    case Ending(last) => l.(client := Updating(last), rounds := l.rounds + 1)
    case Updating(last) => l.(client := if last then Closing else Starting)
  }

  predicate ServerReady(l: Link) {
    match l.server
    case AwaitReq => l.c2s != []
    case AwaitBlockAck => l.c2s != []
    case Gone => false
    case ServerFailed => false
    case _ => true
  }

  function ServerStep(l: Link): Link
    requires ServerReady(l)
  {
    match l.server
    case AwaitReq =>
      l.(c2s := l.c2s[1..], server := if l.c2s[0] == REQ_FILE then SendAck else ServerFailed)
    case SendAck => ServerSends(l, REQ_ACK, if l.size.None? then Completing else Reading)
    case Reading =>
      // while (!feof) fread; a read of nothing ends the loop, a short one raises feof.
      var got := if l.left < BLOCK then l.left else BLOCK;
      if l.eof || got == 0 then l.(server := Completing)
      else l.(left := l.left - got, eof := got < BLOCK, server := Sending)
    case Sending => ServerSends(l, FILE_BLOCK, AwaitBlockAck).(blocks := l.blocks + 1)
    case AwaitBlockAck =>
      l.(c2s := l.c2s[1..], server := if l.c2s[0] == FILE_BLOCK_ACK then Reading else ServerFailed)
    case Completing => ServerSends(l, FILE_COMPLETE, Gone)
  }

  // ---- What every step keeps ----

  predicate Beyond(s: ServerPc) {
    s.Reading? || s.Sending? || s.AwaitBlockAck? || s.Completing? || s.Gone?
  }

  // What a server at s has sent last and not yet had an answer to.
  function Unread(s: ServerPc): seq<MsgType> {
    if s.AwaitBlockAck? then [FILE_BLOCK] else if s.Gone? then [FILE_COMPLETE] else []
  }

  predicate AckOnItsWay(l: Link) {
    l.server.AwaitBlockAck? && l.c2s == [FILE_BLOCK_ACK] && l.s2c == []
  }

  predicate InStep(l: Link) {
    match l.client
    case Requesting => l.server.AwaitReq? && l.c2s == [] && l.s2c == []
    case AwaitAck =>
      || (l.server.AwaitReq? && l.c2s == [REQ_FILE] && l.s2c == [])
      || (l.server.SendAck? && l.c2s == [] && l.s2c == [])
      || (Beyond(l.server) && l.c2s == [] && l.s2c == [REQ_ACK] + Unread(l.server))
    case Acking(last) => (if last then l.server.Gone? else l.server.AwaitBlockAck?) && l.c2s == [] && l.s2c == []
    case ClientFailed => false
    case _ =>
      if Ended(l.client) then l.server.Gone? && l.c2s == [FILE_COMPLETE_ACK] && l.s2c == []
      else AckOnItsWay(l) || (Beyond(l.server) && l.c2s == [] && l.s2c == Unread(l.server))
  }

  // The client has answered FILE_COMPLETE.
  predicate Ended(c: ClientPc) {
    c == Ending(true) || c == Updating(true) || c == Closing
  }

  function Ceil(n: nat): nat {
    (n + BLOCK - 1) / BLOCK
  }

  // The number of blocks of a file: the least that hold it.
  lemma BlocksHold(n: nat)
    ensures n <= Ceil(n) * 8096 < n + 8096
    ensures Ceil(0) == 0 && Ceil(8096) == 1 && Ceil(8097) == 2
  {
  }

  // Blocks read from the file so far, the one about to be sent included.
  function BlocksRead(l: Link): nat {
    if l.server.Sending? then l.blocks + 1 else l.blocks
  }

  predicate FileOk(l: Link) {
    && l.left <= FileSize(l)
    && (l.server.AwaitReq? || l.server.SendAck? ==> l.blocks == 0 && !l.eof && l.left == FileSize(l))
    && (Beyond(l.server) && !l.eof ==> FileSize(l) - l.left == BlocksRead(l) * BLOCK)
    && (Beyond(l.server) && l.eof ==> l.left == 0 && BlocksRead(l) == Ceil(FileSize(l)))
    && (l.server.Completing? || l.server.Gone? ==> l.left == 0 && l.blocks == Ceil(FileSize(l)))
  }

  function ServerSent(l: Link): nat {
    match l.server
    case AwaitReq => 0
    case SendAck => 0
    case Gone => 2 + l.blocks
    case _ => 1 + l.blocks
  }

  // The last block has not been acknowledged yet.
  predicate Unanswered(l: Link) {
    l.server.AwaitBlockAck? && l.c2s == []
  }

  function Acks(l: Link): int {
    if Unanswered(l) then l.blocks - 1 else l.blocks
  }

  function ClientSent(l: Link): int {
    if l.client.Requesting? then 0
    else if l.client.AwaitAck? then 1
    else if Ended(l.client) then 2 + l.blocks
    else 1 + Acks(l)
  }

  predicate CountsOk(l: Link) {
    && l.sent == ServerSent(l) + ClientSent(l)
    && (l.client.AwaitAck? ==> Acks(l) == 0)
    && l.rounds == Rounds(l)
  }

  function Rounds(l: Link): int {
    match l.client
    case Requesting => 0
    case AwaitAck => 0
    case Ending(last) => if last then l.blocks else Acks(l) - 1
    case _ => if Ended(l.client) then l.blocks + 1 else Acks(l)
  }

  ghost predicate LinkOk(l: Link) {
    InStep(l) && FileOk(l) && CountsOk(l)
  }

  lemma OpenedOk(size: Option<nat>)
    ensures LinkOk(Opened(size))
  {
  }

  lemma ClientKeeps(l: Link)
    requires LinkOk(l) && ClientReady(l)
    ensures LinkOk(ClientStep(l))
  {
    hide InStep, FileOk, CountsOk, ClientStep, ClientReady;
    ClientKeepsStep(l);
    ClientKeepsFile(l);
    ClientKeepsCounts(l);
  }

  lemma ClientKeepsFile(l: Link)
    requires FileOk(l) && ClientReady(l)
    ensures FileOk(ClientStep(l))
  {
    hide Ceil;
  }

  lemma ClientKeepsStep(l: Link)
    requires InStep(l) && ClientReady(l)
    ensures InStep(ClientStep(l))
  {
  }

  lemma ClientKeepsCounts(l: Link)
    requires LinkOk(l) && ClientReady(l)
    ensures CountsOk(ClientStep(l))
  {
    hide FileOk, InStep, ClientStep;
    if l.client.Requesting? || l.client.Acking? {
      SendCounts(l);
    } else if l.client.AwaitAck? || l.client.AwaitBlock? {
      ReadCounts(l);
    } else {
      LogCounts(l);
    }
  }

  lemma SendCounts(l: Link)
    requires LinkOk(l) && (l.client.Requesting? || l.client.Acking?)
    ensures CountsOk(ClientStep(l))
  {
  }

  lemma ReadCounts(l: Link)
    requires LinkOk(l) && ClientReady(l) && (l.client.AwaitAck? || l.client.AwaitBlock?)
    ensures CountsOk(ClientStep(l))
  {
    hide Ceil;
  }

  lemma LogCounts(l: Link)
    requires InStep(l) && CountsOk(l) && (l.client.Starting? || l.client.Ending? || l.client.Updating?)
    ensures CountsOk(ClientStep(l))
  {
  }

  lemma ServerKeeps(l: Link)
    requires LinkOk(l) && ServerReady(l)
    ensures LinkOk(ServerStep(l))
  {
    hide InStep, FileOk, CountsOk, ServerStep, ServerReady;
    ServerKeepsStep(l);
    ServerKeepsFile(l);
    ServerKeepsCounts(l);
  }

  lemma ServerKeepsStep(l: Link)
    requires InStep(l) && ServerReady(l)
    ensures InStep(ServerStep(l))
  {
  }

  lemma ServerKeepsFile(l: Link)
    requires InStep(l) && FileOk(l) && ServerReady(l)
    ensures FileOk(ServerStep(l))
  {
  }

  lemma ServerKeepsCounts(l: Link)
    requires LinkOk(l) && ServerReady(l)
    ensures CountsOk(ServerStep(l))
  {
  }

  // ---- Runs of one transfer ----

  datatype Move = Client | Server

  predicate Ready(l: Link, m: Move) {
    if m.Client? then ClientReady(l) else ServerReady(l)
  }

  function Moved(l: Link, m: Move): Link
    requires Ready(l, m)
  {
    if m.Client? then ClientStep(l) else ServerStep(l)
  }

  ghost predicate Leads(l: Link, moves: seq<Move>, l': Link)
    decreases |moves|
  {
    if moves == [] then l == l' else Ready(l, moves[0]) && Leads(Moved(l, moves[0]), moves[1..], l')
  }

  lemma {:induction false} LeadsOk(l: Link, moves: seq<Move>, l': Link)
    requires LinkOk(l) && Leads(l, moves, l')
    ensures LinkOk(l') && l'.size == l.size && StepsLeft(l) == StepsLeft(l') + |moves|
    decreases |moves|
  {
    if moves != [] {
      hide LinkOk, ClientStep, ServerStep, StepsLeft;
      MoveOk(l, moves[0]);
      LeadsOk(Moved(l, moves[0]), moves[1..], l');
    }
  }

  lemma MoveOk(l: Link, m: Move)
    requires LinkOk(l) && Ready(l, m)
    ensures LinkOk(Moved(l, m)) && Moved(l, m).size == l.size && StepsLeft(Moved(l, m)) == StepsLeft(l) - 1
  {
    hide LinkOk, StepsLeft, ClientStep, ServerStep, ClientReady, ServerReady;
    if m.Client? {
      ClientKeeps(l);
      ClientCounts(l);
      ClientLeaves(l);
    } else {
      ServerKeeps(l);
      ServerCounts(l);
      ServerLeaves(l);
    }
  }

  // What the steps do to the parts of a link that the log and the counter depend on.
  lemma ServerLeaves(l: Link)
    requires ServerReady(l)
    ensures ServerStep(l).client == l.client && ServerStep(l).rounds == l.rounds && ServerStep(l).size == l.size
  {
  }

  lemma ClientLeaves(l: Link)
    requires ClientReady(l)
    ensures ClientStep(l).rounds == l.rounds + if l.client.Ending? then 1 else 0
    ensures ClientStep(l).client.Updating? <==> l.client.Ending?
    ensures ClientStep(l).size == l.size
    ensures ClientStep(l).server == l.server && ClientStep(l).blocks == l.blocks
  {
  }

  // The steps the two threads have still to take.
  function StepsLeft(l: Link): int {
    ClientLeft(l) + ServerLeft(l)
  }

  function ClientLeft(l: Link): int {
    var turns := 5 * (Ceil(FileSize(l)) + 1 - l.rounds);
    match l.client
    case Requesting => turns + 2
    case AwaitAck => turns + 1
    case Starting => turns
    case AwaitBlock => turns - 1
    case Acking(_) => turns - 2
    case Ending(_) => turns - 3
    case Updating(_) => turns + 1
    case _ => 0
  }

  function ServerLeft(l: Link): int {
    var turns := 3 * (Ceil(FileSize(l)) - l.blocks);
    match l.server
    case AwaitReq => turns + (if l.size.None? then 3 else 4)
    case SendAck => turns + (if l.size.None? then 2 else 3)
    case Reading => turns + 2
    case Sending => turns + 1
    case AwaitBlockAck => turns + 3
    case Completing => 1
    case _ => 0
  }

  lemma ClientCounts(l: Link)
    requires LinkOk(l) && ClientReady(l)
    ensures StepsLeft(ClientStep(l)) == StepsLeft(l) - 1
  {
    hide LinkOk, ClientLeft, ClientStep, ClientReady, Ceil;
    ClientLeaves(l);
    OwnCount(l);
  }

  lemma OwnCount(l: Link)
    requires LinkOk(l) && ClientReady(l)
    ensures ClientLeft(ClientStep(l)) == ClientLeft(l) - 1
  {
    hide Ceil, FileOk, CountsOk;
    if l.client == Updating(true) {
      RoundsDone(l);
    }
  }

  lemma RoundsDone(l: Link)
    requires LinkOk(l) && l.client == Updating(true)
    ensures l.rounds == Ceil(FileSize(l)) + 1
  {
    hide Ceil;
  }

  lemma ServerCounts(l: Link)
    requires LinkOk(l) && ServerReady(l)
    ensures StepsLeft(ServerStep(l)) == StepsLeft(l) - 1
  {
    hide LinkOk, ServerLeft, ServerStep, ServerReady, Ceil;
    ServerLeaves(l);
    OwnServerCount(l);
  }

  lemma OwnServerCount(l: Link)
    requires LinkOk(l) && ServerReady(l)
    ensures ServerLeft(ServerStep(l)) == ServerLeft(l) - 1
  {
    hide CountsOk;
  }

  lemma RoundsAtMost(l: Link)
    requires LinkOk(l)
    ensures l.rounds <= Ceil(FileSize(l)) + 1 && StepsLeft(l) >= 0
  {
  }

  // No type assertion fails on either side, and as long as the transfer is not over one of
  // the threads can move.
  lemma NoFailureNoDeadlock(l: Link)
    requires LinkOk(l)
    ensures !l.client.ClientFailed? && !l.server.ServerFailed?
    ensures !Ready(l, Client) && !Ready(l, Server) ==> StepsLeft(l) == 0 && Ended(l.client) && l.server.Gone?
  {
  }

  // At most two messages are in flight. There are two exactly while the client has not yet
  // read the REQ_ACK that the server sent its first block or its completion right behind.
  lemma InFlight(l: Link)
    requires LinkOk(l)
    ensures |l.c2s| + |l.s2c| <= 2
    ensures |l.c2s| + |l.s2c| == 2 <==> l.client.AwaitAck? && (l.server.AwaitBlockAck? || l.server.Gone?)
  {
  }

  // Two messages are in flight in a run on any file: request, acknowledgement, end of file.
  lemma TwoInFlight(size: Option<nat>)
    ensures exists moves, l :: Leads(Opened(size), moves, l) && |l.s2c| == 2
  {
    var l := Opened(size);
    var l1 := ClientStep(l);
    var l2 := ServerStep(l1);
    var l3 := ServerStep(l2);
    if size.None? {
      var l4 := ServerStep(l3);
      Four(l, Client, Server, Server, Server, l4);
    } else {
      var l4 := ServerStep(l3);
      var l5 := ServerStep(l4);
      Four(l1, Server, Server, Server, Server, l5);
      assert Leads(l, [Client] + [Server, Server, Server, Server], l5) by {
        assert ([Client] + [Server, Server, Server, Server])[1..] == [Server, Server, Server, Server];
      }
    }
  }

  lemma Four(l: Link, a: Move, b: Move, c: Move, d: Move, l': Link)
    requires Ready(l, a) && Ready(Moved(l, a), b) && Ready(Moved(Moved(l, a), b), c)
    requires Ready(Moved(Moved(Moved(l, a), b), c), d) && l' == Moved(Moved(Moved(Moved(l, a), b), c), d)
    ensures Leads(l, [a, b, c, d], l')
  {
    hide ClientStep, ServerStep, ClientReady, ServerReady;
    var l1, l2 := Moved(l, a), Moved(Moved(l, a), b);
    var l3 := Moved(l2, c);
    assert [d][1..] == [] && [c, d][1..] == [d] && [b, c, d][1..] == [c, d] && [a, b, c, d][1..] == [b, c, d];
    assert Leads(Moved(l3, d), [], l');
    assert Leads(l3, [d], l');
    assert Leads(l2, [c, d], l');
    assert Leads(l1, [b, c, d], l');
  }

  // Whatever the interleaving, a transfer takes the same number of steps, ends with both
  // sides done, and moves ceil(n / 8096) blocks in 2 * ceil(n / 8096) + 4 messages.
  lemma TransferComplete(size: Option<nat>, moves: seq<Move>, l: Link)
    requires Leads(Opened(size), moves, l) && !Ready(l, Client) && !Ready(l, Server)
    ensures var k := Ceil(if size.None? then 0 else size.value);
      && l.client == Closing && l.server == Gone && l.s2c == []
      && l.blocks == k && l.sent == 2 * k + 4 && l.rounds == k + 1
      && |moves| == 8 * k + (if size.None? then 10 else 11)
  {
    hide LinkOk, Leads, StepsLeft, Ceil;
    OpenedOk(size);
    LeadsOk(Opened(size), moves, l);
    NoFailureNoDeadlock(l);
    AtTheEnd(l);
    assert StepsLeft(Opened(size)) == 8 * Ceil(FileSize(l)) + (if size.None? then 10 else 11) by {
      AtTheStart(size);
    }
  }

  lemma AtTheStart(size: Option<nat>)
    ensures StepsLeft(Opened(size)) == 8 * Ceil(FileSize(Opened(size))) + (if size.None? then 10 else 11)
  {
    hide Ceil;
  }

  lemma AtTheEnd(l: Link)
    requires LinkOk(l) && l.server.Gone? && l.client.Closing?
    ensures var k := Ceil(FileSize(l));
      l.s2c == [] && l.blocks == k && l.sent == 2 * k + 4 && l.rounds == k + 1
  {
  }
}
