/** Client and server stay in lockstep within one session: the relation, and that every step keeps it. */
module ProtocolLockstep {
  import opened Common
  import opened Bytes
  import opened Protocol

  // ---- Lockstep ----------------------------------------------------------------------

  function OpToks(op: Op): seq<Tok> {
    match op
    case PutHdr(id, sz) => [Hdr(id, sz)]
    case Write(bs) => Raw(bs)
    case Sendfile(bs) => Raw(bs)
    case SendFd(bs, _) => Raw(bs)
  }

  function OpsToks(ops: seq<Op>): seq<Tok> {
    if ops == [] then [] else OpToks(ops[0]) + OpsToks(ops[1..])
  }

  /** All that the client has not consumed yet, wherever it is: pushed back, in the socket, buffered, or still to be output. */
  function ToClient(s: Session): seq<Tok> {
    (if s.client.pushed.Some? then [s.client.pushed.value] else []) + s.s2c + s.server.out + OpsToks(s.server.ops)
  }

  /** All that the server has not consumed yet. */
  function ToServer(s: Session): seq<Tok> {
    s.server.inbuf + s.c2s + s.client.todo
  }

  /** Output operations come as complete messages, and nothing stays in the buffer after the last one. */
  predicate WellFormed(ops: seq<Op>, out: seq<Tok>, wrSz: int) {
    if ops == [] then out == []
    else
      match ops[0]
      case PutHdr(_, _) => Messages(ops)
      case Write(bs) => wrSz == |bs| && Messages(ops[1..])
      case Sendfile(_) => Messages(ops[1..])
      case SendFd(bs, _) => |ops| == 1 && |bs| == 4
  }

  predicate Messages(ops: seq<Op>) {
    || ops == []
    || (ops[0].PutHdr? && |ops| >= 2 && !ops[1].PutHdr? && |ops[1].bs| == ops[0].sz
        && (ops[1].SendFd? ==> |ops| == 2 && |ops[1].bs| == 4) && Messages(ops[2..]))
  }

  /** Quiet: nothing under way in either direction. */
  predicate Quiet(s: Session) {
    ToServer(s) == [] && ToClient(s) == [] && s.server.pc.Recv? && s.server.recvSz == 0
  }

  predicate Asked(s: Session, request: seq<Tok>, waiting: ServerPc) {
    ToServer(s) == request && ToClient(s) == [] && s.server.pc == waiting && s.server.recvSz == 0
  }

  predicate Reading(s: Session, pc: ServerPc, bs: seq<byte>) {
    && ToServer(s) == Raw(bs) && ToClient(s) == [] && s.server.pc == pc
    && s.server.recvSz == |bs|
  }

  predicate Answered(s: Session, reply: seq<Tok>, pc: ServerPc) {
    ToServer(s) == [] && ToClient(s) == reply && s.server.pc == pc && s.server.recvSz == 0
  }

  /** The memory reply of which the server has read the first k bytes. */
  ghost predicate ReadingPage(w: World, s: Session)
    requires ValidWorld(w)
  {
    var reply := MemoryReply(w, s.server.want, PAGE_SIZE);
    || Reading(s, ReadPage, reply)
    || (s.server.pc.ReadFlag? && s.server.pc.got == reply[..PAGE_SIZE] && Reading(s, s.server.pc, reply[PAGE_SIZE..]))
  }

  function FirstFd(ops: seq<Op>): Option<nat> {
    if ops == [] then None
    else if ops[0].SendFd? then Some(ops[0].child)
    else FirstFd(ops[1..])
  }

  /** The descriptor that is under way to the client. */
  function PendingFd(s: Session): Option<nat> {
    if s.fd.Some? then s.fd else FirstFd(s.server.ops)
  }

  /** The descriptor reply: an error, or zero together with a descriptor. */
  predicate FdReply(s: Session) {
    |s.server.reply| == 4 && (s.server.reply == Zeros(4) <==> PendingFd(s).Some?)
  }

  /** Where the two processes can stand relative to each other. */
  ghost predicate Lockstep(w: World, s: Session)
    requires ValidWorld(w)
  {
    match s.client.pc
    case Unattached => Quiet(s)
    case Fresh => Quiet(s)
    case Idle => Quiet(s)
    case Closed => Quiet(s) || (s.server.pc.Exited? && ToServer(s) == [] && ToClient(s) == [] && s.server.recvSz == 0)
    case WInit =>
      || Asked(s, InitRequest(w), Recv0) || Asked(s, InitRequest(w), Recv)
      || Reading(s, ReadCfg0, w.serverConfig) || Reading(s, ReadCfg, w.serverConfig)
      || Answered(s, InitReply(w, s.server.sent), Recv)
    case RInit => Answered(s, Raw(w.clientConfig) + ObjectMsg(s.server.sent), Recv)
    case WObj => Answered(s, ObjectMsg(s.server.sent), Recv)
    case RObj(n) => n == |s.server.sent| && Answered(s, Raw(s.server.sent), Recv)
    case WReq => s.client.asked.Some? &&
     (|| Asked(s, TranslateRequest(s.client.asked.value), Recv)
      || Reading(s, ReadAddr, LittleEndian(s.client.asked.value, 8))
      || Answered(s, [], Work)
      || (Answered(s, [Hdr(S_MEMREQ, 16)] + Raw(PageRequest(s.server.want)), RecvBuf) && s.server.want < Pow256(8))
      || Asked(s, [Hdr(C_MEMBUF, PAGE_SIZE + 1)] + Raw(MemoryReply(w, s.server.want, PAGE_SIZE)), RecvBuf)
      || ReadingPage(w, s)
      || Answered(s, ObjectMsg(s.server.sent), Recv))
    case RReq => s.client.asked.Some? && Answered(s, Raw(PageRequest(s.server.want)), RecvBuf) && s.server.want < Pow256(8)
    case WFd =>
      || (Asked(s, ForkRequest(), Recv) && PendingFd(s).None?)
      || (FdReply(s) && Answered(s, [Hdr(S_FD, 4)] + Raw(s.server.reply), Recv))
    case RFd => FdReply(s) && Answered(s, Raw(s.server.reply), Recv)
    case Error => false
  }

  ghost predicate Inv(w: World, s: Session)
    requires ValidWorld(w)
  {
    && Lockstep(w, s)
    && WellFormed(s.server.ops, s.server.out, s.server.wrSz)
    && (s.server.ops != [] ==> s.server.pc.Recv? || s.server.pc.RecvBuf?)
    && (s.client.pushed.Some? ==> s.client.pc.WObj?)
    && !s.server.need
    && (s.fd.Some? ==> s.server.ops == [])
    && (PendingFd(s).Some? ==> s.client.pc.WFd? || s.client.pc.RFd?)
  }

  // ---- Steps that only move elements along -------------------------------------------

  ghost predicate SameStand(s: Session, s': Session) {
    && s'.client.pc == s.client.pc && s'.client.pushed == s.client.pushed && s'.client.asked == s.client.asked
    && s'.server.pc == s.server.pc && s'.server.recvSz == s.server.recvSz
    && s'.server.reply == s.server.reply && s'.server.want == s.server.want && s'.server.sent == s.server.sent && s'.server.need == s.server.need
    && ToServer(s') == ToServer(s) && ToClient(s') == ToClient(s)
    && PendingFd(s') == PendingFd(s)
  }

  lemma LockstepKept(w: World, s: Session, s': Session)
    requires ValidWorld(w) && Lockstep(w, s) && SameStand(s, s')
    ensures Lockstep(w, s')
  {
    hide OpsToks, FirstFd, LittleEndian, MemoryReply, Raw;
  }

  lemma MoveKept(w: World, s: Session, s': Session)
    requires ValidWorld(w) && Inv(w, s) && SameStand(s, s')
    requires WellFormed(s'.server.ops, s'.server.out, s'.server.wrSz)
    requires s'.server.ops != [] ==> s.server.ops != [] && s'.fd == s.fd
    requires s'.fd.Some? ==> s'.server.ops == []
    ensures Inv(w, s')
  {
    LockstepKept(w, s, s');
  }

  lemma SendStand(s: Session)
    requires s.client.todo != []
    ensures SameStand(s, SendOne(s))
  {
    assert s.client.todo == [s.client.todo[0]] + s.client.todo[1..];
    assert ToServer(SendOne(s)) == ToServer(s);
  }

  lemma SendKeeps(w: World, s: Session)
    requires ValidWorld(w) && Inv(w, s)
    ensures Inv(w, SendOne(s))
  {
    if s.client.todo != [] {
      SendStand(s);
      MoveKept(w, s, SendOne(s));
    }
  }

  lemma ReadAheadStand(s: Session)
    requires s.c2s != []
    ensures SameStand(s, ReadOne(s))
  {
    assert s.c2s == [s.c2s[0]] + s.c2s[1..];
    assert ToServer(ReadOne(s)) == ToServer(s);
  }

  lemma ReadAheadKeeps(w: World, s: Session)
    requires ValidWorld(w) && Inv(w, s)
    ensures Inv(w, ReadOne(s))
  {
    if s.c2s != [] {
      ReadAheadStand(s);
      MoveKept(w, s, ReadOne(s));
    }
  }

  lemma FlushStand(s: Session)
    ensures SameStand(s, Flushed(s))
  {
    hide OpsToks, FirstFd;
  }

  lemma FlushKeeps(w: World, s: Session)
    requires ValidWorld(w) && Inv(w, s)
    ensures Inv(w, Flushed(s))
  {
    hide Lockstep, SameStand;
    FlushStand(s);
    MoveKept(w, s, Flushed(s));
  }

  lemma Regroup(a: seq<Tok>, b: seq<Tok>, c: seq<Tok>, d: seq<Tok>)
    ensures a + b + (c + d) == a + (b + c) + d
  {
  }

  /** One output operation moves its elements to the end of what is buffered or sent. */
  lemma OutputMoves(s: Session)
    requires s.server.ops != []
    ensures var s' := RunOp(s);
      && s'.client == s.client && s'.server.ops == s.server.ops[1..]
      && s'.s2c + s'.server.out == s.s2c + (s.server.out + OpToks(s.server.ops[0]))
  {
    match s.server.ops[0]
    case PutHdr(id, sz) =>
    case Write(bs) =>
    case Sendfile(bs) =>
    case SendFd(bs, _) =>
  }

  lemma OutputToks(s: Session)
    requires s.server.ops != []
    ensures ToClient(RunOp(s)) == ToClient(s)
  {
    OutputMoves(s);
    hide RunOp, OpToks;
    var op, rest, s' := OpToks(s.server.ops[0]), OpsToks(s.server.ops[1..]), RunOp(s);
    var before := if s.client.pushed.Some? then [s.client.pushed.value] else [];
    assert OpsToks(s.server.ops) == op + rest;
    hide OpsToks;
    calc {
      ToClient(s);
      before + s.s2c + s.server.out + (op + rest);
      { Regroup(before + s.s2c, s.server.out, op, rest); }
      before + s.s2c + (s.server.out + op) + rest;
      { assert before + s.s2c + (s.server.out + op) == before + (s.s2c + (s.server.out + op)); }
      before + (s'.s2c + s'.server.out) + rest;
      { assert before + (s'.s2c + s'.server.out) == before + s'.s2c + s'.server.out; }
      ToClient(s');
    }
  }

  lemma OutputForm(s: Session)
    requires s.server.ops != [] && s.fd.None?
    requires WellFormed(s.server.ops, s.server.out, s.server.wrSz)
    ensures WellFormed(RunOp(s).server.ops, RunOp(s).server.out, RunOp(s).server.wrSz)
    ensures PendingFd(RunOp(s)) == PendingFd(s)
    ensures RunOp(s).fd.Some? ==> s.server.ops[0].SendFd?
  {
    if s.server.ops[0].PutHdr? {
      assert s.server.ops[1..][1..] == s.server.ops[2..];
    }
  }

  lemma OutputKeeps(w: World, s: Session)
    requires ValidWorld(w) && Inv(w, s)
    ensures Inv(w, RunOp(s))
  {
    hide Lockstep;
    if s.server.ops != [] {
      OutputToks(s);
      OutputForm(s);
      MoveKept(w, s, RunOp(s));
    }
  }

  // ---- What the client consumes ------------------------------------------------------

  lemma Cons(h: Tok, x: seq<Tok>, h': Tok, y: seq<Tok>)
    requires [h] + x == [h'] + y
    ensures h == h' && x == y
  {
    assert x == ([h] + x)[1..];
    assert y == ([h'] + y)[1..];
    assert h == ([h] + x)[0] && h' == ([h'] + y)[0];
  }

  lemma Prefix(bs: seq<byte>, rest: seq<Tok>, x: seq<Tok>, y: seq<Tok>)
    requires Raw(bs) + rest == x + y && |x| == |bs|
    ensures AllBytes(x) && Payload(x) == bs && y == rest
  {
    assert x == (x + y)[..|bs|];
    assert y == (x + y)[|bs|..];
    PayloadOfRaw(bs, rest);
  }

  function Taken(s: Session): Session {
    var t := Fetch(s);
    t.(client := t.client.(pushed := None))
  }

  lemma FetchHead(s: Session)
    requires Fetch(s).client.pushed.Some?
    ensures ToClient(s) == [Fetch(s).client.pushed.value] + ToClient(Taken(s))
    ensures ToClient(Fetch(s)) == ToClient(s)
  {
    hide OpsToks;
    var t := Fetch(s);
    if s.client.pushed.None? {
      assert s.s2c == [s.s2c[0]] + t.s2c;
    }
  }

  lemma HeaderKeeps(w: World, s: Session)
    requires ValidWorld(w) && Inv(w, s) && s.client.todo == [] && WaitsForHeader(s.client.pc)
    ensures Inv(w, ClientHeader(s))
  {
    hide OpsToks, FirstFd, WellFormed, Messages, LittleEndian, Value;
    var t := Fetch(s);
    if t.client.pushed.Some? {
      var h, rest := t.client.pushed.value, ToClient(Taken(s));
      FetchHead(s);
      match s.client.pc
      case WInit =>
        assert InitReply(w, s.server.sent) == [Hdr(S_INIT, CONFIG_SIZE)] + (Raw(w.clientConfig) + ObjectMsg(s.server.sent));
        Cons(h, rest, Hdr(S_INIT, CONFIG_SIZE), Raw(w.clientConfig) + ObjectMsg(s.server.sent));
      case WObj => Cons(h, rest, Hdr(S_OBJECT, |s.server.sent|), Raw(s.server.sent));
      case WReq => RequestHeaderKeeps(w, s);
      case WFd => Cons(h, rest, Hdr(S_FD, 4), Raw(s.server.reply));
    }
  }

  lemma RequestHeaderKeeps(w: World, s: Session)
    requires ValidWorld(w) && Inv(w, s) && s.client.pc.WReq? && Fetch(s).client.pushed.Some?
    ensures Inv(w, ClientHeader(s))
  {
    hide OpsToks, FirstFd, WellFormed, Messages, LittleEndian, Value;
    var h, rest := Fetch(s).client.pushed.value, ToClient(Taken(s));
    FetchHead(s);
    if s.server.pc.RecvBuf? {
      Cons(h, rest, Hdr(S_MEMREQ, 16), Raw(PageRequest(s.server.want)));
    } else {
      assert ToClient(s) != [];
      Cons(h, rest, Hdr(S_OBJECT, |s.server.sent|), Raw(s.server.sent));
    }
  }

  /** What reading n payload bytes takes off the stream. */
  lemma PayloadHead(s: Session, n: nat, bs: seq<byte>, rest: seq<Tok>)
    requires s.client.pushed.None? && n <= |s.s2c| && |bs| == n && ToClient(s) == Raw(bs) + rest
    ensures AllBytes(s.s2c[..n]) && Payload(s.s2c[..n]) == bs
    ensures ToClient(s.(s2c := s.s2c[n..])) == rest
  {
    var after := ToClient(s.(s2c := s.s2c[n..]));
    assert s.s2c == s.s2c[..n] + s.s2c[n..];
    assert ToClient(s) == s.s2c[..n] + after;
    Prefix(bs, rest, s.s2c[..n], after);
  }

  lemma {:induction false} FdOutput(ops: seq<Op>)
    requires Messages(ops) && FirstFd(ops).Some?
    ensures |OpsToks(ops)| >= 4
    decreases |ops|
  {
    assert ops[1..][1..] == ops[2..];
    assert OpsToks(ops) == OpToks(ops[0]) + (OpToks(ops[1]) + OpsToks(ops[2..]));
    if !ops[1].SendFd? {
      FdOutput(ops[2..]);
    }
  }

  lemma FdBehindReply(s: Session)
    requires WellFormed(s.server.ops, s.server.out, s.server.wrSz) && FirstFd(s.server.ops).Some?
    ensures |OpsToks(s.server.ops)| >= 4
  {
    var ops := s.server.ops;
    if ops[0].PutHdr? {
      FdOutput(ops);
    } else if !ops[0].SendFd? {
      FdOutput(ops[1..]);
    }
  }

  lemma MemoryRequestParsed(want: nat)
    requires want < Pow256(8)
    ensures Value(PageRequest(want)[..8]) == want && Value(PageRequest(want)[8..]) == PAGE_SIZE
  {
    assert PageRequest(want)[..8] == LittleEndian(want, 8);
    assert PageRequest(want)[8..] == LittleEndian(PAGE_SIZE, 8);
    ValueOfWord(want, 8);
    assert Pow256(2) == 0x10000 && Pow256(8) >= Pow256(2) by { Pow256At(); }
    ValueOfWord(PAGE_SIZE, 8);
  }

  lemma Pow256At()
    ensures Pow256(2) == 0x10000 && Pow256(8) >= Pow256(2)
  {
    assert Pow256(4) == 256 * 256 * Pow256(2);
    assert Pow256(6) == 256 * 256 * Pow256(4);
    assert Pow256(8) == 256 * 256 * Pow256(6);
  }

  lemma MemoryAnswered(w: World, s: Session)
    requires ValidWorld(w) && s.client.pc.WReq? && s.client.asked.Some?
    requires Asked(s, [Hdr(C_MEMBUF, PAGE_SIZE + 1)] + Raw(MemoryReply(w, s.server.want, PAGE_SIZE)), RecvBuf)
    ensures Lockstep(w, s)
  {
  }

  /** The client parses the request for a page and queues the whole reply. */
  lemma RequestTaken(w: World, s: Session)
    requires ValidWorld(w) && s.client.pc.RReq? && s.client.pushed.None? && 16 <= |s.s2c|
    requires s.server.want < Pow256(8) && Answered(s, Raw(PageRequest(s.server.want)), RecvBuf) && s.client.todo == []
    ensures var s' := ClientPayload(w, s);
      && s'.client.pc.WReq? && s'.client.pushed.None? && s'.client.asked == s.client.asked && s'.server == s.server && s'.fd == s.fd
      && Asked(s', [Hdr(C_MEMBUF, PAGE_SIZE + 1)] + Raw(MemoryReply(w, s.server.want, PAGE_SIZE)), RecvBuf)
  {
    var request := PageRequest(s.server.want);
    MemoryRequestParsed(s.server.want);
    assert ToClient(s) == Raw(request) + [];
    hide OpsToks, PageRequest, MemoryReply, Value;
    PayloadHead(s, 16, request, []);
  }

  lemma RequestPayloadKeeps(w: World, s: Session)
    requires ValidWorld(w) && Inv(w, s) && s.client.todo == [] && s.client.pc.RReq? && 16 <= |s.s2c|
    ensures Inv(w, ClientPayload(w, s))
  {
    RequestTaken(w, s);
    MemoryAnswered(w, ClientPayload(w, s));
    hide FirstFd, WellFormed, Lockstep, ClientPayload;
  }

  lemma PayloadKeeps(w: World, s: Session)
    requires ValidWorld(w) && Inv(w, s) && s.client.todo == [] && WaitsForPayload(s.client.pc)
    ensures Inv(w, ClientPayload(w, s))
  {
    hide OpsToks, FirstFd, WellFormed, Messages, LittleEndian, Value;
    var n := ReadSize(s.client.pc);
    if n <= |s.s2c| {
      match s.client.pc
      case RInit => PayloadHead(s, n, w.clientConfig, ObjectMsg(s.server.sent));
      case RObj(_) =>
        assert ToClient(s) == Raw(s.server.sent) + [];
        PayloadHead(s, n, s.server.sent, []);
      case RReq => RequestPayloadKeeps(w, s);
      case RFd => FdPayloadKeeps(w, s);
    }
  }

  lemma FdPayloadKeeps(w: World, s: Session)
    requires ValidWorld(w) && Inv(w, s) && s.client.todo == [] && s.client.pc.RFd? && 4 <= |s.s2c|
    ensures Inv(w, ClientPayload(w, s))
  {
    hide OpsToks, FirstFd, WellFormed, Messages, LittleEndian, Value;
    assert ToClient(s) == Raw(s.server.reply) + [];
    PayloadHead(s, 4, s.server.reply, []);
    if FirstFd(s.server.ops).Some? {
      FdBehindReply(s);
      assert false;
    }
  }

  lemma ReceiveKeeps(w: World, s: Session)
    requires ValidWorld(w) && Inv(w, s)
    ensures Inv(w, ClientRecv(w, s))
  {
    if s.client.todo == [] {
      if WaitsForHeader(s.client.pc) {
        HeaderKeeps(w, s);
      } else if WaitsForPayload(s.client.pc) {
        PayloadKeeps(w, s);
      }
    }
  }

  lemma StartKeeps(w: World, s: Session, act: Act)
    requires ValidWorld(w) && Inv(w, s)
    ensures Inv(w, Start(w, s, act))
  {
    hide OpsToks, FirstFd, WellFormed, Messages, LittleEndian, MemoryReply;
    assert s.client.pc.Fresh? || s.client.pc.Idle? ==> s.client.todo == [];
  }

  // ---- What the server consumes ------------------------------------------------------

  lemma MessageHead(s: Session)
    requires s.server.inbuf != []
    ensures ToServer(s) == [s.server.inbuf[0]] + ToServer(s.(server := s.server.(inbuf := s.server.inbuf[1..])))
  {
    assert s.server.inbuf == [s.server.inbuf[0]] + s.server.inbuf[1..];
  }

  lemma BytesHead(s: Session, n: nat, bs: seq<byte>, rest: seq<Tok>)
    requires n <= |s.server.inbuf| && |bs| == n && ToServer(s) == Raw(bs) + rest
    ensures AllBytes(s.server.inbuf[..n]) && Payload(s.server.inbuf[..n]) == bs
    ensures ToServer(s.(server := s.server.(inbuf := s.server.inbuf[n..]))) == rest
  {
    var after := ToServer(s.(server := s.server.(inbuf := s.server.inbuf[n..])));
    assert s.server.inbuf == s.server.inbuf[..n] + s.server.inbuf[n..];
    assert ToServer(s) == s.server.inbuf[..n] + after;
    Prefix(bs, rest, s.server.inbuf[..n], after);
  }

  lemma TwoOps(op: Op, op': Op)
    ensures OpsToks([op, op']) == OpToks(op) + OpToks(op')
    ensures FirstFd([op, op']) ==
      if op.SendFd? then Some(op.child) else if op'.SendFd? then Some(op'.child) else None
  {
    assert [op, op'][1..] == [op'] && [op'][1..] == [];
    assert OpsToks([op']) == OpToks(op') + [];
    assert FirstFd([op']) == if op'.SendFd? then Some(op'.child) else None;
  }

  /** The answer to the request that the server has just taken up, or to what it has just decided. */
  lemma Answers(s: Session, id: nat, bs: seq<byte>, op: Op)
    requires ToClient(s) == [] && (op == Write(bs) || op == Sendfile(bs) || (op.SendFd? && op.bs == bs && |bs| == 4))
    ensures var s' := s.(server := s.server.(ops := [PutHdr(id, |bs|), op]));
      && ToClient(s') == [Hdr(id, |bs|)] + Raw(bs)
      && WellFormed(s'.server.ops, s'.server.out, s'.server.wrSz)
      && FirstFd(s'.server.ops) == if op.SendFd? then Some(op.child) else None
  {
    TwoOps(PutHdr(id, |bs|), op);
  }

  /** A fork request can only come from a client that waits for its descriptor. */
  lemma ForkRequestHead(w: World, s: Session)
    requires ValidWorld(w) && Inv(w, s) && s.server.pc.Recv? && s.client.pc.WFd? && s.server.inbuf != []
    ensures s.server.inbuf[0] == Hdr(C_FORK, 0) && Asked(s, ForkRequest(), Recv) && PendingFd(s).None?
    ensures ToServer(s.(server := s.server.(inbuf := s.server.inbuf[1..]))) == []
  {
    var t := s.(server := s.server.(inbuf := s.server.inbuf[1..]));
    MessageHead(s);
    assert ToServer(s) != [];
    assert ToServer(s) == ForkRequest() == [Hdr(C_FORK, 0)] + [];
    Cons(s.server.inbuf[0], ToServer(t), Hdr(C_FORK, 0), []);
  }

  lemma ForkFailedKeeps(w: World, s: Session, error: seq<byte>)
    requires ValidWorld(w) && Inv(w, s) && s.server.ops == [] && s.server.pc.Recv? && s.client.pc.WFd?
    requires s.server.inbuf != [] && error != Zeros(4) && |error| == 4
    ensures Inv(w, ServerMessage(s, Failed(error)))
  {
    var t := s.(server := s.server.(inbuf := s.server.inbuf[1..]));
    var s' := ServerMessage(s, Failed(error));
    ForkRequestHead(w, s);
    Answers(t, S_FD, error, Write(error));
    assert FdReply(s') && Answered(s', [Hdr(S_FD, 4)] + Raw(error), Recv);
  }

  lemma ForkedKeeps(w: World, s: Session, child: nat)
    requires ValidWorld(w) && Inv(w, s) && s.server.ops == [] && s.server.pc.Recv? && s.client.pc.WFd?
    requires s.server.inbuf != []
    ensures Inv(w, ServerMessage(s, Forked(child)))
  {
    var t := s.(server := s.server.(inbuf := s.server.inbuf[1..]));
    var s' := ServerMessage(s, Forked(child));
    ForkRequestHead(w, s);
    Answers(t, S_FD, Zeros(4), SendFd(Zeros(4), child));
    assert FdReply(s') && Answered(s', [Hdr(S_FD, 4)] + Raw(Zeros(4)), Recv);
  }

  lemma ForkMessageKeeps(w: World, s: Session, fork: Outcome)
    requires ValidWorld(w) && Inv(w, s) && s.server.ops == [] && s.server.pc.Recv? && s.client.pc.WFd?
    requires s.server.inbuf != []
    requires fork.Failed? ==> fork.error != Zeros(4) && |fork.error| == 4
    ensures Inv(w, ServerMessage(s, fork))
  {
    hide Inv, ServerMessage;
    match fork
    case Failed(error) => ForkFailedKeeps(w, s, error);
    case Forked(child) => ForkedKeeps(w, s, child);
  }

  lemma InitMessageKeeps(w: World, s: Session, fork: Outcome)
    requires ValidWorld(w) && Inv(w, s) && s.server.ops == [] && s.client.pc.WInit?
    requires s.server.inbuf != [] && WaitsForMessage(s.server.pc)
    ensures Inv(w, ServerMessage(s, fork))
    ensures s.server.inbuf[0] == Hdr(C_INIT, CONFIG_SIZE)
  {
    var t := s.(server := s.server.(inbuf := s.server.inbuf[1..]));
    MessageHead(s);
    Cons(s.server.inbuf[0], ToServer(t), Hdr(C_INIT, CONFIG_SIZE), Raw(w.serverConfig));
  }

  lemma TranslateMessageKeeps(w: World, s: Session, fork: Outcome)
    requires ValidWorld(w) && Inv(w, s) && s.server.ops == [] && s.client.pc.WReq?
    requires s.server.inbuf != [] && s.server.pc.Recv?
    ensures Inv(w, ServerMessage(s, fork))
    ensures s.server.inbuf[0] == Hdr(C_TRANSLATE, 8)
  {
    var t := s.(server := s.server.(inbuf := s.server.inbuf[1..]));
    MessageHead(s);
    var addr := s.client.asked.value;
    Cons(s.server.inbuf[0], ToServer(t), Hdr(C_TRANSLATE, 8), Raw(LittleEndian(addr, 8)));
    assert Reading(ServerMessage(s, fork), ReadAddr, LittleEndian(addr, 8));
  }

  lemma MemoryMessageKeeps(w: World, s: Session, fork: Outcome)
    requires ValidWorld(w) && Inv(w, s) && s.server.ops == [] && s.server.inbuf != [] && s.server.pc.RecvBuf?
    ensures Inv(w, ServerMessage(s, fork))
    ensures s.server.inbuf[0] == Hdr(C_MEMBUF, PAGE_SIZE + 1)
  {
    var t := s.(server := s.server.(inbuf := s.server.inbuf[1..]));
    var reply := MemoryReply(w, s.server.want, PAGE_SIZE);
    MessageHead(s);
    assert ToServer(s) != [];
    Cons(s.server.inbuf[0], ToServer(t), Hdr(C_MEMBUF, PAGE_SIZE + 1), Raw(reply));
    assert Reading(ServerMessage(s, fork), ReadPage, reply);
  }

  lemma MessageKeeps(w: World, s: Session, fork: Outcome)
    requires ValidWorld(w) && Inv(w, s) && s.server.ops == [] && WaitsForMessage(s.server.pc)
    requires fork.Failed? ==> fork.error != Zeros(4) && |fork.error| == 4
    ensures Inv(w, ServerMessage(s, fork))
  {
    hide OpsToks, FirstFd, WellFormed, Messages, LittleEndian, OnMessage;
    if s.server.inbuf != [] {
      assert ToServer(s) != [];
      if s.server.pc.RecvBuf? {
        MemoryMessageKeeps(w, s, fork);
      } else if s.client.pc.WInit? {
        InitMessageKeeps(w, s, fork);
      } else if s.client.pc.WReq? {
        TranslateMessageKeeps(w, s, fork);
      } else {
        ForkMessageKeeps(w, s, fork);
      }
    }
  }

  lemma FourOps(s: Session, a: nat, x: seq<byte>, b: nat, y: seq<byte>)
    requires ToClient(s) == []
    ensures var s' := s.(server := s.server.(ops := MessageOps(a, x) + MessageOps(b, y)));
      && ToClient(s') == [Hdr(a, |x|)] + Raw(x) + ([Hdr(b, |y|)] + Raw(y))
      && WellFormed(s'.server.ops, s'.server.out, s'.server.wrSz)
      && FirstFd(s'.server.ops) == None
  {
    var ops := MessageOps(a, x) + MessageOps(b, y);
    assert ops[1..][1..] == ops[2..] == MessageOps(b, y);
    TwoOps(PutHdr(b, |y|), Write(y));
    assert OpsToks(ops) == [Hdr(a, |x|)] + (Raw(x) + OpsToks(ops[2..]));
    assert FirstFd(ops[1..]) == FirstFd(ops[2..]);
  }

  lemma ConfigReadKeeps(w: World, s: Session, obj: seq<byte>)
    requires ValidWorld(w) && ModeZero(w.serverConfig) && Inv(w, s) && s.server.ops == []
    requires (s.server.pc.ReadCfg0? || s.server.pc.ReadCfg?) && |obj| <= INT32_MAX
    ensures Inv(w, ServerPayload(w, s, obj))
  {
    hide OpsToks, FirstFd, WellFormed, Messages, LittleEndian, MemoryReply;
    if CONFIG_SIZE <= |s.server.inbuf| {
      assert ToServer(s) == Raw(w.serverConfig) + [];
      BytesHead(s, CONFIG_SIZE, w.serverConfig, []);
      FourOps(s, S_INIT, w.clientConfig, S_OBJECT, if s.server.pc.ReadCfg0? then obj else []);
    }
  }

  lemma AddressReadKeeps(w: World, s: Session, obj: seq<byte>)
    requires ValidWorld(w) && Inv(w, s) && s.server.ops == [] && s.server.pc.ReadAddr?
    ensures Inv(w, ServerPayload(w, s, obj))
  {
    hide OpsToks, FirstFd, WellFormed, Messages, LittleEndian, MemoryReply;
    var bs := LittleEndian(s.client.asked.value, 8);
    if 8 <= |s.server.inbuf| {
      assert ToServer(s) == Raw(bs) + [];
      BytesHead(s, 8, bs, []);
    }
  }

  lemma RawSplit(bs: seq<byte>, n: nat)
    requires n <= |bs|
    ensures Raw(bs) == Raw(bs[..n]) + Raw(bs[n..])
  {
  }

  lemma PageReadKeeps(w: World, s: Session, obj: seq<byte>)
    requires ValidWorld(w) && Inv(w, s) && s.server.ops == [] && s.server.pc.ReadPage?
    ensures Inv(w, ServerPayload(w, s, obj))
  {
    hide OpsToks, FirstFd, WellFormed, Messages, LittleEndian;
    var reply := MemoryReply(w, s.server.want, PAGE_SIZE);
    if PAGE_SIZE <= |s.server.inbuf| {
      RawSplit(reply, PAGE_SIZE);
      BytesHead(s, PAGE_SIZE, reply[..PAGE_SIZE], Raw(reply[PAGE_SIZE..]));
      var s' := ServerPayload(w, s, obj);
      assert Reading(s', s'.server.pc, reply[PAGE_SIZE..]);
    }
  }

  /** What is left of the memory reply when its last byte is read. */
  lemma FlagArrives(w: World, s: Session)
    requires ValidWorld(w) && Inv(w, s) && s.server.pc.ReadFlag?
    ensures var reply := MemoryReply(w, s.server.want, PAGE_SIZE);
      && s.client.pc.WReq? && s.client.asked.Some? && s.server.pc.got == reply[..PAGE_SIZE] && ToClient(s) == []
      && ToServer(s) == Raw(reply[PAGE_SIZE..]) && s.server.recvSz == 1
  {
    hide OpsToks, FirstFd, WellFormed, Messages, LittleEndian;
  }

  lemma FlagRead(w: World, s: Session, obj: seq<byte>)
    requires ValidWorld(w) && Inv(w, s) && s.server.ops == [] && s.server.pc.ReadFlag? && 1 <= |s.server.inbuf|
    ensures var reply := MemoryReply(w, s.server.want, PAGE_SIZE); var s' := ServerPayload(w, s, obj);
      && s'.server == s.server.(inbuf := s.server.inbuf[1..], recvSz := 0, pc := Work, page := if reply[PAGE_SIZE] == 0 then Some(reply[..PAGE_SIZE]) else None)
      && s' == s.(server := s'.server) && ToServer(s') == []
  {
    var reply := MemoryReply(w, s.server.want, PAGE_SIZE);
    FlagArrives(w, s);
    hide Inv, MemoryReply;
    assert ToServer(s) == Raw(reply[PAGE_SIZE..]) + [];
    BytesHead(s, 1, reply[PAGE_SIZE..], []);
  }

  lemma WorkAgain(w: World, s: Session)
    requires ValidWorld(w) && s.client.pc.WReq? && s.client.asked.Some? && Answered(s, [], Work)
    ensures Lockstep(w, s)
  {
  }

  lemma ReplyMeans(w: World, addr: nat)
    requires ValidWorld(w)
    ensures var reply := MemoryReply(w, addr, PAGE_SIZE);
      (if reply[PAGE_SIZE] == 0 then Some(reply[..PAGE_SIZE]) else None) == w.mem(addr)
  {
    if w.mem(addr).Some? {
      assert MemoryReply(w, addr, PAGE_SIZE)[..PAGE_SIZE] == w.mem(addr).value;
    }
  }

  /** The page that the server ends up with is the guest's, and it knows when there is none. */
  lemma FlagReadKeeps(w: World, s: Session, obj: seq<byte>)
    requires ValidWorld(w) && Inv(w, s) && s.server.ops == [] && s.server.pc.ReadFlag?
    ensures Inv(w, ServerPayload(w, s, obj))
    ensures ServerPayload(w, s, obj) != s ==> ServerPayload(w, s, obj).server.page == w.mem(s.server.want)
  {
    hide Lockstep, MemoryReply, OpsToks, FirstFd, WellFormed, Messages, LittleEndian;
    FlagArrives(w, s);
    if 1 <= |s.server.inbuf| {
      hide ServerPayload;
      FlagRead(w, s, obj);
      ReplyMeans(w, s.server.want);
      WorkAgain(w, ServerPayload(w, s, obj));
    }
  }

  lemma ServeKeeps(w: World, s: Session, fork: Outcome, obj: seq<byte>)
    requires ValidWorld(w) && ModeZero(w.serverConfig) && Inv(w, s) && |obj| <= INT32_MAX
    requires fork.Failed? ==> fork.error != Zeros(4) && |fork.error| == 4
    ensures Inv(w, ServerRecv(w, s, fork, obj))
  {
    if s.server.ops == [] {
      if WaitsForMessage(s.server.pc) {
        MessageKeeps(w, s, fork);
      } else {
        match s.server.pc
        case ReadCfg0 => ConfigReadKeeps(w, s, obj);
        case ReadCfg => ConfigReadKeeps(w, s, obj);
        case ReadAddr => AddressReadKeeps(w, s, obj);
        case ReadPage => PageReadKeeps(w, s, obj);
        case ReadFlag(_) => FlagReadKeeps(w, s, obj);
        case _ =>
      }
    }
  }

  lemma AtWork(w: World, s: Session)
    requires ValidWorld(w) && Inv(w, s) && s.server.pc.Work? && s.server.ops == []
    ensures s.client.pc.WReq? && s.client.asked.Some? && s.client.pushed.None? && Answered(s, [], Work)
    ensures !s.server.need && s.fd.None?
  {
  }

  lemma PageAsked(w: World, s: Session)
    requires ValidWorld(w) && s.client.pc.WReq? && s.client.asked.Some? && s.server.want < Pow256(8)
    requires Answered(s, [Hdr(S_MEMREQ, 16)] + Raw(PageRequest(s.server.want)), RecvBuf)
    ensures Lockstep(w, s)
  {
  }

  lemma AskPageKeeps(w: World, s: Session, addr: nat)
    requires ValidWorld(w) && Inv(w, s) && s.server.pc.Work? && s.server.ops == []
    ensures Inv(w, Decide(w, s, AskPage(addr)))
  {
    if addr < Pow256(8) {
      var s', request := Decide(w, s, AskPage(addr)), PageRequest(addr);
      AtWork(w, s);
      Answers(s, S_MEMREQ, request, Write(request));
      assert ToClient(s') == [Hdr(S_MEMREQ, 16)] + Raw(request);
      assert ToServer(s') == ToServer(s);
      PageAsked(w, s');
    }
  }

  lemma ObjectAnswered(w: World, s: Session)
    requires ValidWorld(w) && s.client.pc.WReq? && s.client.asked.Some? && Answered(s, ObjectMsg(s.server.sent), Recv)
    ensures Lockstep(w, s)
  {
  }

  lemma CacheHitKeeps(w: World, s: Session, bs: seq<byte>)
    requires |bs| <= INT32_MAX && ValidWorld(w) && Inv(w, s) && s.server.pc.Work? && s.server.ops == []
    ensures Inv(w, Decide(w, s, CacheHit(bs)))
  {
    AtWork(w, s);
    hide Lockstep;
    Answers(s, S_OBJECT, bs, Sendfile(bs));
    var s' := Decide(w, s, CacheHit(bs));
    assert Answered(s', ObjectMsg(bs), Recv);
    ObjectAnswered(w, s');
  }

  lemma TranslatedKeeps(w: World, s: Session, bs: seq<byte>)
    requires |bs| <= INT32_MAX && ValidWorld(w) && Inv(w, s) && s.server.pc.Work? && s.server.ops == []
    ensures Inv(w, Decide(w, s, Translated(bs)))
  {
    AtWork(w, s);
    hide Lockstep;
    Answers(s, S_OBJECT, bs, Write(bs));
    assert [] + MessageOps(S_OBJECT, bs) == [PutHdr(S_OBJECT, |bs|), Write(bs)];
    var s' := Decide(w, s, Translated(bs));
    assert Answered(s', ObjectMsg(bs), Recv);
    ObjectAnswered(w, s');
  }

  lemma DecideKeeps(w: World, s: Session, act: Act)
    requires ValidWorld(w) && Inv(w, s) && Fits(act)
    ensures Inv(w, Decide(w, s, act))
  {
    hide Inv;
    if s.server.pc.Work? && s.server.ops == [] {
      match act
      case AskPage(addr) => AskPageKeeps(w, s, addr);
      case CacheHit(bs) => CacheHitKeeps(w, s, bs);
      case Translated(bs) => TranslatedKeeps(w, s, bs);
      case _ =>
    }
  }

  lemma SessionKeeps(w: World, s: Session, act: Act, child: nat)
    requires ValidWorld(w) && ModeZero(w.serverConfig) && Inv(w, s) && Fits(act)
    ensures Inv(w, StepSession(w, s, act, child))
  {
    hide Inv, SendOne, ClientRecv, ReadOne, ServerRecv, RunOp, Flushed, Start, Decide;
    match act
    case Send => SendKeeps(w, s);
    case Receive => ReceiveKeeps(w, s);
    case ReadAhead => ReadAheadKeeps(w, s);
    case Serve(fork, obj) =>
      ServeKeeps(w, s, if fork.Some? && fork.value != Zeros(4) && |fork.value| == 4 then Failed(fork.value) else Forked(child), obj);
    case Output => OutputKeeps(w, s);
    case AutoFlush => FlushKeeps(w, s);
    case Translate(_) => StartKeeps(w, s, act);
    case Fork => StartKeeps(w, s, act);
    case ThreadInit => StartKeeps(w, s, act);
    case Close => StartKeeps(w, s, act);
    case _ => DecideKeeps(w, s, act);
  }
}
