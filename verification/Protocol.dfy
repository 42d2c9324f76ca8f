/**
 The conversation between client and rewriting server: framed messages over a byte stream
 in each direction, a one-header pushback in the client, stdio buffering in the server,
 memory requests nested in translations, and forking of the server in mid-session.
 Any number of sessions run at once; sends, flushes, read-ahead and reads interleave freely.
 */
module Protocol {
  import opened Common
  import opened Bytes

  const C_EXIT: nat := 1
  const C_TRANSLATE: nat := 2
  const S_MEMREQ: nat := 3
  const C_MEMBUF: nat := 4
  const S_OBJECT: nat := 5
  const C_INIT: nat := 9
  const S_INIT: nat := 10
  const C_FORK: nat := 11
  const S_FD: nat := 12

  const CONFIG_SIZE: nat := 20
  const PAGE_SIZE: nat := 0x1000
  const INT32_MAX: nat := 0x7fff_ffff

  /** A stream element: a whole header, which both sides write and read as one unit, or a payload byte. */
  datatype Tok = Hdr(id: nat, sz: nat) | Byte(v: byte)

  function Raw(bs: seq<byte>): (r: seq<Tok>)
    ensures |r| == |bs|
  {
    seq(|bs|, i requires 0 <= i < |bs| => Byte(bs[i]))
  }

  predicate AllBytes(ts: seq<Tok>) {
    forall i :: 0 <= i < |ts| ==> ts[i].Byte?
  }

  function Payload(ts: seq<Tok>): (r: seq<byte>)
    requires AllBytes(ts)
    ensures |r| == |ts|
  {
    seq(|ts|, i requires 0 <= i < |ts| => ts[i].v)
  }

  lemma PayloadOfRaw(bs: seq<byte>, rest: seq<Tok>)
    ensures (Raw(bs) + rest)[..|bs|] == Raw(bs) && (Raw(bs) + rest)[|bs|..] == rest
    ensures AllBytes(Raw(bs)) && Payload(Raw(bs)) == bs
  {
  }

  /** What the environment fixes: both configurations and the guest memory, page by page. */
  datatype World = World(
    serverConfig: seq<byte>,           // sent by the client in C_INIT
    clientConfig: seq<byte>,           // sent by the server in S_INIT
    mem: nat -> Option<seq<byte>>)     // page contents, None where the guest address faults

  ghost predicate ValidWorld(w: World) {
    && |w.serverConfig| == CONFIG_SIZE && |w.clientConfig| == CONFIG_SIZE
    && (forall a :: w.mem(a).Some? ==> |w.mem(a).value| == PAGE_SIZE)
  }

  /** tsc_server_mode is the fourth of five 32-bit fields. */
  predicate ModeZero(config: seq<byte>) {
    |config| == CONFIG_SIZE && config[12..16] == [0, 0, 0, 0]
  }

  // ---- The two processes -------------------------------------------------------------

  /** Client: W* waits for a header, R* for a payload. */
  datatype ClientPc =
    | Unattached                        // the socket of a forked server nobody has received yet
    | Fresh                             // socket received, not used yet
    | Idle
    | WInit | RInit | WObj | RObj(n: nat) | WReq | RReq | WFd | RFd
    | Closed
    | Error

  datatype Client = Client(
    pc: ClientPc,
    todo: seq<Tok>,                     // still to be written to the socket
    pushed: Option<Tok>,                // last_hdr
    obj: seq<byte>,                     // last object received
    asked: Option<nat>,                 // address of the translation asked for last, if that was the last request
    config: Option<seq<byte>>,          // configuration received
    result: seq<byte>)                  // reply to the last fork request

  datatype ServerPc =
    | Recv0 | ReadCfg0
    | Recv | ReadCfg | ReadAddr
    | Work                              // translating
    | RecvBuf | ReadPage | ReadFlag(got: seq<byte>)
    | Exited
    | Bad

  /** The output operations of the server, in program order. */
  datatype Op =
    | PutHdr(id: nat, sz: nat)          // SendMsgHdr: into the stdio buffer
    | Write(bs: seq<byte>)              // Write: into the stdio buffer, flushed when the message is complete
    | Sendfile(bs: seq<byte>)           // flush, then straight into the socket
    | SendFd(bs: seq<byte>, child: nat) // flush, then straight into the socket, with a descriptor attached

  datatype Server = Server(
    pc: ServerPc,
    ops: seq<Op>,
    out: seq<Tok>,                      // stdio output buffer
    inbuf: seq<Tok>,                    // stdio read-ahead
    recvSz: nat,                        // recv_hdr.sz
    wrSz: int,                          // wr_hdr.sz
    need: bool,                         // need_iwcc
    want: nat,                          // page asked for last
    page: Option<seq<byte>>,            // what GetPage returned last
    sent: seq<byte>,                    // object sent last
    addr: nat,                          // address read last
    config: Option<seq<byte>>,          // configuration read last
    reply: seq<byte>)                   // how the last fork request turned out

  datatype Session = Session(client: Client, server: Server, c2s: seq<Tok>, s2c: seq<Tok>, fd: Option<nat>)

  // ---- Messages ----------------------------------------------------------------------

  function InitRequest(w: World): seq<Tok> { [Hdr(C_INIT, CONFIG_SIZE)] + Raw(w.serverConfig) }

  function TranslateRequest(addr: nat): seq<Tok> { [Hdr(C_TRANSLATE, 8)] + Raw(LittleEndian(addr, 8)) }

  function ForkRequest(): seq<Tok> { [Hdr(C_FORK, 0)] }

  function PageRequest(addr: nat): (r: seq<byte>)
    ensures |r| == 16
  {
    LittleEndian(addr, 8) + LittleEndian(PAGE_SIZE, 8)
  }

  function Zeros(n: nat): (r: seq<byte>)
    ensures |r| == n
  {
    seq(n, _ => 0)
  }

  /** The client's answer: n bytes of memory, or padding, and a byte that says which. */
  function MemoryReply(w: World, addr: nat, n: nat): (r: seq<byte>)
    requires ValidWorld(w) && n <= PAGE_SIZE
    ensures |r| == n + 1
  {
    if w.mem(addr).Some? then w.mem(addr).value[..n] + [0] else Zeros(n) + [1]
  }

  function ObjectMsg(bs: seq<byte>): seq<Tok> { [Hdr(S_OBJECT, |bs|)] + Raw(bs) }

  function InitReply(w: World, bs: seq<byte>): seq<Tok> {
    [Hdr(S_INIT, CONFIG_SIZE)] + Raw(w.clientConfig) + ObjectMsg(bs)
  }

  // ---- Client steps ------------------------------------------------------------------

  function Fail(s: Session): Session {
    s.(client := s.client.(pc := Error))
  }

  /** translator_hdr_send followed by the payload. */
  function Begin(s: Session, msg: seq<Tok>, next: ClientPc): Session {
    if s.client.pushed.Some? then Fail(s) else s.(client := s.client.(todo := msg, pc := next))
  }

  function SendOne(s: Session): Session {
    if s.client.todo == [] then s
    else s.(client := s.client.(todo := s.client.todo[1..]), c2s := s.c2s + [s.client.todo[0]])
  }

  /** translator_hdr_recv: fetch a header unless one was pushed back. */
  function Fetch(s: Session): Session {
    if s.client.pushed.Some? || s.s2c == [] then s
    else s.(client := s.client.(pushed := Some(s.s2c[0])), s2c := s.s2c[1..])
  }

  function OnHeader(s: Session, h: Tok): Session {
    var taken := s.client.(pushed := None);
    if !h.Hdr? then Fail(s)
    else
      match s.client.pc
      case WInit =>
        if h.id == S_INIT && h.sz == CONFIG_SIZE then s.(client := taken.(pc := RInit)) else Fail(s)
      case WObj =>
        if h.id == S_OBJECT then s.(client := taken.(pc := RObj(h.sz))) else Fail(s)
      case WReq =>
        if h.id != S_MEMREQ then s.(client := s.client.(pc := WObj))   // header stays pushed back
        else if h.sz == 16 then s.(client := taken.(pc := RReq)) else Fail(s)
      case WFd =>
        if h.id == S_FD && h.sz == 4 then s.(client := taken.(pc := RFd)) else Fail(s)
      case _ => s
  }

  function ReadSize(pc: ClientPc): nat {
    match pc
    case RInit => CONFIG_SIZE
    case RObj(n) => n
    case RReq => 16
    case RFd => 4
    case _ => 0
  }

  function OnPayload(w: World, s: Session, bs: seq<byte>): Session
    requires ValidWorld(w) && |bs| == ReadSize(s.client.pc)
  {
    match s.client.pc
    case RInit => s.(client := s.client.(pc := WObj, config := Some(bs)))
    case RObj(_) => s.(client := s.client.(pc := Idle, obj := bs))
    case RReq =>
      var n := if Value(bs[8..]) > PAGE_SIZE then PAGE_SIZE else Value(bs[8..]);
      Begin(s, [Hdr(C_MEMBUF, n + 1)] + Raw(MemoryReply(w, Value(bs[..8]), n)), WReq)
    case RFd =>
      if bs != Zeros(4) then s.(client := s.client.(pc := Idle, result := bs))
      else if s.fd.None? then Fail(s)
      else s.(client := s.client.(pc := Idle, result := bs), fd := None)
    case _ => s
  }

  predicate WaitsForHeader(pc: ClientPc) {
    pc.WInit? || pc.WObj? || pc.WReq? || pc.WFd?
  }

  predicate WaitsForPayload(pc: ClientPc) {
    pc.RInit? || pc.RObj? || pc.RReq? || pc.RFd?
  }

  function ClientHeader(s: Session): Session {
    var t := Fetch(s);
    if t.client.pushed.None? then s else OnHeader(t, t.client.pushed.value)
  }

  function ClientPayload(w: World, s: Session): Session
    requires ValidWorld(w)
  {
    var n := ReadSize(s.client.pc);
    if |s.s2c| < n then s
    else if !AllBytes(s.s2c[..n]) then Fail(s)
    else OnPayload(w, s.(s2c := s.s2c[n..]), Payload(s.s2c[..n]))
  }

  function ClientRecv(w: World, s: Session): Session
    requires ValidWorld(w)
  {
    if s.client.todo != [] then s
    else if WaitsForHeader(s.client.pc) then ClientHeader(s)
    else if WaitsForPayload(s.client.pc) then ClientPayload(w, s)
    else s
  }

  // ---- Server steps ------------------------------------------------------------------

  function ReadOne(s: Session): Session {
    if s.c2s == [] then s
    else s.(c2s := s.c2s[1..], server := s.server.(inbuf := s.server.inbuf + [s.c2s[0]]))
  }

  function Flushed(s: Session): Session {
    s.(server := s.server.(out := []), s2c := s.s2c + s.server.out)
  }

  function RunOp(s: Session): Session {
    if s.server.ops == [] then s
    else
      var op, srv := s.server.ops[0], s.server.(ops := s.server.ops[1..]);
      match op
      case PutHdr(id, sz) => s.(server := srv.(out := srv.out + [Hdr(id, sz)], wrSz := sz))
      case Write(bs) =>
        var t := s.(server := srv.(out := srv.out + Raw(bs), wrSz := srv.wrSz - |bs|));
        if t.server.wrSz == 0 then Flushed(t) else t
      case Sendfile(bs) =>
        var t := Flushed(s.(server := srv));
        t.(s2c := t.s2c + Raw(bs))
      case SendFd(bs, child) =>
        var t := Flushed(s.(server := srv));
        t.(s2c := t.s2c + Raw(bs), fd := Some(child))
  }

  function Broken(s: Session): Session {
    s.(server := s.server.(pc := Bad))
  }

  function MessageOps(id: nat, bs: seq<byte>): seq<Op> { [PutHdr(id, |bs|), Write(bs)] }

  /** SendObject: the client configuration first if it is still owed; a size beyond 32 bits fails an assertion. */
  function SendObject(w: World, srv: Server, bs: seq<byte>): Server {
    if |bs| > INT32_MAX then srv.(pc := Bad)
    else srv.(ops := (if srv.need then MessageOps(S_INIT, w.clientConfig) else []) + MessageOps(S_OBJECT, bs),
         need := false, sent := bs)
  }

  /** How a fork request turns out: an error code, or a child process. */
  datatype Outcome = Failed(error: seq<byte>) | Forked(child: nat)

  function OnMessage(s: Session, h: Tok, fork: Outcome): Session
    requires s.server.inbuf != []
  {
    if !h.Hdr? then Broken(s)
    else
      var srv := s.server.(inbuf := s.server.inbuf[1..], recvSz := h.sz);
      match srv.pc
      case Recv0 => s.(server := srv.(pc := if h.id == C_INIT then ReadCfg0 else Bad))
      case RecvBuf => s.(server := if h.id == C_MEMBUF then srv.(pc := ReadPage) else srv.(pc := Work, page := None))
      case _ =>
        if h.id == C_EXIT then s.(server := srv.(pc := Exited))
        else if h.id == C_TRANSLATE then s.(server := srv.(pc := ReadAddr))
        else if h.id == C_INIT then s.(server := srv.(pc := ReadCfg))
        else if h.id == C_FORK then
          match fork
          case Failed(error) => s.(server := srv.(ops := MessageOps(S_FD, error), reply := error))
          case Forked(child) =>
            // the child's fclose of its copy of the stream writes any buffered output a second time
            s.(server := srv.(ops := [PutHdr(S_FD, 4), SendFd(Zeros(4), child)], reply := Zeros(4)), s2c := s.s2c + srv.out)
        else s.(server := srv.(pc := Bad))
  }

  function NeededBytes(pc: ServerPc): nat {
    match pc
    case ReadCfg0 => CONFIG_SIZE
    case ReadCfg => CONFIG_SIZE
    case ReadAddr => 8
    case ReadPage => PAGE_SIZE
    case ReadFlag(_) => 1
    case _ => 0
  }

  function OnRead(w: World, srv: Server, bs: seq<byte>, obj: seq<byte>): Server
    requires |bs| == NeededBytes(srv.pc)
  {
    match srv.pc
    case ReadCfg0 => SendObject(w, srv.(pc := Recv, need := ModeZero(bs), config := Some(bs)), obj)
    case ReadCfg => SendObject(w, srv.(pc := Recv, need := ModeZero(bs), config := Some(bs)), [])
    case ReadAddr => srv.(pc := Work, addr := Value(bs))
    case ReadPage => srv.(pc := ReadFlag(bs))
    case ReadFlag(got) => srv.(pc := Work, page := if bs[0] == 0 then Some(got) else None)
    case _ => srv
  }

  predicate WaitsForMessage(pc: ServerPc) {
    pc.Recv0? || pc.Recv? || pc.RecvBuf?
  }

  /** RecvMsg, with its assertion that the previous message was read completely. */
  function ServerMessage(s: Session, fork: Outcome): Session {
    var srv := s.server;
    if srv.recvSz != 0 then Broken(s)
    else if srv.inbuf != [] then OnMessage(s, srv.inbuf[0], fork)
    else if srv.pc.Recv? && s.client.pc.Closed? && s.c2s == [] then s.(server := srv.(pc := Exited))
    else s
  }

  /** Read, with its assertion that the message is long enough. */
  function ServerPayload(w: World, s: Session, obj: seq<byte>): Session {
    var srv, n := s.server, NeededBytes(s.server.pc);
    if srv.recvSz < n then Broken(s)
    else if |srv.inbuf| < n then s
    else if !AllBytes(srv.inbuf[..n]) then Broken(s)
    else s.(server := OnRead(w, srv.(inbuf := srv.inbuf[n..], recvSz := srv.recvSz - n), Payload(srv.inbuf[..n]), obj))
  }

  function ServerRecv(w: World, s: Session, fork: Outcome, obj: seq<byte>): Session {
    if s.server.ops != [] then s
    else if WaitsForMessage(s.server.pc) then ServerMessage(s, fork)
    else if NeededBytes(s.server.pc) > 0 then ServerPayload(w, s, obj)
    else s
  }

  // ---- Whole runs --------------------------------------------------------------------

  datatype Act =
    | Send                              // the client writes one more element of its message
    | Receive                           // the client reads what it waits for
    | Translate(addr: nat) | Fork | ThreadInit | Close
    | ReadAhead                         // stdio fetches one more element for the server
    | Serve(fork: Option<seq<byte>>, obj: seq<byte>)  // the server reads; fork error, initial object
    | Output                            // the server's next output operation
    | AutoFlush                         // stdio writes its buffer early
    | AskPage(addr: nat)                // the decoder needs a page that is not cached
    | CacheHit(bs: seq<byte>)
    | Translated(bs: seq<byte>)         // also the empty object sent when decoding or lifting fails

  function Decide(w: World, s: Session, act: Act): Session {
    if !s.server.pc.Work? || s.server.ops != [] then s
    else
      match act
      case AskPage(addr) =>
        if addr >= Pow256(8) then s
        else s.(server := s.server.(pc := RecvBuf, want := addr, ops := MessageOps(S_MEMREQ, PageRequest(addr))))
      case CacheHit(bs) =>
        if |bs| > INT32_MAX then Broken(s)
        else s.(server := s.server.(pc := Recv, sent := bs, ops := [PutHdr(S_OBJECT, |bs|), Sendfile(bs)]))
      case Translated(bs) => s.(server := SendObject(w, s.server.(pc := Recv), bs))
      case _ => s
  }

  /** Objects are small enough for the size field of a header. */
  predicate Fits(act: Act) {
    match act
    case Serve(_, obj) => |obj| <= INT32_MAX
    case CacheHit(bs) => |bs| <= INT32_MAX
    case Translated(bs) => |bs| <= INT32_MAX
    case _ => true
  }

  function Asking(s: Session, addr: Option<nat>): Session {
    s.(client := s.client.(asked := addr))
  }

  function Start(w: World, s: Session, act: Act): Session {
    match act
    case ThreadInit => if s.client.pc.Fresh? then Begin(Asking(s, None), InitRequest(w), WInit) else s
    case Close => if s.client.pc.Fresh? || s.client.pc.Idle? then s.(client := s.client.(pc := Closed)) else s
    case Translate(addr) =>
      if s.client.pc.Fresh? || s.client.pc.Idle? then Begin(Asking(s, Some(addr)), TranslateRequest(addr), WReq) else s
    case Fork => if s.client.pc.Fresh? || s.client.pc.Idle? then Begin(Asking(s, None), ForkRequest(), WFd) else s
    case _ => s
  }

  function StepSession(w: World, s: Session, act: Act, child: nat): Session
    requires ValidWorld(w)
  {
    match act
    case Send => SendOne(s)
    case Receive => ClientRecv(w, s)
    case ReadAhead => ReadOne(s)
    case Serve(fork, obj) =>
      ServerRecv(w, s, if fork.Some? && fork.value != Zeros(4) && |fork.value| == 4 then Failed(fork.value) else Forked(child), obj)
    case Output => RunOp(s)
    case AutoFlush => Flushed(s)
    case Translate(_) => Start(w, s, act)
    case Fork => Start(w, s, act)
    case ThreadInit => Start(w, s, act)
    case Close => Start(w, s, act)
    case _ => Decide(w, s, act)
  }

  /** The server is about to take a fork request off its input. */
  predicate AtFork(s: Session) {
    && s.server.pc.Recv? && s.server.ops == [] && s.server.recvSz == 0
    && s.server.inbuf != [] && s.server.inbuf[0].Hdr? && s.server.inbuf[0].id == C_FORK
  }

  /** The child process: the same server state on a new, empty connection. */
  function ChildOf(s: Session): Session
    requires AtFork(s)
  {
    Session(Client(Unattached, [], None, [], None, None, []),
            s.server.(ops := [], out := [], inbuf := [], recvSz := s.server.inbuf[0].sz),
            [], [], None)
  }

  type System = seq<Session>

  function Attach(sys: System, i: nat): System
    requires i < |sys|
  {
    var s := sys[i];
    if s.client.pc.RFd? && s.client.todo == [] && s.fd.Some? && s.fd.value < |sys| && s.fd.value != i
       && sys[s.fd.value].client.pc.Unattached? && |s.s2c| >= 4 && s.s2c[..4] == Raw(Zeros(4))
    then sys[s.fd.value := sys[s.fd.value].(client := sys[s.fd.value].client.(pc := Fresh))]
    else sys
  }

  predicate ForkSucceeds(s: Session, act: Act) {
    act.Serve? && !(act.fork.Some? && act.fork.value != Zeros(4) && |act.fork.value| == 4) && AtFork(s)
  }

  /** One step of session i; a fork adds a session, receiving a descriptor hands a session to a client. */
  function Step(w: World, sys: System, i: nat, act: Act): System
    requires ValidWorld(w)
  {
    if i >= |sys| then sys
    else
      var next := (if act.Receive? then Attach(sys, i) else sys)[i := StepSession(w, sys[i], act, |sys|)];
      if ForkSucceeds(sys[i], act) then next + [ChildOf(sys[i])] else next
  }

  /** The first client has just begun to send its configuration. */
  function Initial(w: World): System {
    [Session(Client(WInit, InitRequest(w), None, [], None, None, []),
             Server(Recv0, [], [], [], 0, 0, false, 0, None, [], 0, None, []), [], [], None)]
  }

  function Run(w: World, schedule: seq<(nat, Act)>): System
    requires ValidWorld(w)
  {
    if schedule == [] then Initial(w)
    else
      var n := |schedule| - 1;
      Step(w, Run(w, schedule[..n]), schedule[n].0, schedule[n].1)
  }
}
