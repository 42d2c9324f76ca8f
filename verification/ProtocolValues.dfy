/** What the messages carry arrives: addresses, configurations and the outcome of forks, over whole runs. */
module ProtocolValues {
  import opened Common
  import opened Arith
  import opened Bytes
  import opened Protocol
  import opened ProtocolLockstep
  import opened ProtocolRuns
  import opened ProtocolProgress

  // ---- What each process knows of the other ------------------------------------------

  /** The server has read the address of the translation that its client asked for last. */
  predicate HasRead(s: Session) {
    || s.client.pc.RReq? || s.client.pc.WObj? || s.client.pc.RObj? || s.client.pc.Idle?
    || (s.client.pc.WReq? && !s.server.pc.ReadAddr? && !(s.server.pc.Recv? && ToServer(s) != []))
  }

  predicate AddressTold(s: Session) {
    s.client.asked.Some? && HasRead(s) ==> s.server.addr == s.client.asked.value % Pow256(8)
  }

  predicate ObjectTold(s: Session) {
    s.client.asked.Some? && s.client.pc.Idle? ==> s.client.obj == s.server.sent
  }

  predicate ConfigsTold(w: World, s: Session) {
    && (s.server.config.Some? ==> s.server.config.value == w.serverConfig)
    && (s.server.pc.Recv0? || s.server.pc.ReadCfg0? || s.server.config.Some?)
    && (s.client.config.Some? ==> s.client.config.value == w.clientConfig)
    && (s.client.asked.None? && (s.client.pc.WObj? || s.client.pc.RObj?) ==> s.client.config.Some?)
  }

  predicate Told(w: World, s: Session) {
    && AddressTold(s) && ObjectTold(s) && ConfigsTold(w, s)
    && (s.client.pc.WInit? || s.client.pc.RInit? || s.client.pc.WFd? || s.client.pc.RFd? ==> s.client.asked.None?)
  }

  // ---- Every step keeps it -----------------------------------------------------------

  lemma {:induction false} WordTruncates(v: nat, n: nat)
    ensures Value(LittleEndian(v, n)) == v % Pow256(n)
    decreases n
  {
    if n > 0 {
      assert LittleEndian(v, n)[1..] == LittleEndian(v / 256, n - 1);
      WordTruncates(v / 256, n - 1);
      LowBytes(v, Pow256(n - 1));
    }
  }

  lemma LowBytes(v: nat, p: nat)
    requires p > 0
    ensures v % 256 + 256 * ((v / 256) % p) == v % (256 * p)
  {
    var q, r := (v / 256) / p, (v / 256) % p;
    DivMod(v / 256, p);
    assert v == q * (256 * p) + (256 * r + v % 256);
    DivUnique(v, 256 * p, q, 256 * r + v % 256);
  }

  lemma StandTold(w: World, s: Session, s': Session)
    requires Told(w, s) && SameStand(s, s')
    requires s'.client.obj == s.client.obj && s'.client.config == s.client.config
    requires s'.server.addr == s.server.addr && s'.server.config == s.server.config
    ensures Told(w, s')
  {
    hide ToServer, ToClient, PendingFd;
  }

  lemma MoveTold(w: World, s: Session, act: Act, child: nat)
    requires ValidWorld(w) && Inv(w, s) && Told(w, s) && (act.Send? || act.ReadAhead? || act.Output? || act.AutoFlush?)
    ensures Told(w, StepSession(w, s, act, child))
  {
    hide Told, Lockstep, SameStand;
    match act
    case Send =>
      if s.client.todo != [] { SendStand(s); StandTold(w, s, SendOne(s)); }
    case ReadAhead =>
      if s.c2s != [] { ReadAheadStand(s); StandTold(w, s, ReadOne(s)); }
    case Output =>
      if s.server.ops != [] { OutputStand(s); StandTold(w, s, RunOp(s)); }
    case AutoFlush => FlushStand(s); StandTold(w, s, Flushed(s));
  }

  lemma StartTold(w: World, s: Session, act: Act)
    requires ValidWorld(w) && Inv(w, s) && Told(w, s)
    ensures Told(w, Start(w, s, act))
  {
    Stands(w, s);
    hide Lockstep, LittleEndian;
    assert s.client.pc.Fresh? || s.client.pc.Idle? ==> s.server.pc.Recv? by { QuietStands(w, s); }
  }

  lemma QuietStands(w: World, s: Session)
    requires ValidWorld(w) && Inv(w, s)
    ensures s.client.pc.Fresh? || s.client.pc.Idle? ==> s.server.pc.Recv? && ToServer(s) == []
    ensures s.client.pc.WReq? || s.client.pc.RReq? ==> s.client.asked.Some?
  {
    hide OpsToks, FirstFd, WellFormed, Messages, LittleEndian, MemoryReply;
  }

  lemma DecideTold(w: World, s: Session, act: Act)
    requires ValidWorld(w) && Inv(w, s) && Told(w, s)
    ensures Told(w, Decide(w, s, act))
  {
    Stands(w, s);
    hide Lockstep, LittleEndian, PageRequest;
    assert ToServer(Decide(w, s, act)) == ToServer(s);
  }

  // The client takes an answer.

  lemma ConfigReceived(w: World, s: Session)
    requires ValidWorld(w) && Inv(w, s) && s.client.pc.RInit?
    ensures var s' := ClientRecv(w, s); s' == s || (s'.client.pc.WObj? && s'.client.config == Some(w.clientConfig))
  {
    if CONFIG_SIZE <= |s.s2c| && s.client.todo == [] {
      assert ToClient(s) == Raw(w.clientConfig) + ObjectMsg(s.server.sent);
      hide OpsToks, MemoryReply, Value, Lockstep;
      PayloadHead(s, CONFIG_SIZE, w.clientConfig, ObjectMsg(s.server.sent));
    }
  }

  /** What a client keeps when it receives. */
  predicate ReceiveKept(s: Session, s': Session) {
    && s'.client.asked == s.client.asked && s'.server == s.server
    && (!s.client.pc.RInit? ==> s'.client.config == s.client.config)
    && (s'.client.pc == s.client.pc ==> s'.client.obj == s.client.obj && ToServer(s') == ToServer(s))
  }

  lemma HeaderFrame(w: World, s: Session)
    ensures ReceiveKept(s, ClientHeader(s))
  {
  }

  lemma PayloadFrame(w: World, s: Session)
    requires ValidWorld(w)
    ensures WaitsForPayload(s.client.pc) ==> ReceiveKept(s, ClientPayload(w, s))
  {
    hide MemoryReply, Value, Payload, AllBytes, Raw;
  }

  lemma ReceiveFrame(w: World, s: Session)
    requires ValidWorld(w)
    ensures ReceiveKept(s, ClientRecv(w, s))
  {
    hide ClientHeader, ClientPayload;
    HeaderFrame(w, s);
    PayloadFrame(w, s);
  }

  lemma ReceiveTold(w: World, s: Session)
    requires ValidWorld(w) && Inv(w, s) && Told(w, s)
    ensures Told(w, ClientRecv(w, s))
  {
    var s' := ClientRecv(w, s);
    ReceiveFrame(w, s);
    hide Inv, ClientRecv, ToServer;
    ReceiveKeeps(w, s);
    Stands(w, s);
    Stands(w, s');
    QuietStands(w, s);
    if s'.client.pc != s.client.pc && Busy(s.client.pc) {
      RecvMoves(w, s);
      if s.client.pc.RObj? {
        ObjectReceived(w, s);
      }
    } else if !Busy(s.client.pc) {
      NotBusy(w, s);
    }
    if s.client.pc.RInit? {
      ConfigReceived(w, s);
    }
  }

  lemma NotBusy(w: World, s: Session)
    requires ValidWorld(w) && !Busy(s.client.pc)
    ensures ClientRecv(w, s) == s
  {
  }

  // The server takes what has arrived.

  /** What lies before a server that reads an address or a configuration. */
  lemma ReadsWhat(w: World, s: Session)
    requires ValidWorld(w) && Inv(w, s)
    ensures s.server.pc.ReadAddr? ==> s.client.asked.Some? && Reading(s, ReadAddr, LittleEndian(s.client.asked.value, 8))
    ensures s.server.pc.ReadCfg0? || s.server.pc.ReadCfg? ==> Reading(s, s.server.pc, w.serverConfig)
  {
    hide ToServer, ToClient, PendingFd, WellFormed, LittleEndian, MemoryReply, Raw;
  }

  lemma AddressRead(w: World, s: Session, fork: Outcome, obj: seq<byte>)
    requires ValidWorld(w) && Inv(w, s) && s.server.pc.ReadAddr?
    ensures s.client.asked.Some?
    ensures var s' := ServerRecv(w, s, fork, obj);
      s' == s || s'.server == s.server.(inbuf := s'.server.inbuf, recvSz := s'.server.recvSz, pc := Work, addr := s.client.asked.value % Pow256(8))
  {
    hide Inv, LittleEndian, Value, Pow256;
    ReadsWhat(w, s);
    WordTruncates(s.client.asked.value, 8);
    if s.server.ops == [] && 8 <= |s.server.inbuf| {
      assert ToServer(s) == Raw(LittleEndian(s.client.asked.value, 8)) + [];
      BytesHead(s, 8, LittleEndian(s.client.asked.value, 8), []);
    }
  }

  lemma ConfigTaken(w: World, s: Session, fork: Outcome, obj: seq<byte>)
    requires ValidWorld(w) && Inv(w, s) && (s.server.pc.ReadCfg0? || s.server.pc.ReadCfg?)
    ensures var s' := ServerRecv(w, s, fork, obj); s' == s || s'.server.config == Some(w.serverConfig)
  {
    hide Inv, LittleEndian, Value;
    ReadsWhat(w, s);
    if s.server.ops == [] && CONFIG_SIZE <= |s.server.inbuf| {
      assert ToServer(s) == Raw(w.serverConfig) + [];
      BytesHead(s, CONFIG_SIZE, w.serverConfig, []);
    }
  }

  /** What a server keeps when it reads. */
  lemma ServeFrame(w: World, s: Session, fork: Outcome, obj: seq<byte>)
    ensures var s' := ServerRecv(w, s, fork, obj);
      && s'.client == s.client
      && (!s.server.pc.ReadAddr? ==> s'.server.addr == s.server.addr)
      && (!s.server.pc.ReadCfg0? && !s.server.pc.ReadCfg? ==> s'.server.config == s.server.config && s'.server.sent == s.server.sent)
  {
    hide Value, Payload, AllBytes;
  }

  /** A server that waits for a request reads one only if something is under way. */
  lemma NothingToServe(w: World, s: Session, fork: Outcome, obj: seq<byte>)
    requires s.server.pc.Recv? && ToServer(s) == [] && !s.client.pc.Closed? && s.server.recvSz == 0
    ensures ServerRecv(w, s, fork, obj) == s
  {
    assert s.server.inbuf == [];
  }

  lemma RecvTaken(w: World, s: Session, fork: Outcome, obj: seq<byte>)
    requires ValidWorld(w) && Inv(w, s) && s.client.pc.WReq? && s.server.pc.Recv?
    ensures var s' := ServerRecv(w, s, fork, obj); s' == s || s'.server.pc.ReadAddr?
  {
    if ToServer(s) == [] {
      assert s.server.recvSz == 0;
      NothingToServe(w, s, fork, obj);
    } else {
      HeaderUnderWay(w, s);
      hide Inv;
      if s.server.inbuf != [] {
        assert s.server.inbuf[0] == ToServer(s)[0];
      }
    }
  }

  lemma ServeTold(w: World, s: Session, fork: Outcome, obj: seq<byte>)
    requires ValidWorld(w) && ModeZero(w.serverConfig) && Inv(w, s) && Told(w, s) && |obj| <= INT32_MAX
    requires fork.Failed? ==> fork.error != Zeros(4) && |fork.error| == 4
    ensures Told(w, ServerRecv(w, s, fork, obj))
  {
    var s' := ServerRecv(w, s, fork, obj);
    ServeFrame(w, s, fork, obj);
    Stands(w, s);
    QuietStands(w, s);
    hide Inv, ServerRecv, ToServer, Pow256;
    ServeKeeps(w, s, fork, obj);
    Stands(w, s');
    if s' != s {
      if s.server.pc.ReadAddr? {
        AddressRead(w, s, fork, obj);
      } else if s.server.pc.ReadCfg0? || s.server.pc.ReadCfg? {
        ConfigTaken(w, s, fork, obj);
      } else if s.client.pc.WReq? && s.server.pc.Recv? {
        RecvTaken(w, s, fork, obj);
      }
    }
  }

  lemma SessionTold(w: World, s: Session, act: Act, child: nat)
    requires ValidWorld(w) && ModeZero(w.serverConfig) && Inv(w, s) && Told(w, s) && Fits(act)
    ensures Told(w, StepSession(w, s, act, child))
  {
    hide Inv, Told, ClientRecv, ServerRecv, Start, Decide;
    match act
    case Receive => ReceiveTold(w, s);
    case Serve(fork, obj) =>
      ServeTold(w, s, if fork.Some? && fork.value != Zeros(4) && |fork.value| == 4 then Failed(fork.value) else Forked(child), obj);
    case Send => MoveTold(w, s, act, child);
    case ReadAhead => MoveTold(w, s, act, child);
    case Output => MoveTold(w, s, act, child);
    case AutoFlush => MoveTold(w, s, act, child);
    case Translate(_) => StartTold(w, s, act);
    case Fork => StartTold(w, s, act);
    case ThreadInit => StartTold(w, s, act);
    case Close => StartTold(w, s, act);
    case _ => DecideTold(w, s, act);
  }

  // ---- Over every run, forks included ------------------------------------------------

  lemma ChildTold(w: World, s: Session)
    requires ValidWorld(w) && Told(w, s) && AtFork(s)
    ensures Told(w, ChildOf(s))
  {
  }

  lemma StepTold(w: World, sys: System, i: nat, act: Act, j: nat)
    requires ValidWorld(w) && ModeZero(w.serverConfig) && Fits(act) && i < |sys| && j < |Step(w, sys, i, act)|
    requires Inv(w, sys[i]) && Told(w, sys[i]) && (j < |sys| ==> Told(w, sys[j]))
    ensures Told(w, Step(w, sys, i, act)[j])
  {
    hide Inv, StepSession;
    if j == |sys| {
      ChildTold(w, sys[i]);
    } else {
      Others(w, sys, i, act, j);
      hide Step;
      if j == i {
        SessionTold(w, sys[i], act, |sys|);
      }
    }
  }

  lemma {:induction false} RunTold(w: World, schedule: seq<(nat, Act)>)
    requires ValidWorld(w) && ModeZero(w.serverConfig) && AllFit(schedule)
    ensures forall i :: 0 <= i < |Run(w, schedule)| ==> Told(w, Run(w, schedule)[i])
  {
    if schedule != [] {
      var n := |schedule| - 1;
      var sys, i, act := Run(w, schedule[..n]), schedule[n].0, schedule[n].1;
      RunTold(w, schedule[..n]);
      RunInv(w, schedule[..n]);
      hide Told, Inv, Step;
      assert Run(w, schedule) == Step(w, sys, i, act);
      if i < |sys| {
        forall j | 0 <= j < |Run(w, schedule)| ensures Told(w, Run(w, schedule)[j]) {
          StepTold(w, sys, i, act, j);
        }
      } else {
        NoSuch(w, sys, i, act);
      }
    }
  }

  lemma NoSuch(w: World, sys: System, i: nat, act: Act)
    requires ValidWorld(w) && i >= |sys|
    ensures Step(w, sys, i, act) == sys
  {
  }

  /** Both configurations arrive as they are, in every process that has one. */
  lemma ConfigsDelivered(w: World, schedule: seq<(nat, Act)>, i: nat)
    requires ValidWorld(w) && ModeZero(w.serverConfig) && AllFit(schedule) && i < |Run(w, schedule)|
    ensures var s := Run(w, schedule)[i];
      && (s.server.pc.Recv0? || s.server.pc.ReadCfg0? || s.server.config == Some(w.serverConfig))
      && (s.client.config.Some? ==> s.client.config == Some(w.clientConfig))
      && (s.client.asked.None? && (s.client.pc.WObj? || s.client.pc.RObj?) ==> s.client.config == Some(w.clientConfig))
  {
    RunTold(w, schedule);
    hide Run;
    assert Told(w, Run(w, schedule)[i]);
  }

  /** The client of session i makes no new request. */
  predicate NoRequest(later: seq<(nat, Act)>, i: nat) {
    forall k :: 0 <= k < |later| && later[k].0 == i ==> !IsRequest(later[k].1)
  }

  predicate IsRequest(act: Act) {
    act.Translate? || act.Fork? || act.ThreadInit? || act.Close?
  }

  /** The call for a translation of addr, from the request to the return. */
  predicate OnCall(s: Session, addr: nat) {
    s.client.asked == Some(addr) && (Waits(s.client.pc) || s.client.pc.Idle?)
  }

  predicate Waits(pc: ClientPc) {
    pc.WReq? || pc.RReq? || pc.WObj? || pc.RObj?
  }

  lemma OnCallStep(w: World, s: Session, act: Act, child: nat, addr: nat)
    requires ValidWorld(w) && ModeZero(w.serverConfig) && Inv(w, s) && Fits(act) && OnCall(s, addr) && !IsRequest(act)
    ensures OnCall(StepSession(w, s, act, child), addr)
  {
    var s' := StepSession(w, s, act, child);
    if act.Receive? {
      ReceiveFrame(w, s);
      SessionKeeps(w, s, act, child);
      Stands(w, s');
      hide Inv, ClientRecv;
      if Busy(s.client.pc) {
        if s'.client.pc != s.client.pc { RecvMoves(w, s); }
      } else {
        NotBusy(w, s);
      }
    } else {
      ClientKept(w, s, act, child);
    }
  }

  lemma ClientKept(w: World, s: Session, act: Act, child: nat)
    requires ValidWorld(w) && !IsRequest(act) && !act.Receive?
    ensures var s' := StepSession(w, s, act, child);
      s'.client.pc == s.client.pc && s'.client.asked == s.client.asked && s'.client.result == s.client.result
  {
    hide Value, Payload, AllBytes, PageRequest;
  }

  lemma {:induction false} OnCallRun(w: World, schedule: seq<(nat, Act)>, later: seq<(nat, Act)>, i: nat, addr: nat)
    requires ValidWorld(w) && ModeZero(w.serverConfig) && AllFit(schedule) && AllFit(later) && i < |Run(w, schedule)|
    requires OnCall(Run(w, schedule)[i], addr) && NoRequest(later, i)
    ensures i < |Run(w, schedule + later)| && OnCall(Run(w, schedule + later)[i], addr)
    decreases |later|
  {
    hide Run, Step, StepSession, OnCall, Inv;
    if later == [] {
      assert schedule + later == schedule;
    } else {
      var n := |later| - 1;
      var j, act := later[n].0, later[n].1;
      OnCallRun(w, schedule, later[..n], i, addr);
      var h := schedule + later[..n];
      assert schedule + later == h + [(j, act)];
      RunThen(w, h, j, act);
      RunInv(w, h);
      var sys := Run(w, h);
      if j < |sys| {
        Others(w, sys, j, act, i);
        if i == j {
          OnCallStep(w, sys[i], act, |sys|, addr);
        } else {
          NotUnattached(sys[i], addr);
          Attached(sys, j);
        }
      } else {
        NoSuch(w, sys, j, act);
      }
    }
  }

  lemma NotUnattached(s: Session, addr: nat)
    requires OnCall(s, addr)
    ensures !s.client.pc.Unattached?
  {
  }

  lemma Attached(sys: System, j: nat)
    requires j < |sys|
    ensures Attaches(sys, j) ==> sys[j].fd.Some? && sys[j].fd.value < |sys| && sys[sys[j].fd.value].client.pc.Unattached?
  {
  }

  /**
   The server works on the address that the client asked for. From a request for addr on, until the client makes another
   one: when the server is at work on it, asks for memory or has answered, the address it has is addr, as a 64-bit word;
   and when the client's call has returned, the object it has is the one that this server sent for it.
   */
  lemma AddressDelivered(w: World, schedule: seq<(nat, Act)>, i: nat, addr: nat, later: seq<(nat, Act)>)
    requires ValidWorld(w) && ModeZero(w.serverConfig) && AllFit(schedule) && AllFit(later) && NoRequest(later, i)
    requires i < |Run(w, schedule)| && (Run(w, schedule)[i].client.pc.Idle? || Run(w, schedule)[i].client.pc.Fresh?)
    ensures var all := schedule + [(i, Translate(addr))] + later;
      i < |Run(w, all)| &&
      var s := Run(w, all)[i];
      && (Waits(s.client.pc) || s.client.pc.Idle?)
      && (s.server.pc.Work? || s.server.pc.RecvBuf? || s.server.pc.ReadPage? || s.server.pc.ReadFlag? ==> s.server.addr == addr % Pow256(8))
      && (s.client.pc.WObj? || s.client.pc.RObj? ==> s.server.addr == addr % Pow256(8))
      && (s.client.pc.Idle? ==> s.server.addr == addr % Pow256(8) && s.client.obj == s.server.sent)
  {
    var next := schedule + [(i, Translate(addr))];
    RunInv(w, schedule);
    RunThen(w, schedule, i, Translate(addr));
    Others(w, Run(w, schedule), i, Translate(addr), i);
    Requested(w, Run(w, schedule)[i], addr);
    hide Run, Step, StepSession, Inv, Told, OnCall, Pow256;
    OnCallRun(w, next, later, i, addr);
    RunTold(w, next + later);
    RunInv(w, next + later);
    ReadBy(w, Run(w, next + later)[i], addr);
  }

  lemma Requested(w: World, s: Session, addr: nat)
    requires ValidWorld(w) && Inv(w, s) && (s.client.pc.Idle? || s.client.pc.Fresh?)
    ensures OnCall(Start(w, s, Translate(addr)), addr)
  {
  }

  /** A client that is free can make any request, and then waits for its answer. */
  lemma RequestStarts(w: World, schedule: seq<(nat, Act)>, i: nat, act: Act)
    requires ValidWorld(w) && ModeZero(w.serverConfig) && AllFit(schedule) && i < |Run(w, schedule)|
    requires var pc := Run(w, schedule)[i].client.pc;
      (pc.Fresh? && act.ThreadInit?) || ((pc.Fresh? || pc.Idle?) && (act.Fork? || act.Translate?))
    ensures var s := Step(w, Run(w, schedule), i, act)[i];
      && Busy(s.client.pc) && (act.Fork? <==> s.client.pc.WFd?)
      && ToServer(s) == match act case Translate(addr) => TranslateRequest(addr) case Fork => ForkRequest() case _ => InitRequest(w)
  {
    RunInv(w, schedule);
    Others(w, Run(w, schedule), i, act, i);
    hide Run, Step, LittleEndian;
    QuietStands(w, Run(w, schedule)[i]);
    assert Run(w, schedule)[i].client.pushed.None?;
  }

  lemma ReadBy(w: World, s: Session, addr: nat)
    requires ValidWorld(w) && Inv(w, s) && Told(w, s) && OnCall(s, addr)
    ensures Waits(s.client.pc) || s.client.pc.Idle?
    ensures s.server.pc.Work? || s.server.pc.RecvBuf? || s.server.pc.ReadPage? || s.server.pc.ReadFlag? ==> s.server.addr == addr % Pow256(8)
    ensures s.client.pc.WObj? || s.client.pc.RObj? ==> s.server.addr == addr % Pow256(8)
    ensures s.client.pc.Idle? ==> s.server.addr == addr % Pow256(8) && s.client.obj == s.server.sent
  {
    Stands(w, s);
    hide ToServer, Pow256, Inv;
  }

  // ---- The outcome of a fork ---------------------------------------------------------

  /** The reply is e; it is under way, or the client has it. */
  predicate Replied(s: Session, e: seq<byte>) {
    && s.server.reply == e
    && ((s.client.pc.WFd? && ToServer(s) == []) || s.client.pc.RFd? || (s.client.pc.Idle? && s.client.result == e))
  }

  lemma ReplyReceived(w: World, s: Session)
    requires ValidWorld(w) && Inv(w, s) && s.client.pc.RFd?
    ensures var s' := ClientRecv(w, s); s' == s || s'.client.pc.Error? || s'.client.result == s.server.reply
  {
    if s.client.todo == [] && 4 <= |s.s2c| {
      assert ToClient(s) == Raw(s.server.reply) + [] && |s.server.reply| == 4;
      hide OpsToks, MemoryReply, Value, Lockstep;
      PayloadHead(s, 4, s.server.reply, []);
    }
  }

  lemma RepliedReceive(w: World, s: Session, e: seq<byte>)
    requires ValidWorld(w) && Inv(w, s) && Replied(s, e)
    ensures Replied(ClientRecv(w, s), e)
  {
    hide Inv, ClientRecv, ToServer, ReceiveKept, ClientMoves;
    var s' := ClientRecv(w, s);
    ReceiveKeeps(w, s);
    Stands(w, s');
    ReceiveFrame(w, s);
    FrameMeans(s, s');
    if s.client.pc.Idle? {
      NotBusy(w, s);
    } else if s'.client.pc != s.client.pc {
      RecvMoves(w, s);
      MovesMeans(s, s');
      if s.client.pc.RFd? { ReplyReceived(w, s); }
    }
  }

  lemma FrameMeans(s: Session, s': Session)
    requires ReceiveKept(s, s')
    ensures s'.server == s.server && (s'.client.pc == s.client.pc ==> ToServer(s') == ToServer(s))
  {
  }

  lemma MovesMeans(s: Session, s': Session)
    requires ClientMoves(s, s') && (s.client.pc.WFd? || s.client.pc.RFd?) && !s'.client.pc.Error?
    ensures if s.client.pc.WFd? then s'.client.pc.RFd? else s'.client.pc.Idle?
  {
  }

  lemma RepliedStands(w: World, s: Session, e: seq<byte>)
    requires ValidWorld(w) && Inv(w, s) && Replied(s, e)
    ensures s.server.pc.Recv? && ToServer(s) == [] && s.server.recvSz == 0
  {
    hide OpsToks, FirstFd, WellFormed, Messages, LittleEndian, MemoryReply;
  }

  lemma RepliedStep(w: World, s: Session, act: Act, child: nat, e: seq<byte>)
    requires ValidWorld(w) && ModeZero(w.serverConfig) && Inv(w, s) && Fits(act) && Replied(s, e) && !IsRequest(act)
    ensures Replied(StepSession(w, s, act, child), e)
  {
    RepliedStands(w, s, e);
    match act
    case Receive => RepliedReceive(w, s, e);
    case Serve(fork, obj) =>
      hide Inv;
      NothingToServe(w, s, if fork.Some? && fork.value != Zeros(4) && |fork.value| == 4 then Failed(fork.value) else Forked(child), obj);
    case Send => if s.client.todo != [] { hide Inv; SendStand(s); }
    case ReadAhead => if s.c2s != [] { hide Inv; ReadAheadStand(s); }
    case Output => if s.server.ops != [] { OutputStand(s); hide Inv; }
    case AutoFlush => hide Inv; FlushStand(s);
    case _ =>
  }

  lemma {:induction false} RepliedRun(w: World, schedule: seq<(nat, Act)>, later: seq<(nat, Act)>, i: nat, e: seq<byte>)
    requires ValidWorld(w) && ModeZero(w.serverConfig) && AllFit(schedule) && AllFit(later) && i < |Run(w, schedule)|
    requires Replied(Run(w, schedule)[i], e) && NoRequest(later, i)
    ensures i < |Run(w, schedule + later)| && Replied(Run(w, schedule + later)[i], e)
    decreases |later|
  {
    hide Run, Step, StepSession, Inv, ToServer;
    if later == [] {
      assert schedule + later == schedule;
    } else {
      var n := |later| - 1;
      var j, act := later[n].0, later[n].1;
      RepliedRun(w, schedule, later[..n], i, e);
      var h := schedule + later[..n];
      assert schedule + later == h + [(j, act)];
      RunThen(w, h, j, act);
      RunInv(w, h);
      var sys := Run(w, h);
      if j < |sys| {
        Others(w, sys, j, act, i);
        if i == j {
          RepliedStep(w, sys[i], act, |sys|, e);
        } else {
          Attached(sys, j);
        }
      } else {
        NoSuch(w, sys, j, act);
      }
    }
  }

  lemma ForkServed(w: World, s: Session, fork: Outcome)
    requires ValidWorld(w) && Inv(w, s) && AtFork(s)
    ensures Replied(ServerRecv(w, s, fork, []), match fork case Failed(error) => error case Forked(_) => Zeros(4))
    ensures forall obj :: ServerRecv(w, s, fork, obj) == ServerRecv(w, s, fork, [])
  {
    OnlyForkAsks(w, s);
    ForkRequestHead(w, s);
    hide Inv;
    var t := s.(server := s.server.(inbuf := s.server.inbuf[1..]));
    assert ToServer(ServerRecv(w, s, fork, [])) == ToServer(t);
  }

  /** What a fork request comes to is what the client is told: the error code, or zero for a new server. */
  lemma ForkReported(w: World, schedule: seq<(nat, Act)>, i: nat, fork: Option<seq<byte>>, obj: seq<byte>, later: seq<(nat, Act)>)
    requires ValidWorld(w) && ModeZero(w.serverConfig) && AllFit(schedule) && AllFit(later) && NoRequest(later, i) && |obj| <= INT32_MAX
    requires i < |Run(w, schedule)| && AtFork(Run(w, schedule)[i])
    ensures var all := schedule + [(i, Serve(fork, obj))] + later;
      i < |Run(w, all)| &&
      var s := Run(w, all)[i];
      s.client.pc.WFd? || s.client.pc.RFd? ||
      (s.client.pc.Idle? && s.client.result == if fork.Some? && |fork.value| == 4 then fork.value else Zeros(4))
  {
    var act := Serve(fork, obj);
    var next := schedule + [(i, act)];
    var outcome := if fork.Some? && fork.value != Zeros(4) && |fork.value| == 4 then Failed(fork.value) else Forked(|Run(w, schedule)|);
    RunInv(w, schedule);
    RunThen(w, schedule, i, act);
    Others(w, Run(w, schedule), i, act, i);
    ForkServed(w, Run(w, schedule)[i], outcome);
    hide Run, Step, Inv, ServerRecv, ToServer;
    RepliedRun(w, next, later, i, if fork.Some? && |fork.value| == 4 then fork.value else Zeros(4));
  }
}
