/** Every request is answered: a client that waits can always be brought to the end of its call, with the object it is owed. */
module ProtocolProgress {
  import opened Common
  import opened Bytes
  import opened Protocol
  import opened ProtocolLockstep
  import opened ProtocolRuns

  // ---- What can move -----------------------------------------------------------------

  predicate Busy(pc: ClientPc) {
    WaitsForHeader(pc) || WaitsForPayload(pc)
  }

  /** Nothing left to move: all that is under way is where it can be read. */
  predicate Settled(s: Session) {
    s.client.todo == [] && s.c2s == [] && s.server.ops == []
  }

  lemma SettledShares(w: World, s: Session)
    requires ValidWorld(w) && Inv(w, s) && Settled(s)
    ensures ToServer(s) == s.server.inbuf
    ensures s.client.pushed.None? ==> ToClient(s) == s.s2c
  {
  }

  lemma HeaderMovesOn(w: World, s: Session)
    requires ValidWorld(w) && WaitsForHeader(s.client.pc) && s.client.todo == []
    requires s.client.pushed.Some? || s.s2c != []
    ensures ClientRecv(w, s).client.pc != s.client.pc
  {
    assert Fetch(s).client.pushed.Some?;
  }

  lemma PayloadMovesOn(w: World, s: Session)
    requires ValidWorld(w) && WaitsForPayload(s.client.pc) && s.client.todo == []
    requires ReadSize(s.client.pc) <= |s.s2c|
    ensures ClientRecv(w, s).client.pc != s.client.pc
  {
    hide MemoryReply, Value, Payload, AllBytes;
  }

  lemma PayloadThere(w: World, s: Session)
    requires ValidWorld(w) && Inv(w, s) && Settled(s) && WaitsForPayload(s.client.pc)
    requires ToClient(s) != [] || s.client.pc.RObj?
    ensures ReadSize(s.client.pc) <= |s.s2c|
  {
    SettledShares(w, s);
    hide OpsToks, FirstFd, WellFormed, Messages, MemoryReply, LittleEndian;
  }

  lemma ClientCanGo(w: World, s: Session)
    requires ValidWorld(w) && Inv(w, s) && Settled(s) && Busy(s.client.pc)
    requires ToClient(s) != [] || s.client.pc.RObj?
    ensures ClientRecv(w, s).client.pc != s.client.pc
  {
    SettledShares(w, s);
    hide Inv, ClientRecv;
    if WaitsForHeader(s.client.pc) {
      HeaderMovesOn(w, s);
    } else {
      PayloadThere(w, s);
      PayloadMovesOn(w, s);
    }
  }

  lemma MessageTaken(w: World, s: Session, fork: Outcome)
    requires ValidWorld(w) && s.server.recvSz == 0 && s.server.inbuf != [] && s.server.inbuf[0].Hdr?
    ensures ServerMessage(s, fork) != s
  {
    assert |s.server.inbuf[1..]| < |s.server.inbuf|;
  }

  lemma BytesTaken(w: World, s: Session, obj: seq<byte>)
    requires 0 < NeededBytes(s.server.pc) <= |s.server.inbuf|
    ensures ServerPayload(w, s, obj) != s
  {
    var n := NeededBytes(s.server.pc);
    assert |s.server.inbuf[n..]| < |s.server.inbuf|;
  }

  /** A server that reads has the whole payload before it. */
  lemma EnoughToRead(w: World, s: Session)
    requires ValidWorld(w) && Inv(w, s) && Busy(s.client.pc) && !WaitsForMessage(s.server.pc) && ToServer(s) != []
    ensures 0 < NeededBytes(s.server.pc) <= |ToServer(s)|
  {
    hide OpsToks, FirstFd, WellFormed, Messages, LittleEndian, MemoryReply, Value, InitReply, ObjectMsg, PageRequest;
  }

  lemma ServerCanGo(w: World, s: Session, fork: Outcome, obj: seq<byte>)
    requires ValidWorld(w) && Inv(w, s) && Settled(s) && Busy(s.client.pc) && ToServer(s) != []
    ensures ServerRecv(w, s, fork, obj) != s
  {
    SettledShares(w, s);
    if WaitsForMessage(s.server.pc) {
      TowardsServer(w, s);
      assert s.server.recvSz == 0;
      assert s.server.inbuf[0..] == s.server.inbuf;
      MessageTaken(w, s, fork);
    } else {
      EnoughToRead(w, s);
      BytesTaken(w, s, obj);
    }
  }

  /** Either a server is at work on its own, or the answer is under way. */
  lemma WorkOrAnswer(w: World, s: Session)
    requires ValidWorld(w) && Inv(w, s) && Busy(s.client.pc) && ToServer(s) == [] && !s.server.pc.Work?
    ensures ToClient(s) != [] || s.client.pc.RObj?
  {
    hide OpsToks, FirstFd, WellFormed, Messages, LittleEndian, MemoryReply, Value;
    assert s.client.pc.RFd? ==> |ToClient(s)| == 4;
    assert s.client.pc.RInit? ==> |ToClient(s)| >= CONFIG_SIZE;
    assert s.client.pc.RReq? ==> |ToClient(s)| == 16;
  }

  // ---- How far a call is from its end ------------------------------------------------

  predicate Forking(pc: ClientPc) {
    pc.WFd? || pc.RFd?
  }

  /** How many exchanges are still to come before the client is idle again. */
  function Stage(s: Session): nat {
    var asked := ToServer(s) != [];
    match s.client.pc
    case WReq =>
      (match s.server.pc
       case Recv => if asked then 12 else 4
       case ReadAddr => 11
       case RecvBuf => if asked then 8 else 10
       case ReadPage => 7
       case ReadFlag(_) => 6
       case Work => 5
       case _ => 13)
    case RReq => 9
    case WInit =>
      (match s.server.pc
       case Recv0 => 8
       case Recv => if asked then 8 else 6
       case ReadCfg0 => 7
       case ReadCfg => 7
       case _ => 9)
    case RInit => 5
    case WObj => 3
    case RObj(_) => 2
    case WFd => if asked then 3 else 2
    case RFd => 1
    case _ => 0
  }

  /** What still has to be moved before the next exchange. */
  function Left(s: Session): nat {
    2 * |s.client.todo| + |s.c2s| + |s.server.ops|
  }

  /** The server has yet to decide what the client gets. */
  predicate Owes(s: Session) {
    || s.client.pc.RReq?
    || (s.client.pc.WReq? && !(s.server.pc.Recv? && ToServer(s) == []))
    || (s.client.pc.WInit? && (s.server.pc.Recv0? || s.server.pc.ReadCfg0?))
  }

  /** The object that the client will get if the server decides on bs. A server that was forked starts with an empty one. */
  function Coming(s: Session, bs: seq<byte>): seq<byte> {
    if Owes(s) then bs
    else if s.client.pc.WInit? && (s.server.pc.ReadCfg? || ToServer(s) != []) then []
    else s.server.sent
  }

  /** The call goes on towards the same object, or ends with it. */
  predicate Onward(s: Session, s': Session, bs: seq<byte>) {
    && (Busy(s'.client.pc) || s'.client.pc.Idle?)
    && (!Forking(s.client.pc) ==>
          && !Forking(s'.client.pc)
          && (if s'.client.pc.Idle? then s'.client.obj == Coming(s, bs) else Coming(s', bs) == Coming(s, bs)))
    && (Stage(s') < Stage(s) || (Stage(s') == Stage(s) && Left(s') < Left(s)))
  }

  lemma StandOnward(s: Session, s': Session, bs: seq<byte>)
    requires SameStand(s, s') && Left(s') < Left(s) && Busy(s.client.pc)
    ensures Onward(s, s', bs)
  {
    hide ToServer, ToClient, PendingFd;
  }

  /** Moving what is under way. */
  lemma MoveOnward(w: World, s: Session, bs: seq<byte>) returns (act: Act)
    requires ValidWorld(w) && Inv(w, s) && Busy(s.client.pc) && !Settled(s)
    ensures Fits(act) && forall child :: Onward(s, StepSession(w, s, act, child), bs)
    ensures forall child :: SameStand(s, StepSession(w, s, act, child))
  {
    hide Onward, Lockstep, ToClient, ToServer, SameStand;
    if s.client.todo != [] {
      act := Send;
      SendStand(s);
      StandOnward(s, SendOne(s), bs);
    } else if s.c2s != [] {
      act := ReadAhead;
      ReadAheadStand(s);
      StandOnward(s, ReadOne(s), bs);
    } else {
      act := Output;
      OutputStand(s);
      StandOnward(s, RunOp(s), bs);
    }
  }

  lemma OutputStand(s: Session)
    requires s.server.ops != [] && WellFormed(s.server.ops, s.server.out, s.server.wrSz) && (s.fd.Some? ==> s.server.ops == [])
    ensures SameStand(s, RunOp(s)) && Left(RunOp(s)) < Left(s)
  {
    OutputToks(s);
    OutputForm(s);
    hide ToClient, OpsToks, FirstFd;
  }

  // ---- The server takes what has arrived ---------------------------------------------

  /** The header that a server finds where one of its clients waits. */
  lemma HeaderUnderWay(w: World, s: Session)
    requires ValidWorld(w) && Inv(w, s) && Busy(s.client.pc) && s.server.pc.Recv? && ToServer(s) != []
    ensures s.server.recvSz == 0 && ToServer(s)[0].Hdr?
    ensures s.client.pc.WReq? || s.client.pc.WInit? || s.client.pc.WFd?
    ensures s.client.pc.WReq? ==> ToServer(s)[0].id == C_TRANSLATE
    ensures s.client.pc.WInit? ==> ToServer(s)[0].id == C_INIT
    ensures s.client.pc.WFd? ==> ToServer(s)[0].id == C_FORK && |ToServer(s)| == 1
  {
    hide ToServer, ToClient, FirstFd, WellFormed, LittleEndian, MemoryReply, Raw, PendingFd;
  }

  lemma RecvOnward(w: World, s: Session, bs: seq<byte>, fork: Outcome)
    requires ValidWorld(w) && Inv(w, s) && Settled(s) && Busy(s.client.pc) && s.server.pc.Recv? && ToServer(s) != []
    ensures Onward(s, ServerRecv(w, s, fork, bs), bs)
  {
    HeaderUnderWay(w, s);
    SettledShares(w, s);
    hide Lockstep, Inv;
    var s' := ServerRecv(w, s, fork, bs);
    assert s' == OnMessage(s, s.server.inbuf[0], fork);
    assert ToServer(s') == s.server.inbuf[1..];
  }

  /** The other steps of the server, by where it stands. */
  predicate ServerMoves(s: Session, s': Session, bs: seq<byte>) {
    && s'.client == s.client
    && match s.server.pc
       case Recv0 => s'.server.pc.ReadCfg0? || s'.server.pc.Bad?
       case RecvBuf => s'.server.pc.ReadPage? || s'.server.pc.Work? || s'.server.pc.Bad?
       case ReadCfg0 => s'.server.pc.Bad? || (s'.server.pc.Recv? && s'.server.sent == bs)
       case ReadCfg => s'.server.pc.Bad? || (s'.server.pc.Recv? && s'.server.sent == [])
       case ReadAddr => s'.server.pc.Work? || s'.server.pc.Bad?
       case ReadPage => s'.server.pc.ReadFlag? || s'.server.pc.Bad?
       case ReadFlag(_) => s'.server.pc.Work? || s'.server.pc.Bad?
       case _ => true
  }

  lemma ServeMoves(w: World, s: Session, bs: seq<byte>, fork: Outcome)
    requires ValidWorld(w) && s.server.ops == [] && !s.server.pc.Recv? && ServerRecv(w, s, fork, bs) != s
    ensures ServerMoves(s, ServerRecv(w, s, fork, bs), bs)
  {
  }

  /** The configuration is all that a server reads before its first answer. */
  lemma ConfigRead(w: World, s: Session, bs: seq<byte>, fork: Outcome)
    requires ValidWorld(w) && Inv(w, s) && Settled(s) && (s.server.pc.ReadCfg0? || s.server.pc.ReadCfg?)
    requires s.client.pc.WInit? && ServerRecv(w, s, fork, bs).server.pc.Recv?
    ensures ToServer(ServerRecv(w, s, fork, bs)) == []
  {
    SettledShares(w, s);
    hide OpsToks, FirstFd, WellFormed, Messages, LittleEndian, MemoryReply;
    assert |ToServer(s)| == CONFIG_SIZE;
  }

  /** Where a server can stand while its client waits. */
  lemma Stands(w: World, s: Session)
    requires ValidWorld(w) && Inv(w, s)
    ensures !s.server.pc.Bad? && !s.client.pc.Error?
    ensures s.server.pc.Recv0? || s.server.pc.ReadCfg0? || s.server.pc.ReadCfg? ==> s.client.pc.WInit?
    ensures s.server.pc.ReadAddr? || s.server.pc.ReadPage? || s.server.pc.ReadFlag? || s.server.pc.Work? ==> s.client.pc.WReq?
    ensures s.server.pc.RecvBuf? ==> s.client.pc.WReq? || s.client.pc.RReq?
    ensures s.client.pc.RReq? ==> s.server.pc.RecvBuf? && ToServer(s) == []
    ensures s.client.pc.WObj? || s.client.pc.RObj? || s.client.pc.RInit? || s.client.pc.RFd? ==>
      s.server.pc.Recv? && ToServer(s) == []
    ensures s.client.pc.WReq? ==>
      s.server.pc.Recv? || s.server.pc.ReadAddr? || s.server.pc.RecvBuf? || s.server.pc.ReadPage? || s.server.pc.ReadFlag? || s.server.pc.Work?
    ensures s.client.pc.WInit? ==> s.server.pc.Recv0? || s.server.pc.Recv? || s.server.pc.ReadCfg0? || s.server.pc.ReadCfg?
    ensures s.client.pc.WFd? ==> s.server.pc.Recv?
    ensures s.server.pc.Work? ==> ToServer(s) == []
    ensures s.server.pc.Exited? ==> s.client.pc.Closed?
  {
    hide OpsToks, FirstFd, WellFormed, Messages, LittleEndian, MemoryReply;
  }

  lemma ServeOnward(w: World, s: Session, bs: seq<byte>, fork: Outcome)
    requires ValidWorld(w) && ModeZero(w.serverConfig) && Inv(w, s) && Settled(s) && Busy(s.client.pc) && ToServer(s) != []
    requires |bs| <= INT32_MAX && fork.Forked?
    ensures Onward(s, ServerRecv(w, s, fork, bs), bs)
  {
    hide Inv, ServerRecv, ToServer;
    var s' := ServerRecv(w, s, fork, bs);
    if s.server.pc.Recv? {
      RecvOnward(w, s, bs, fork);
    } else {
      ServeKeeps(w, s, fork, bs);
      ServerCanGo(w, s, fork, bs);
      ServeMoves(w, s, bs, fork);
      Stands(w, s);
      Stands(w, s');
      if s'.server.pc.Recv? && s.client.pc.WInit? {
        ConfigRead(w, s, bs, fork);
      }
    }
  }

  // ---- The server decides ------------------------------------------------------------

  lemma DecideOnward(w: World, s: Session, bs: seq<byte>)
    requires ValidWorld(w) && Inv(w, s) && Settled(s) && s.server.pc.Work? && ToServer(s) == [] && |bs| <= INT32_MAX
    ensures Onward(s, Decide(w, s, Translated(bs)), bs)
  {
    Stands(w, s);
    hide Lockstep;
    assert ToServer(Decide(w, s, Translated(bs))) == ToServer(s);
  }

  // ---- The client takes the answer ---------------------------------------------------

  predicate ClientMoves(s: Session, s': Session) {
    && s'.server == s.server
    && (!s.client.pc.RReq? ==> ToServer(s') == ToServer(s))
    && match s.client.pc
       case WInit => s'.client.pc.RInit? || s'.client.pc.Error?
       case RInit => s'.client.pc.WObj? || s'.client.pc.Error?
       case WObj => s'.client.pc.RObj? || s'.client.pc.Error?
       case RObj(_) => s'.client.pc.Idle? || s'.client.pc.Error?
       case WReq => s'.client.pc.WObj? || s'.client.pc.RReq? || s'.client.pc.Error?
       case RReq => s'.client.pc.WReq? || s'.client.pc.Error?
       case WFd => s'.client.pc.RFd? || s'.client.pc.Error?
       case RFd => s'.client.pc.Idle? || s'.client.pc.Error?
       case _ => true
  }

  lemma RecvMoves(w: World, s: Session)
    requires ValidWorld(w) && Busy(s.client.pc) && ClientRecv(w, s).client.pc != s.client.pc
    ensures ClientMoves(s, ClientRecv(w, s))
  {
    hide ClientRecv, ClientMoves;
    if WaitsForHeader(s.client.pc) {
      HeaderMoves(w, s);
    } else {
      PayloadMoves(w, s);
    }
  }

  lemma HeaderMoves(w: World, s: Session)
    requires ValidWorld(w) && WaitsForHeader(s.client.pc) && ClientRecv(w, s).client.pc != s.client.pc
    ensures ClientMoves(s, ClientRecv(w, s))
  {
    hide ClientPayload;
  }

  lemma PayloadMoves(w: World, s: Session)
    requires ValidWorld(w) && WaitsForPayload(s.client.pc) && ClientRecv(w, s).client.pc != s.client.pc
    ensures ClientMoves(s, ClientRecv(w, s))
  {
    hide MemoryReply, Value, Payload, AllBytes, ClientHeader;
  }

  lemma ReceiveOnward(w: World, s: Session, bs: seq<byte>)
    requires ValidWorld(w) && Inv(w, s) && Settled(s) && Busy(s.client.pc) && ToServer(s) == [] && !s.server.pc.Work?
    ensures Onward(s, ClientRecv(w, s), bs)
  {
    hide Inv, ClientRecv, ToServer;
    var s' := ClientRecv(w, s);
    WorkOrAnswer(w, s);
    ClientCanGo(w, s);
    RecvMoves(w, s);
    ReceiveKeeps(w, s);
    Stands(w, s);
    Stands(w, s');
    if s.client.pc.RObj? {
      ObjectReceived(w, s);
    } else if s.client.pc.RReq? {
      RequestLeaves(w, s);
    }
  }

  /** The reply to a request for memory is not empty. */
  lemma RequestLeaves(w: World, s: Session)
    requires ValidWorld(w) && Inv(w, s) && Settled(s) && s.client.pc.RReq?
    requires ClientRecv(w, s).client.pc.WReq?
    ensures ToServer(ClientRecv(w, s)) != []
  {
    hide OpsToks, FirstFd, WellFormed, Messages, LittleEndian, Value, Payload, AllBytes, Lockstep;
    assert ClientRecv(w, s).client.todo != [];
  }

  // ---- Every request is answered -----------------------------------------------------

  /** A client that waits can go on, whatever the server decides on. */
  lemma GoesOn(w: World, s: Session, bs: seq<byte>) returns (act: Act)
    requires ValidWorld(w) && ModeZero(w.serverConfig) && Inv(w, s) && Busy(s.client.pc) && |bs| <= INT32_MAX
    ensures Fits(act) && forall child :: Onward(s, StepSession(w, s, act, child), bs)
  {
    hide Inv, Onward, ServerRecv, ClientRecv, Decide;
    if !Settled(s) {
      act := MoveOnward(w, s, bs);
    } else if ToServer(s) != [] {
      act := Serve(None, bs);
      forall child ensures Onward(s, StepSession(w, s, act, child), bs) {
        ServeOnward(w, s, bs, Forked(child));
      }
    } else if s.server.pc.Work? {
      act := Translated(bs);
      DecideOnward(w, s, bs);
    } else {
      act := Receive;
      ReceiveOnward(w, s, bs);
    }
  }

  /** A client that waits is never stuck: some step of its session is possible. */
  lemma NoDeadlock(w: World, schedule: seq<(nat, Act)>, i: nat, child: nat) returns (act: Act)
    requires ValidWorld(w) && ModeZero(w.serverConfig) && AllFit(schedule) && i < |Run(w, schedule)| && Busy(Run(w, schedule)[i].client.pc)
    ensures StepSession(w, Run(w, schedule)[i], act, child) != Run(w, schedule)[i]
  {
    RunInv(w, schedule);
    hide Run, Inv, Stage, Left, StepSession, Coming;
    act := GoesOn(w, Run(w, schedule)[i], []);
    assert Onward(Run(w, schedule)[i], StepSession(w, Run(w, schedule)[i], act, child), []);
  }

  predicate StepsOf(later: seq<(nat, Act)>, i: nat) {
    forall k :: 0 <= k < |later| ==> later[k].0 == i
  }

  /** The call of session i has ended, and a client that waited for an object has it. */
  predicate Done(s: Session, s': Session, bs: seq<byte>) {
    s'.client.pc.Idle? && (!Forking(s.client.pc) ==> s'.client.obj == Coming(s, bs))
  }

  /**
   From every moment of every run, a client that waits comes to the end of its call by steps of its own session alone:
   whatever object the server decides on, it is the one the client gets, unless the server has answered already.
   */
  lemma {:induction false} AnswerArrives(w: World, schedule: seq<(nat, Act)>, i: nat, bs: seq<byte>) returns (later: seq<(nat, Act)>)
    requires ValidWorld(w) && ModeZero(w.serverConfig) && AllFit(schedule) && i < |Run(w, schedule)| && |bs| <= INT32_MAX
    requires Busy(Run(w, schedule)[i].client.pc)
    ensures AllFit(later) && StepsOf(later, i) && i < |Run(w, schedule + later)|
    ensures Done(Run(w, schedule)[i], Run(w, schedule + later)[i], bs)
    decreases Stage(Run(w, schedule)[i]), Left(Run(w, schedule)[i])
  {
    hide Run, Onward, Done, Stage, Left;
    var act := StepOn(w, schedule, i, bs);
    var s, next := Run(w, schedule)[i], schedule + [(i, act)];
    var s' := Run(w, next)[i];
    OnwardMeans(s, s', bs);
    if s'.client.pc.Idle? {
      later := [(i, act)];
    } else {
      var rest := AnswerArrives(w, next, i, bs);
      later := [(i, act)] + rest;
      assert schedule + later == next + rest;
      DoneLater(s, s', Run(w, next + rest)[i], bs);
    }
  }

  lemma OnwardMeans(s: Session, s': Session, bs: seq<byte>)
    requires Onward(s, s', bs)
    ensures s'.client.pc.Idle? ==> Done(s, s', bs)
    ensures !s'.client.pc.Idle? ==> Busy(s'.client.pc)
    ensures Stage(s') < Stage(s) || (Stage(s') == Stage(s) && Left(s') < Left(s))
  {
    hide Stage, Left, Coming;
  }

  lemma DoneLater(s: Session, s': Session, s'': Session, bs: seq<byte>)
    requires Onward(s, s', bs) && !s'.client.pc.Idle? && Done(s', s'', bs)
    ensures Done(s, s'', bs)
  {
    hide Stage, Left, Coming;
  }

  lemma StepOn(w: World, schedule: seq<(nat, Act)>, i: nat, bs: seq<byte>) returns (act: Act)
    requires ValidWorld(w) && ModeZero(w.serverConfig) && AllFit(schedule) && i < |Run(w, schedule)| && |bs| <= INT32_MAX
    requires Busy(Run(w, schedule)[i].client.pc)
    ensures AllFit(schedule + [(i, act)]) && Fits(act) && i < |Run(w, schedule + [(i, act)])|
    ensures Onward(Run(w, schedule)[i], Run(w, schedule + [(i, act)])[i], bs)
  {
    RunInv(w, schedule);
    hide Inv, StepSession, Onward, Run, Step;
    var sys := Run(w, schedule);
    act := GoesOn(w, sys[i], bs);
    RunThen(w, schedule, i, act);
    Others(w, sys, i, act, i);
  }

  lemma RunThen(w: World, schedule: seq<(nat, Act)>, i: nat, act: Act)
    requires ValidWorld(w)
    ensures Run(w, schedule + [(i, act)]) == Step(w, Run(w, schedule), i, act)
  {
    var all := schedule + [(i, act)];
    assert all[..|all| - 1] == schedule;
  }

  // ---- Every page that is asked for arrives ------------------------------------------

  /** A request for the page at addr is under way, or its answer. */
  predicate Fetching(s: Session, addr: nat) {
    && s.server.want == addr && (s.server.pc.RecvBuf? || s.server.pc.ReadPage? || s.server.pc.ReadFlag?)
    && (s.client.pc.WReq? || s.client.pc.RReq?)
  }

  /** The server has what the guest has there. */
  predicate Fetched(w: World, s: Session, addr: nat) {
    s.server.pc.Work? && s.server.page == w.mem(addr)
  }

  lemma WantKept(w: World, s: Session, fork: Outcome, obj: seq<byte>)
    ensures ServerRecv(w, s, fork, obj).server.want == s.server.want
  {
    hide Value, Payload, AllBytes;
  }

  lemma MemoryHeader(w: World, s: Session, fork: Outcome)
    requires ValidWorld(w) && Inv(w, s) && s.server.ops == [] && s.server.inbuf != [] && s.server.pc.RecvBuf?
    ensures !ServerRecv(w, s, fork, []).server.pc.Work?
  {
    MemoryMessageKeeps(w, s, fork);
    hide Inv, ToServer;
  }

  lemma FlagFetches(w: World, s: Session, fork: Outcome)
    requires ValidWorld(w) && Inv(w, s) && s.server.ops == [] && s.server.pc.ReadFlag?
    ensures var s' := ServerRecv(w, s, fork, []); s' == s || s'.server.page == w.mem(s.server.want)
  {
    FlagReadKeeps(w, s, []);
    hide Inv, ServerPayload;
  }

  lemma ServeFetches(w: World, s: Session, fork: Outcome, addr: nat)
    requires ValidWorld(w) && ModeZero(w.serverConfig) && Inv(w, s) && Settled(s) && Fetching(s, addr) && ToServer(s) != [] && fork.Forked?
    ensures var s' := ServerRecv(w, s, fork, []); Fetching(s', addr) || Fetched(w, s', addr)
  {
    hide Inv, ServerRecv, ToServer;
    var s' := ServerRecv(w, s, fork, []);
    ServerCanGo(w, s, fork, []);
    ServeMoves(w, s, [], fork);
    ServeKeeps(w, s, fork, []);
    Stands(w, s');
    WantKept(w, s, fork, []);
    if s.server.pc.RecvBuf? {
      SettledShares(w, s);
      MemoryHeader(w, s, fork);
    } else if s.server.pc.ReadFlag? {
      FlagFetches(w, s, fork);
    }
  }

  lemma ReceiveFetches(w: World, s: Session, addr: nat)
    requires ValidWorld(w) && Inv(w, s) && Settled(s) && Fetching(s, addr) && ToServer(s) == []
    ensures Fetching(ClientRecv(w, s), addr)
  {
    hide Inv, ClientRecv, ToServer;
    WorkOrAnswer(w, s);
    ClientCanGo(w, s);
    RecvMoves(w, s);
    ReceiveKeeps(w, s);
    Stands(w, ClientRecv(w, s));
  }

  lemma FetchOn(w: World, s: Session, addr: nat) returns (act: Act)
    requires ValidWorld(w) && ModeZero(w.serverConfig) && Inv(w, s) && Fetching(s, addr)
    ensures Fits(act)
    ensures forall child :: var s' := StepSession(w, s, act, child);
      Fetched(w, s', addr) || (Fetching(s', addr) && Onward(s, s', []))
  {
    hide Inv, Onward, ServerRecv, ClientRecv, Decide, ToServer, Fetched;
    if !Settled(s) {
      act := MoveOnward(w, s, []);
      forall child ensures Fetching(StepSession(w, s, act, child), addr) && Onward(s, StepSession(w, s, act, child), []) {
        StandFetches(s, StepSession(w, s, act, child), addr);
      }
    } else if ToServer(s) != [] {
      act := Serve(None, []);
      forall child ensures var s' := StepSession(w, s, act, child); Fetched(w, s', addr) || (Fetching(s', addr) && Onward(s, s', [])) {
        ServeOnward(w, s, [], Forked(child));
        ServeFetches(w, s, Forked(child), addr);
      }
    } else {
      act := Receive;
      ReceiveOnward(w, s, []);
      ReceiveFetches(w, s, addr);
    }
  }

  lemma StandFetches(s: Session, s': Session, addr: nat)
    requires SameStand(s, s') && Fetching(s, addr)
    ensures Fetching(s', addr)
  {
  }

  lemma {:induction false} FetchEnds(w: World, schedule: seq<(nat, Act)>, i: nat, addr: nat) returns (later: seq<(nat, Act)>)
    requires ValidWorld(w) && ModeZero(w.serverConfig) && AllFit(schedule) && i < |Run(w, schedule)| && Fetching(Run(w, schedule)[i], addr)
    ensures AllFit(later) && StepsOf(later, i) && i < |Run(w, schedule + later)| && Fetched(w, Run(w, schedule + later)[i], addr)
    decreases Stage(Run(w, schedule)[i]), Left(Run(w, schedule)[i])
  {
    hide Run, Onward, Fetching, Fetched, Stage, Left;
    var act := FetchStep(w, schedule, i, addr);
    var s, next := Run(w, schedule)[i], schedule + [(i, act)];
    if Fetched(w, Run(w, next)[i], addr) {
      later := [(i, act)];
    } else {
      OnwardMeans(s, Run(w, next)[i], []);
      var rest := FetchEnds(w, next, i, addr);
      later := [(i, act)] + rest;
      assert schedule + later == next + rest;
    }
  }

  lemma FetchStep(w: World, schedule: seq<(nat, Act)>, i: nat, addr: nat) returns (act: Act)
    requires ValidWorld(w) && ModeZero(w.serverConfig) && AllFit(schedule) && i < |Run(w, schedule)| && Fetching(Run(w, schedule)[i], addr)
    ensures AllFit(schedule + [(i, act)]) && Fits(act) && i < |Run(w, schedule + [(i, act)])|
    ensures var s, s' := Run(w, schedule)[i], Run(w, schedule + [(i, act)])[i];
      Fetched(w, s', addr) || (Fetching(s', addr) && Onward(s, s', []))
  {
    RunInv(w, schedule);
    hide Run, Step, StepSession, Inv, Onward, Fetching, Fetched;
    var sys := Run(w, schedule);
    act := FetchOn(w, sys[i], addr);
    RunThen(w, schedule, i, act);
    Others(w, sys, i, act, i);
  }

  /**
   A server at work can ask for any page at any moment, and steps of its session alone bring it what the guest has
   there, or the news that there is nothing.
   */
  lemma PageArrives(w: World, schedule: seq<(nat, Act)>, i: nat, addr: nat) returns (later: seq<(nat, Act)>)
    requires ValidWorld(w) && ModeZero(w.serverConfig) && AllFit(schedule) && i < |Run(w, schedule)|
    requires Run(w, schedule)[i].server.pc.Work? && addr < Pow256(8)
    ensures AllFit(later) && StepsOf(later, i)
    ensures var all := schedule + [(i, AskPage(addr))] + later; i < |Run(w, all)| && Fetched(w, Run(w, all)[i], addr)
  {
    var next := schedule + [(i, AskPage(addr))];
    RunInv(w, schedule);
    RunThen(w, schedule, i, AskPage(addr));
    Others(w, Run(w, schedule), i, AskPage(addr), i);
    AtWorkAlone(w, Run(w, schedule)[i]);
    hide Run, Step, Inv, Fetched;
    later := FetchEnds(w, next, i, addr);
  }

  // ---- Exactly which answers arrive --------------------------------------------------

  /** The server has failed its assertion, and nothing is under way to the client that waits for it. */
  predicate Stuck(s: Session) {
    && s.server.pc.Bad? && s.client.pc.WReq?
    && s.client.pushed.None? && s.s2c == [] && s.server.out == [] && s.server.ops == []
  }

  lemma StuckSession(w: World, s: Session, act: Act, child: nat)
    requires ValidWorld(w) && Stuck(s)
    ensures Stuck(StepSession(w, s, act, child))
  {
    assert ClientRecv(w, s) == s && RunOp(s) == s && forall fork, obj :: ServerRecv(w, s, fork, obj) == s;
  }

  lemma {:induction false} StuckForGood(w: World, schedule: seq<(nat, Act)>, later: seq<(nat, Act)>, i: nat)
    requires ValidWorld(w) && i < |Run(w, schedule)| && Stuck(Run(w, schedule)[i])
    ensures i < |Run(w, schedule + later)| && Stuck(Run(w, schedule + later)[i])
    decreases |later|
  {
    hide Run, Step, StepSession, Stuck;
    if later == [] {
      assert schedule + later == schedule;
    } else {
      var n := |later| - 1;
      StuckForGood(w, schedule, later[..n], i);
      assert schedule + later == schedule + later[..n] + [(later[n].0, later[n].1)];
      RunThen(w, schedule + later[..n], later[n].0, later[n].1);
      StuckStep(w, Run(w, schedule + later[..n]), later[n].0, later[n].1, i);
    }
  }

  lemma StuckStep(w: World, sys: System, j: nat, act: Act, i: nat)
    requires ValidWorld(w) && i < |sys| && Stuck(sys[i])
    ensures i < |Step(w, sys, j, act)| && Stuck(Step(w, sys, j, act)[i])
  {
    if j < |sys| {
      Others(w, sys, j, act, i);
      StuckSession(w, sys[i], act, |sys|);
      hide Step, StepSession;
    }
  }

  /** Some continuation brings the object to the client. */
  ghost predicate CanArrive(w: World, schedule: seq<(nat, Act)>, i: nat, bs: seq<byte>)
    requires ValidWorld(w)
  {
    exists later :: i < |Run(w, schedule + later)| && Has(Run(w, schedule + later)[i], bs)
  }

  predicate Has(s: Session, bs: seq<byte>) {
    s.client.pc.Idle? && s.client.obj == bs
  }

  lemma Decided(w: World, s: Session, act: Act, bs: seq<byte>)
    requires ValidWorld(w) && Inv(w, s) && s.server.pc.Work? && (act == Translated(bs) || act == CacheHit(bs))
    ensures var s' := Decide(w, s, act);
      if |bs| > INT32_MAX then Stuck(s') else s'.client.pc.WReq? && forall any :: Coming(s', any) == bs
  {
    AtWorkAlone(w, s);
    hide Inv;
    assert ToServer(Decide(w, s, act)) == ToServer(s);
  }

  lemma AtWorkAlone(w: World, s: Session)
    requires ValidWorld(w) && Inv(w, s) && s.server.pc.Work?
    ensures s.client.pc.WReq? && s.client.pushed.None? && s.s2c == [] && s.server.out == [] && s.server.ops == []
    ensures ToServer(s) == [] && !s.server.need
  {
    Stands(w, s);
    hide FirstFd, WellFormed, Messages, LittleEndian, MemoryReply;
    assert ToClient(s) == [];
  }

  /** At every moment of every run, what a server at work decides on can reach its client exactly if a header can announce it. */
  lemma ArrivesExactly(w: World, schedule: seq<(nat, Act)>, i: nat, act: Act, bs: seq<byte>)
    requires ValidWorld(w) && ModeZero(w.serverConfig) && AllFit(schedule) && i < |Run(w, schedule)|
    requires Run(w, schedule)[i].server.pc.Work? && (act == Translated(bs) || act == CacheHit(bs))
    ensures CanArrive(w, schedule + [(i, act)], i, bs) <==> |bs| <= INT32_MAX
  {
    RunInv(w, schedule);
    var s, next := Run(w, schedule)[i], schedule + [(i, act)];
    Decided(w, s, act, bs);
    RunThen(w, schedule, i, act);
    Others(w, Run(w, schedule), i, act, i);
    hide Inv, Run, Step, Decide, Coming, Stuck;
    var s' := Run(w, next)[i];
    assert s' == Decide(w, s, act);
    if |bs| <= INT32_MAX {
      var later := AnswerArrives(w, next, i, []);
      assert Has(Run(w, next + later)[i], bs);
    } else {
      forall later | i < |Run(w, next + later)| ensures !Has(Run(w, next + later)[i], bs) {
        StuckForGood(w, next, later, i);
        StuckWaits(Run(w, next + later)[i], bs);
      }
    }
  }

  lemma StuckWaits(s: Session, bs: seq<byte>)
    requires Stuck(s)
    ensures !Has(s, bs)
  {
  }
}
