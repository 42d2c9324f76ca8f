/** Whole runs of the protocol, over any number of sessions that fork from one another. */
module ProtocolRuns {
  import opened Common
  import opened Bytes
  import opened Protocol
  import opened ProtocolLockstep

  // ---- Every session of every run ----------------------------------------------------

  /** Descriptors under way lead to distinct sessions that nobody has received yet. */
  ghost predicate FdsLead(sys: System) {
    && (forall i :: 0 <= i < |sys| && PendingFd(sys[i]).Some? ==>
          PendingFd(sys[i]).value < |sys| && sys[PendingFd(sys[i]).value].client.pc.Unattached?)
    && (forall i, j :: 0 <= i < j < |sys| && PendingFd(sys[i]).Some? ==> PendingFd(sys[i]) != PendingFd(sys[j]))
  }

  ghost predicate SystemInv(w: World, sys: System)
    requires ValidWorld(w)
  {
    (forall i :: 0 <= i < |sys| ==> Inv(w, sys[i])) && FdsLead(sys)
  }

  predicate FdMoves(s: Session, s': Session, forked: bool, child: nat) {
    || PendingFd(s') == None
    || (PendingFd(s') == PendingFd(s) && !forked)
    || (PendingFd(s') == Some(child) && forked)
  }

  lemma FdReceive(w: World, s: Session)
    requires ValidWorld(w) && (s.fd.Some? ==> s.server.ops == [])
    ensures PendingFd(ClientRecv(w, s)) == None || PendingFd(ClientRecv(w, s)) == PendingFd(s)
  {
    var s' := ClientRecv(w, s);
    assert s'.server == s.server && (s'.fd == s.fd || s'.fd == None);
  }

  lemma FdOutputStep(s: Session)
    requires WellFormed(s.server.ops, s.server.out, s.server.wrSz) && (s.fd.Some? ==> s.server.ops == [])
    ensures PendingFd(RunOp(s)) == PendingFd(s)
  {
    if s.server.ops != [] {
      OutputForm(s);
    }
  }

  lemma FdFork(w: World, s: Session, fork: Option<seq<byte>>, obj: seq<byte>, child: nat)
    requires ValidWorld(w) && Inv(w, s) && AtFork(s)
    ensures var s' := StepSession(w, s, Serve(fork, obj), child);
      FdMoves(s, s', ForkSucceeds(s, Serve(fork, obj)), child)
  {
    OnlyForkAsks(w, s);
    TwoOps(PutHdr(S_FD, 4), SendFd(Zeros(4), child));
    if fork.Some? && fork.value != Zeros(4) && |fork.value| == 4 {
      TwoOps(PutHdr(S_FD, 4), Write(fork.value));
    }
  }

  lemma FdServe(w: World, s: Session, fork: Outcome, obj: seq<byte>)
    requires ValidWorld(w) && Inv(w, s) && !AtFork(s) && (s.client.pc.WFd? || s.client.pc.RFd?)
    ensures ServerRecv(w, s, fork, obj) == s
  {
    assert s.server.pc.Recv? && s.server.recvSz == 0;
    if s.server.ops == [] && s.server.inbuf != [] {
      assert ToServer(s) != [];
      ForkRequestHead(w, s);
      assert false;
    }
  }

  lemma ServeLeavesClient(w: World, s: Session, fork: Outcome, obj: seq<byte>)
    ensures ServerRecv(w, s, fork, obj).client == s.client
  {
  }

  lemma FdServeStep(w: World, s: Session, fork: Option<seq<byte>>, obj: seq<byte>, child: nat)
    requires ValidWorld(w) && ModeZero(w.serverConfig) && Inv(w, s) && |obj| <= INT32_MAX
    ensures FdMoves(s, StepSession(w, s, Serve(fork, obj), child), ForkSucceeds(s, Serve(fork, obj)), child)
  {
    hide Lockstep, ServerRecv;
    var outcome := if fork.Some? && fork.value != Zeros(4) && |fork.value| == 4 then Failed(fork.value) else Forked(child);
    if s.client.pc.WFd? || s.client.pc.RFd? {
      if AtFork(s) {
        FdFork(w, s, fork, obj, child);
      } else {
        FdServe(w, s, outcome, obj);
      }
    } else {
      SessionKeeps(w, s, Serve(fork, obj), child);
      ServeLeavesClient(w, s, outcome, obj);
    }
  }

  lemma FdDecide(w: World, s: Session, act: Act)
    requires ValidWorld(w) && Inv(w, s) && Fits(act)
    ensures PendingFd(Decide(w, s, act)) == None || Decide(w, s, act) == s
  {
    if s.server.pc.Work? && s.server.ops == [] {
      AtWork(w, s);
      DecideKeeps(w, s, act);
      DecideClient(w, s, act);
      hide Lockstep, Decide, PendingFd, WellFormed;
    }
  }

  lemma DecideClient(w: World, s: Session, act: Act)
    ensures Decide(w, s, act).client == s.client
  {
  }

  lemma FdStep(w: World, s: Session, act: Act, child: nat)
    requires ValidWorld(w) && ModeZero(w.serverConfig) && Inv(w, s) && Fits(act)
    ensures FdMoves(s, StepSession(w, s, act, child), ForkSucceeds(s, act), child)
  {
    match act
    case Receive => FdReceive(w, s);
    case Output => FdOutputStep(s);
    case Serve(fork, obj) => FdServeStep(w, s, fork, obj, child);
    case AskPage(_) => FdDecide(w, s, act);
    case CacheHit(_) => FdDecide(w, s, act);
    case Translated(_) => FdDecide(w, s, act);
    case _ =>
  }

  /** A fork request at the head of the input means that nothing else is under way anywhere. */
  lemma OnlyForkAsks(w: World, s: Session)
    requires ValidWorld(w) && Inv(w, s) && AtFork(s)
    ensures s.client.pc.WFd? && Asked(s, ForkRequest(), Recv) && s.server.inbuf[0] == Hdr(C_FORK, 0) && PendingFd(s).None?
  {
    assert ToServer(s) != [];
    if s.client.pc.WInit? {
      InitMessageKeeps(w, s, Forked(0));
    } else if s.client.pc.WReq? {
      TranslateMessageKeeps(w, s, Forked(0));
    } else {
      ForkRequestHead(w, s);
    }
  }

  lemma UnattachedStays(w: World, s: Session, act: Act, child: nat)
    requires ValidWorld(w) && s.client.pc.Unattached?
    ensures StepSession(w, s, act, child).client.pc.Unattached?
  {
  }

  predicate Attaches(sys: System, i: nat)
    requires i < |sys|
  {
    var s := sys[i];
    && s.client.pc.RFd? && s.client.todo == [] && s.fd.Some? && s.fd.value < |sys| && s.fd.value != i
    && sys[s.fd.value].client.pc.Unattached? && |s.s2c| >= 4 && s.s2c[..4] == Raw(Zeros(4))
  }

  lemma AttachConsumes(w: World, sys: System, i: nat)
    requires ValidWorld(w) && i < |sys| && Inv(w, sys[i]) && Attaches(sys, i)
    ensures PendingFd(ClientRecv(w, sys[i])) == None && PendingFd(sys[i]) == sys[i].fd
    ensures ClientRecv(w, sys[i]).client.pc.Idle?
  {
    PayloadOfRaw(Zeros(4), []);
  }

  /** What a step does to session j. */
  lemma Others(w: World, sys: System, i: nat, act: Act, j: nat)
    requires ValidWorld(w) && i < |sys| && j < |sys|
    ensures |Step(w, sys, i, act)| == |sys| + if ForkSucceeds(sys[i], act) then 1 else 0
    ensures j == i ==> Step(w, sys, i, act)[j] == StepSession(w, sys[i], act, |sys|)
    ensures j != i && act.Receive? && Attaches(sys, i) && sys[i].fd == Some(j)
      ==> Step(w, sys, i, act)[j] == sys[j].(client := sys[j].client.(pc := Fresh))
    ensures j != i && !(act.Receive? && Attaches(sys, i) && sys[i].fd == Some(j))
      ==> Step(w, sys, i, act)[j] == sys[j]
  {
  }

  lemma ChildInv(w: World, s: Session)
    requires ValidWorld(w) && Inv(w, s) && AtFork(s)
    ensures Inv(w, ChildOf(s)) && PendingFd(ChildOf(s)) == None
  {
    OnlyForkAsks(w, s);
    assert ToServer(ChildOf(s)) == [] && ToClient(ChildOf(s)) == [];
  }

  lemma AttachedInv(w: World, s: Session)
    requires ValidWorld(w) && Inv(w, s) && s.client.pc.Unattached?
    ensures Inv(w, s.(client := s.client.(pc := Fresh)))
  {
    var s' := s.(client := s.client.(pc := Fresh));
    assert ToServer(s') == ToServer(s) && ToClient(s') == ToClient(s);
  }

  lemma StepSessionAt(w: World, sys: System, i: nat, act: Act, j: nat)
    requires ValidWorld(w) && ModeZero(w.serverConfig) && Fits(act) && i < |sys| && j < |Step(w, sys, i, act)|
    requires Inv(w, sys[i]) && (j < |sys| ==> Inv(w, sys[j]))
    ensures Inv(w, Step(w, sys, i, act)[j])
  {
    if j == |sys| {
      ChildInv(w, sys[i]);
    } else {
      Others(w, sys, i, act, j);
      if j == i {
        SessionKeeps(w, sys[i], act, |sys|);
      } else if act.Receive? && Attaches(sys, i) && sys[i].fd == Some(j) {
        AttachedInv(w, sys[j]);
      }
    }
  }

  lemma StepSessions(w: World, sys: System, i: nat, act: Act)
    requires ValidWorld(w) && ModeZero(w.serverConfig) && Fits(act) && SystemInv(w, sys) && i < |sys|
    ensures forall j :: 0 <= j < |Step(w, sys, i, act)| ==> Inv(w, Step(w, sys, i, act)[j])
  {
    Others(w, sys, i, act, i);
    forall j | 0 <= j < |Step(w, sys, i, act)| ensures Inv(w, Step(w, sys, i, act)[j]) {
      StepSessionAt(w, sys, i, act, j);
    }
  }

  lemma StepFd(w: World, sys: System, i: nat, act: Act, j: nat)
    requires ValidWorld(w) && ModeZero(w.serverConfig) && Fits(act) && SystemInv(w, sys) && i < |sys|
    requires j < |Step(w, sys, i, act)| && PendingFd(Step(w, sys, i, act)[j]).Some?
    ensures j < |sys|
    ensures var fd := PendingFd(Step(w, sys, i, act)[j]);
      || (fd == PendingFd(sys[j]) && (j == i ==> !ForkSucceeds(sys[i], act) && !(act.Receive? && Attaches(sys, i))))
      || (fd == Some(|sys|) && j == i && ForkSucceeds(sys[i], act))
  {
    Others(w, sys, i, act, i);
    if j < |sys| {
      Others(w, sys, i, act, j);
      if j == i {
        FdStep(w, sys[i], act, |sys|);
        if act.Receive? && Attaches(sys, i) {
          AttachConsumes(w, sys, i);
        }
      }
    } else {
      ChildInv(w, sys[i]);
    }
  }

  lemma StepFds(w: World, sys: System, i: nat, act: Act)
    requires ValidWorld(w) && ModeZero(w.serverConfig) && Fits(act) && SystemInv(w, sys) && i < |sys|
    ensures FdsLead(Step(w, sys, i, act))
  {
    var next := Step(w, sys, i, act);
    Others(w, sys, i, act, i);
    forall j | 0 <= j < |next| && PendingFd(next[j]).Some?
      ensures PendingFd(next[j]).value < |next| && next[PendingFd(next[j]).value].client.pc.Unattached?
    {
      StepFd(w, sys, i, act, j);
      var k := PendingFd(next[j]).value;
      if k < |sys| {
        Others(w, sys, i, act, k);
        UnattachedStays(w, sys[k], act, |sys|);
        if act.Receive? && Attaches(sys, i) {
          AttachConsumes(w, sys, i);
        }
      }
    }
    forall j, k | 0 <= j < k < |next| && PendingFd(next[j]).Some? ensures PendingFd(next[j]) != PendingFd(next[k]) {
      StepFd(w, sys, i, act, j);
      if PendingFd(next[k]).Some? {
        StepFd(w, sys, i, act, k);
      }
    }
  }

  lemma StepInv(w: World, sys: System, i: nat, act: Act)
    requires ValidWorld(w) && ModeZero(w.serverConfig) && Fits(act) && SystemInv(w, sys)
    ensures SystemInv(w, Step(w, sys, i, act))
  {
    if i < |sys| {
      StepSessions(w, sys, i, act);
      StepFds(w, sys, i, act);
    }
  }

  /** All objects that are sent are small enough for the size field of a header. */
  predicate AllFit(schedule: seq<(nat, Act)>) {
    forall k :: 0 <= k < |schedule| ==> Fits(schedule[k].1)
  }

  lemma {:induction false} RunInv(w: World, schedule: seq<(nat, Act)>)
    requires ValidWorld(w) && ModeZero(w.serverConfig) && AllFit(schedule)
    ensures SystemInv(w, Run(w, schedule))
  {
    if schedule == [] {
      var s := Initial(w)[0];
      assert ToServer(s) == InitRequest(w) && ToClient(s) == [];
    } else {
      var n := |schedule| - 1;
      RunInv(w, schedule[..n]);
      StepInv(w, Run(w, schedule[..n]), schedule[n].0, schedule[n].1);
    }
  }

  // ---- What the invariant gives ------------------------------------------------------

  /** No run reaches a protocol error in a client or a failed assertion in a server. */
  lemma NeverOutOfStep(w: World, schedule: seq<(nat, Act)>, i: nat)
    requires ValidWorld(w) && ModeZero(w.serverConfig) && AllFit(schedule) && i < |Run(w, schedule)|
    ensures !Run(w, schedule)[i].client.pc.Error? && !Run(w, schedule)[i].server.pc.Bad?
  {
    hide Run;
    RunInv(w, schedule);
    assert Inv(w, Run(w, schedule)[i]);
  }

  /** A stream of complete messages: each header is followed by as many bytes as it announces. */
  predicate Framed(ts: seq<Tok>) {
    || ts == []
    || (ts[0].Hdr? && 1 + ts[0].sz <= |ts| && AllBytes(ts[1..1 + ts[0].sz]) && Framed(ts[1 + ts[0].sz..]))
  }

  /** First the rest of the message being read, then complete messages. */
  predicate FramedAfter(ts: seq<Tok>, n: nat) {
    n <= |ts| && AllBytes(ts[..n]) && Framed(ts[n..])
  }

  lemma OneMessage(id: nat, bs: seq<byte>, rest: seq<Tok>)
    requires Framed(rest)
    ensures Framed([Hdr(id, |bs|)] + Raw(bs) + rest)
  {
    var ts := [Hdr(id, |bs|)] + Raw(bs) + rest;
    assert ts[1..1 + |bs|] == Raw(bs);
    assert ts[1 + |bs|..] == rest;
  }

  lemma PartMessage(bs: seq<byte>, rest: seq<Tok>)
    requires Framed(rest)
    ensures FramedAfter(Raw(bs) + rest, |bs|)
  {
    PayloadOfRaw(bs, rest);
  }

  lemma Message(id: nat, bs: seq<byte>)
    ensures FramedAfter([Hdr(id, |bs|)] + Raw(bs), 0)
  {
    OneMessage(id, bs, []);
    var ts := [Hdr(id, |bs|)] + Raw(bs);
    assert ts + [] == ts && ts[0..] == ts;
  }

  lemma Part(bs: seq<byte>)
    ensures FramedAfter(Raw(bs), |bs|)
  {
    PartMessage(bs, []);
    assert Raw(bs) + [] == Raw(bs);
  }

  /** Whatever is under way to the server or the client, every header tells the number of bytes that follow it. */
  lemma HeadersTellSizes(w: World, schedule: seq<(nat, Act)>, i: nat)
    requires ValidWorld(w) && ModeZero(w.serverConfig) && AllFit(schedule) && i < |Run(w, schedule)|
    ensures var s := Run(w, schedule)[i];
      FramedAfter(ToServer(s), s.server.recvSz) && FramedAfter(ToClient(s), ReadSize(s.client.pc))
  {
    var s := Run(w, schedule)[i];
    RunInv(w, schedule);
    assert Inv(w, s);
    TowardsServer(w, s);
    TowardsClient(w, s);
  }

  lemma RequestFramed(w: World, s: Session)
    requires ValidWorld(w) && Inv(w, s) && s.client.pc.WReq? && ToServer(s) != []
    ensures FramedAfter(ToServer(s), s.server.recvSz)
  {
    hide Framed, WellFormed, PendingFd;
    var reply := MemoryReply(w, s.server.want, PAGE_SIZE);
    if s.server.pc.Recv? {
      Message(C_TRANSLATE, LittleEndian(s.client.asked.value, 8));
    } else if s.server.pc.ReadAddr? {
      Part(LittleEndian(s.client.asked.value, 8));
    } else if s.server.pc.RecvBuf? {
      Message(C_MEMBUF, reply);
    } else {
      Part(reply);
      Part(reply[PAGE_SIZE..]);
    }
  }

  lemma TowardsServer(w: World, s: Session)
    requires ValidWorld(w) && Inv(w, s)
    ensures FramedAfter(ToServer(s), s.server.recvSz)
  {
    hide OpsToks, FirstFd, WellFormed, Messages, MemoryReply;
    if ToServer(s) != [] {
      match s.client.pc
      case WInit =>
        Message(C_INIT, w.serverConfig);
        Part(w.serverConfig);
      case WReq => RequestFramed(w, s);
      case WFd =>
        Message(C_FORK, []);
        assert ForkRequest() == [Hdr(C_FORK, 0)] + Raw([]);
    }
  }

  lemma TowardsClient(w: World, s: Session)
    requires ValidWorld(w) && Inv(w, s)
    ensures FramedAfter(ToClient(s), ReadSize(s.client.pc))
  {
    hide OpsToks, FirstFd, WellFormed, Messages, MemoryReply;
    var sent := s.server.sent;
    if ToClient(s) != [] || ReadSize(s.client.pc) > 0 {
      match s.client.pc
      case WInit =>
        Message(S_OBJECT, sent);
        assert ObjectMsg(sent)[0..] == ObjectMsg(sent);
        OneMessage(S_INIT, w.clientConfig, ObjectMsg(sent));
        assert InitReply(w, sent)[0..] == InitReply(w, sent);
      case RInit =>
        Message(S_OBJECT, sent);
        assert ObjectMsg(sent)[0..] == ObjectMsg(sent);
        PartMessage(w.clientConfig, ObjectMsg(sent));
      case WObj => Message(S_OBJECT, sent);
      case RObj(_) => Part(sent);
      case WReq =>
        Message(S_OBJECT, sent);
        Message(S_MEMREQ, PageRequest(s.server.want));
      case RReq => Part(PageRequest(s.server.want));
      case WFd => Message(S_FD, s.server.reply);
      case RFd => Part(s.server.reply);
    }
  }

  /** When a server handles C_FORK, the request is all there is: sockets and stdio buffers are empty. */
  lemma NothingBufferedAtFork(w: World, schedule: seq<(nat, Act)>, i: nat)
    requires ValidWorld(w) && ModeZero(w.serverConfig) && AllFit(schedule) && i < |Run(w, schedule)| && AtFork(Run(w, schedule)[i])
    ensures var s := Run(w, schedule)[i];
      && s.server.inbuf == [Hdr(C_FORK, 0)] && s.server.out == []
      && s.c2s == [] && s.s2c == [] && s.client.todo == [] && s.client.pushed == None
  {
    RunInv(w, schedule);
    var s := Run(w, schedule)[i];
    OnlyForkAsks(w, s);
    assert |ToServer(s)| == 1 && |ToClient(s)| == 0;
  }

  /** The object that a client takes over is the one its server sent last, byte for byte. */
  lemma ObjectDelivered(w: World, schedule: seq<(nat, Act)>, i: nat)
    requires ValidWorld(w) && ModeZero(w.serverConfig) && AllFit(schedule) && i < |Run(w, schedule)|
    requires Run(w, schedule)[i].client.pc.RObj?
    ensures var s := Run(w, schedule)[i]; var s' := Step(w, Run(w, schedule), i, Receive)[i];
      s' == s || (s'.client.pc.Idle? && s'.client.obj == s.server.sent)
  {
    RunInv(w, schedule);
    var s := Run(w, schedule)[i];
    Others(w, Run(w, schedule), i, Receive, i);
    ObjectReceived(w, s);
    hide Run, Inv;
  }

  lemma ObjectReceived(w: World, s: Session)
    requires ValidWorld(w) && Inv(w, s) && s.client.pc.RObj?
    ensures var s' := ClientRecv(w, s); s' == s || (s'.client.pc.Idle? && s'.client.obj == s.server.sent)
  {
    var n := ReadSize(s.client.pc);
    if n <= |s.s2c| && s.client.todo == [] {
      assert ToClient(s) == Raw(s.server.sent) + [];
      hide OpsToks, MemoryReply, Value, Lockstep;
      PayloadHead(s, n, s.server.sent, []);
    }
  }

  /** The page that a server gets is what the guest has at the address it asked for, or the news that there is nothing. */
  lemma PageDelivered(w: World, schedule: seq<(nat, Act)>, i: nat, fork: Option<seq<byte>>, obj: seq<byte>)
    requires ValidWorld(w) && ModeZero(w.serverConfig) && AllFit(schedule) && i < |Run(w, schedule)|
    requires Run(w, schedule)[i].server.pc.ReadFlag?
    ensures var s := Run(w, schedule)[i]; var s' := Step(w, Run(w, schedule), i, Serve(fork, obj))[i];
      s' == s || s'.server.page == w.mem(s.server.want)
  {
    hide Lockstep, Run;
    RunInv(w, schedule);
    var s := Run(w, schedule)[i];
    assert Inv(w, s);
    Others(w, Run(w, schedule), i, Serve(fork, obj), i);
    if s.server.ops == [] {
      FlagReadKeeps(w, s, obj);
    }
  }

  /** With a descriptor at the socket, the reply is there completely, and it is zero. */
  lemma ZeroReply(w: World, s: Session)
    requires ValidWorld(w) && Inv(w, s) && s.client.pc.RFd? && s.fd.Some?
    ensures s.client.todo == [] && |s.s2c| == 4 && s.s2c[..4] == Raw(Zeros(4))
    ensures ClientRecv(w, s).client.pc.Idle?
  {
    var bs := s.server.reply;
    assert ToClient(s) == Raw(bs) + [] && |ToServer(s)| == 0;
    assert s.client.todo == [] && |s.s2c| == 4;
    PayloadHead(s, 4, bs, []);
    assert s.s2c[..4] == Raw(Zeros(4));
  }

  /** A client that reads a zero reply receives the connection of a new server that no one else has. */
  lemma ForkDelivers(w: World, schedule: seq<(nat, Act)>, i: nat)
    requires ValidWorld(w) && ModeZero(w.serverConfig) && AllFit(schedule) && i < |Run(w, schedule)|
    requires Run(w, schedule)[i].client.pc.RFd? && Run(w, schedule)[i].fd.Some?
    ensures var sys := Run(w, schedule); var sys' := Step(w, sys, i, Receive);
      && sys'[i].client.pc.Idle? && sys[i].fd.value < |sys| && sys[sys[i].fd.value].client.pc.Unattached?
      && Quiet(sys'[sys[i].fd.value]) && sys'[sys[i].fd.value].client.pc.Fresh?
      && forall j :: 0 <= j < |sys| && j != i ==> PendingFd(sys'[j]) != sys[i].fd
  {
    RunInv(w, schedule);
    var sys := Run(w, schedule);
    var s, k := sys[i], sys[i].fd.value;
    assert Inv(w, s) && PendingFd(s) == s.fd;
    assert Inv(w, sys[k]);
    StepInv(w, sys, i, Receive);
    Others(w, sys, i, Receive, i);
    Others(w, sys, i, Receive, k);
    ZeroReply(w, s);
    hide Lockstep, Run, Step;
    assert Attaches(sys, i);
    forall j | 0 <= j < |sys| && j != i ensures PendingFd(Step(w, sys, i, Receive)[j]) != sys[i].fd {
      Others(w, sys, i, Receive, j);
    }
  }

  // ---- Exactly when the configuration lets the client start ---------------------------

  lemma OneMore(w: World, schedule: seq<(nat, Act)>, s: Session, act: Act) returns (longer: seq<(nat, Act)>)
    requires ValidWorld(w) && Run(w, schedule) == [s] && !ForkSucceeds(s, act) && !(act.Receive? && s.client.pc.RFd?)
    ensures Run(w, longer) == [StepSession(w, s, act, 1)]
    ensures AllFit(schedule) && Fits(act) ==> AllFit(longer)
  {
    longer := schedule + [(0, act)];
    assert longer[..|schedule|] == schedule;
  }

  lemma {:induction false} SendRest(w: World, schedule: seq<(nat, Act)>, s: Session) returns (longer: seq<(nat, Act)>)
    requires ValidWorld(w) && Run(w, schedule) == [s]
    ensures Run(w, longer) == [s.(client := s.client.(todo := []), c2s := s.c2s + s.client.todo)]
    ensures AllFit(schedule) ==> AllFit(longer)
    decreases |s.client.todo|
  {
    if s.client.todo == [] {
      longer := schedule;
      assert s.c2s + s.client.todo == s.c2s;
    } else {
      var next := OneMore(w, schedule, s, Send);
      var s' := SendOne(s);
      longer := SendRest(w, next, s');
      assert s'.c2s + s'.client.todo == s.c2s + s.client.todo;
    }
  }

  lemma {:induction false} ReadAheadAll(w: World, schedule: seq<(nat, Act)>, s: Session) returns (longer: seq<(nat, Act)>)
    requires ValidWorld(w) && Run(w, schedule) == [s]
    ensures Run(w, longer) == [s.(c2s := [], server := s.server.(inbuf := s.server.inbuf + s.c2s))]
    ensures AllFit(schedule) ==> AllFit(longer)
    decreases |s.c2s|
  {
    if s.c2s == [] {
      longer := schedule;
      assert s.server.inbuf + s.c2s == s.server.inbuf;
    } else {
      var next := OneMore(w, schedule, s, ReadAhead);
      var s' := ReadOne(s);
      longer := ReadAheadAll(w, next, s');
      assert s'.server.inbuf + s'.c2s == s.server.inbuf + s.c2s;
    }
  }

  /** Both processes up to the point where the server has read the configuration. */
  lemma ConfigArrives(w: World) returns (schedule: seq<(nat, Act)>, s: Session)
    requires ValidWorld(w)
    ensures Run(w, schedule) == [s] && s.client.pc.WInit? && s.client.todo == [] && s.client.pushed.None? && s.fd.None?
    ensures s.s2c == [] && s.server.out == [] && s.server.ops == [] && s.server.pc.ReadCfg0? && s.server.recvSz == CONFIG_SIZE
    ensures s.server.inbuf == Raw(w.serverConfig) && AllFit(schedule)
  {
    var first := Initial(w)[0];
    assert Run(w, []) == [first];
    schedule := SendRest(w, [], first);
    s := first.(client := first.client.(todo := []), c2s := first.c2s + first.client.todo);
    assert [] + InitRequest(w) == InitRequest(w);
    schedule := ReadAheadAll(w, schedule, s);
    s := s.(c2s := [], server := s.server.(inbuf := s.server.inbuf + s.c2s));
    schedule := OneMore(w, schedule, s, Serve(None, []));
    assert s.server.inbuf[1..] == Raw(w.serverConfig);
    s := StepSession(w, s, Serve(None, []), 1);
  }

  /** With any other server mode the server owes no configuration, and sends its first object at once. */
  lemma ObjectSent(w: World) returns (schedule: seq<(nat, Act)>, s: Session)
    requires ValidWorld(w) && !ModeZero(w.serverConfig)
    ensures Run(w, schedule) == [s] && s.client.pc.WInit? && s.client.todo == [] && s.client.pushed.None? && s.fd.None?
    ensures s.s2c == [] && s.server.out == [] && s.server.ops == MessageOps(S_OBJECT, []) && s.server.pc.Recv?
    ensures AllFit(schedule)
  {
    schedule, s := ConfigArrives(w);
    hide Run;
    PayloadOfRaw(w.serverConfig, []);
    assert s.server.inbuf[..CONFIG_SIZE] == Raw(w.serverConfig);
    schedule := OneMore(w, schedule, s, Serve(None, []));
    s := StepSession(w, s, Serve(None, []), 1);
    assert s.server.ops == [] + MessageOps(S_OBJECT, []) == MessageOps(S_OBJECT, []);
  }

  /** The client finds that object where it expects its configuration. */
  lemma OtherModeFails(w: World) returns (schedule: seq<(nat, Act)>)
    requires ValidWorld(w) && !ModeZero(w.serverConfig)
    ensures |Run(w, schedule)| == 1 && Run(w, schedule)[0].client.pc.Error? && AllFit(schedule)
  {
    hide Run;
    var s: Session;
    schedule, s := ObjectSent(w);
    schedule := OneMore(w, schedule, s, Output);
    s := RunOp(s);
    assert s.server.ops == [Write([])] && s.server.out == [Hdr(S_OBJECT, 0)];
    schedule := OneMore(w, schedule, s, Output);
    s := RunOp(s);
    assert s.s2c[0] == Hdr(S_OBJECT, 0);
    schedule := OneMore(w, schedule, s, Receive);
  }

  /** An object that is too large for the size field of a header fails the server's assertion. */
  lemma LargeFails(w: World) returns (schedule: seq<(nat, Act)>)
    requires ValidWorld(w)
    ensures |Run(w, schedule)| == 1 && Run(w, schedule)[0].server.pc.Bad?
  {
    var s: Session;
    schedule, s := ConfigArrives(w);
    hide Run;
    var large: seq<byte> := seq(INT32_MAX + 1, _ => 0);
    PayloadOfRaw(w.serverConfig, []);
    assert s.server.inbuf[..CONFIG_SIZE] == Raw(w.serverConfig);
    schedule := OneMore(w, schedule, s, Serve(None, large));
  }

  predicate OutOfStep(s: Session) {
    s.client.pc.Error? || s.server.pc.Bad?
  }

  /** Some run, with objects too large for a header if these are allowed, ends in a protocol error or a failed assertion. */
  ghost predicate SomeRunFails(w: World, large: bool)
    requires ValidWorld(w)
  {
    exists schedule, i :: (large || AllFit(schedule)) && 0 <= i < |Run(w, schedule)| && OutOfStep(Run(w, schedule)[i])
  }

  /** Client and server stay in step in every run exactly if the server mode is zero and no object is too large. */
  lemma LockstepExactlyInModeZero(w: World, large: bool)
    requires ValidWorld(w)
    ensures SomeRunFails(w, large) <==> !ModeZero(w.serverConfig) || large
  {
    hide Run;
    if large {
      var schedule := LargeFails(w);
      assert OutOfStep(Run(w, schedule)[0]);
    } else if ModeZero(w.serverConfig) {
      forall schedule, i | AllFit(schedule) && 0 <= i < |Run(w, schedule)| ensures !OutOfStep(Run(w, schedule)[i]) {
        NeverOutOfStep(w, schedule, i);
      }
    } else {
      var schedule := OtherModeFails(w);
      assert OutOfStep(Run(w, schedule)[0]);
    }
  }
}
