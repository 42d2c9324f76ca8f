/**
 Publication of one object in the on-disk cache by any number of server processes:
 a temporary file, an advisory lock on it, a check for the final name, writes of any
 granularity, and a rename. Every system call is one step; processes may die between any
 two of them, and a temporary file may be left over from earlier.
 */
module DiskCache {
  import opened Common
  import opened Bytes

  type Inode = nat

  /** Where a process stands in Cache::Put or Cache::Get. */
  datatype Pc =
    | Start
    | Opened(fd: Inode)                               // temporary file open, lock not tried yet
    | HasLock(fd: Inode)                              // before the check for the final name
    | Discard(fd: Inode)                              // before the temporary name is unlinked
    | Writing(fd: Inode, n: nat, prior: seq<byte>)      // n bytes written over what the file held before
    | Closing(fd: Inode)                              // before close, which drops the lock
    | Reading(fd: Inode, size: nat, got: seq<byte>)
    | Served(size: nat, got: seq<byte>)
    | Missed                                          // the final name did not exist
    | Ended

  datatype State = State(
    tmp: Option<Inode>,
    final: Option<Inode>,
    files: map<Inode, seq<byte>>,
    next: Inode,
    locks: map<Inode, nat>,       // holder of the lock on an inode
    pcs: map<nat, Pc>,
    renamers: seq<nat>)           // processes whose rename succeeded

  datatype Action =
    | Put(k: nat)            // the next step of Put; a write transfers at most k + 1 bytes
    | WriteFails             // a write fails
    | RenameFails            // the rename fails
    | Get(k: nat)            // the next step of Get; a transfer moves at most k + 1 bytes
    | Die                    // the process ends; the kernel drops its locks

  function PcOf(s: State, p: nat): Pc {
    if p in s.pcs then s.pcs[p] else Start
  }

  function Moved(s: State, p: nat, pc: Pc): State {
    s.(pcs := s.pcs[p := pc])
  }

  function Min(a: nat, b: nat): nat {
    if a < b then a else b
  }

  function Content(s: State, i: Inode): seq<byte> {
    if i in s.files then s.files[i] else []
  }

  /** The contents after writing a chunk at offset n. */
  function Overwrite(prior: seq<byte>, n: nat, chunk: seq<byte>): seq<byte>
    requires n <= |prior|
  {
    prior[..n] + chunk + (if n + |chunk| < |prior| then prior[n + |chunk|..] else [])
  }

  /** A buffer written over older contents from the start: a longer old file keeps its tail. */
  function Overlay(buf: seq<byte>, prior: seq<byte>): (r: seq<byte>)
    ensures buf <= r
    ensures r == buf <==> |prior| <= |buf|
  {
    buf + (if |buf| < |prior| then prior[|buf|..] else [])
  }

  function DropLock(locks: map<Inode, nat>, p: nat): map<Inode, nat> {
    map i | i in locks && locks[i] != p :: locks[i]
  }

  function StepOpen(s: State, p: nat): State {
    match s.tmp
    case Some(i) => Moved(s, p, Opened(i))
    case None =>
      Moved(s, p, Opened(s.next)).(tmp := Some(s.next), files := s.files[s.next := []], next := s.next + 1)
  }

  function StepWrite(s: State, p: nat, buf: seq<byte>, fd: Inode, n: nat, prior: seq<byte>, k: nat): State {
    if n < |buf| then
      var upto := Min(n + k + 1, |buf|);
      if n > |Content(s, fd)| then s
      else Moved(s, p, Writing(fd, upto, prior)).(files := s.files[fd := Overwrite(Content(s, fd), n, buf[n..upto])])
    else
      match s.tmp
      case Some(i) => Moved(s, p, Closing(fd)).(tmp := None, final := Some(i), renamers := s.renamers + [p])
      case None => Moved(s, p, Discard(fd))           // rename reports ENOENT
  }

  function StepPut(s: State, p: nat, buf: seq<byte>, k: nat): State {
    match PcOf(s, p)
    case Start => StepOpen(s, p)
    case Opened(fd) =>
      if fd in s.locks then Moved(s, p, Closing(fd))
      else Moved(s, p, HasLock(fd)).(locks := s.locks[fd := p])
    case HasLock(fd) =>
      if s.final.Some? then Moved(s, p, Discard(fd)) else Moved(s, p, Writing(fd, 0, Content(s, fd)))
    case Discard(fd) => Moved(s, p, Closing(fd)).(tmp := None)
    case Writing(fd, n, prior) => StepWrite(s, p, buf, fd, n, prior, k)
    case Closing(_) => Moved(s, p, Ended).(locks := DropLock(s.locks, p))
    case _ => s
  }

  function StepGet(s: State, p: nat, k: nat): State {
    match PcOf(s, p)
    case Start =>
      (match s.final
       case Some(i) => Moved(s, p, Reading(i, |Content(s, i)|, []))
       case None => Moved(s, p, Missed))
    case Reading(fd, size, got) =>
      var c := Content(s, fd);
      if |got| >= size then Moved(s, p, Served(size, got))
      else
        var upto := Min(Min(|got| + k + 1, size), |c|);
        if upto < |got| then s else Moved(s, p, Reading(fd, size, got + c[|got|..upto]))
    case _ => s
  }

  function Step(bufs: nat -> seq<byte>, s: State, p: nat, act: Action): State {
    match act
    case Put(k) => StepPut(s, p, bufs(p), k)
    case WriteFails =>
      if PcOf(s, p).Writing? && PcOf(s, p).n < |bufs(p)| then Moved(s, p, Discard(PcOf(s, p).fd)) else s
    case RenameFails =>
      if PcOf(s, p).Writing? && PcOf(s, p).n >= |bufs(p)| then Moved(s, p, Discard(PcOf(s, p).fd)) else s
    case Get(k) => StepGet(s, p, k)
    case Die => Moved(s, p, Ended).(locks := DropLock(s.locks, p))
  }

  /** Initially the final name does not exist; a temporary file may be left over. */
  function Init(leftover: Option<seq<byte>>): State {
    match leftover
    case None => State(None, None, map[], 0, map[], map[], [])
    case Some(c) => State(Some(0), None, map[0 := c], 1, map[], map[], [])
  }

  function Run(bufs: nat -> seq<byte>, leftover: Option<seq<byte>>, schedule: seq<(nat, Action)>): State {
    if schedule == [] then Init(leftover)
    else
      var n := |schedule| - 1;
      Step(bufs, Run(bufs, leftover, schedule[..n]), schedule[n].0, schedule[n].1)
  }

  /** Writes fail only if that is allowed, and so do renames. */
  predicate FailsOnly(schedule: seq<(nat, Action)>, writes: bool, renames: bool) {
    forall i :: 0 <= i < |schedule| ==>
      (schedule[i].1.WriteFails? ==> writes) && (schedule[i].1.RenameFails? ==> renames)
  }

  predicate Fails(act: Action) {
    act.WriteFails? || act.RenameFails?
  }

  predicate NoFailure(schedule: seq<(nat, Action)>) {
    FailsOnly(schedule, false, false)
  }

  /** Process p is about to remove the temporary name although nothing is published. */
  predicate CleansUp(s: State, p: nat, act: Action) {
    act.Put? && PcOf(s, p).Discard? && s.final.None?
  }

  /** Another process has the same file open, and has not tried its lock yet. */
  predicate Watched(s: State, p: nat) {
    PcOf(s, p).Discard? && exists q :: q in s.pcs && q != p && s.pcs[q] == Opened(PcOf(s, p).fd)
  }

  /** The clean-up after a failed write or rename removes the name from under another process. */
  predicate Careless(s: State, p: nat, act: Action) {
    CleansUp(s, p, act) && Watched(s, p)
  }

  /** No step of the continuation is careless. */
  ghost predicate CarefulFrom(bufs: nat -> seq<byte>, leftover: Option<seq<byte>>,
                              h: seq<(nat, Action)>, more: seq<(nat, Action)>)
    decreases |more|
  {
    more == [] ||
      var n := |more| - 1;
      CarefulFrom(bufs, leftover, h, more[..n]) && !Careless(Run(bufs, leftover, h + more[..n]), more[n].0, more[n].1)
  }

  ghost predicate Careful(bufs: nat -> seq<byte>, leftover: Option<seq<byte>>, schedule: seq<(nat, Action)>) {
    CarefulFrom(bufs, leftover, [], schedule)
  }

  predicate NoDeath(schedule: seq<(nat, Action)>) {
    forall i :: 0 <= i < |schedule| ==> !schedule[i].1.Die?
  }

  // ---- Invariant ---------------------------------------------------------------------

  predicate HasFd(pc: Pc) {
    pc.Opened? || pc.HasLock? || pc.Discard? || pc.Writing? || pc.Closing?
  }

  predicate NeedsLock(pc: Pc) {
    pc.HasLock? || pc.Discard? || pc.Writing?
  }

  ghost predicate FilesOk(s: State) {
    && (forall i :: i in s.files <==> 0 <= i < s.next)
    && (s.tmp.Some? ==> s.tmp.value < s.next)
    && (s.final.Some? ==> s.final.value < s.next && s.tmp != s.final)
    && |s.renamers| == (if s.final.Some? then 1 else 0)
  }

  ghost predicate LocksOk(s: State) {
    && (forall i :: i in s.locks ==> PcOf(s, s.locks[i]) == Closing(i) || (NeedsLock(PcOf(s, s.locks[i])) && PcOf(s, s.locks[i]).fd == i))
    && (forall p :: p in s.pcs && NeedsLock(s.pcs[p]) ==> s.pcs[p].fd in s.locks && s.locks[s.pcs[p].fd] == p)
  }

  /** What holds of one process. */
  ghost predicate ProcessOk(bufs: nat -> seq<byte>, s: State, p: nat, pc: Pc) {
    && (HasFd(pc) ==> pc.fd < s.next)
    && (HasFd(pc) && s.final.None? && !pc.Closing? ==> s.tmp == Some(pc.fd))
    && (pc.Writing? ==>
          && s.final.None? && pc.n <= |bufs(p)|
          && Content(s, pc.fd) == Overlay(bufs(p)[..pc.n], pc.prior))
    && (pc.Reading? ==>
          && s.final == Some(pc.fd) && pc.size == |Content(s, pc.fd)|
          && pc.got <= Content(s, pc.fd))
    && (pc.Served? ==>
          && s.final.Some? && pc.size == |Content(s, s.final.value)|
          && pc.got == Content(s, s.final.value))
  }

  /** The published file holds one writer's buffer, over what the temporary file held before. */
  ghost predicate PublishedBy(bufs: nat -> seq<byte>, s: State, p: nat, prior: seq<byte>) {
    s.renamers == [p] && s.final.Some? && Content(s, s.final.value) == Overlay(bufs(p), prior)
  }

  ghost predicate Published(bufs: nat -> seq<byte>, s: State) {
    exists p, prior :: PublishedBy(bufs, s, p, prior)
  }

  ghost predicate Inv(bufs: nat -> seq<byte>, s: State) {
    && FilesOk(s)
    && LocksOk(s)
    && (forall p :: p in s.pcs ==> ProcessOk(bufs, s, p, s.pcs[p]))
    && (s.final.Some? ==> Published(bufs, s))
  }

  lemma OverwriteStep(buf: seq<byte>, prior: seq<byte>, n: nat, upto: nat)
    requires n <= upto <= |buf|
    ensures n <= |Overlay(buf[..n], prior)|
    ensures Overwrite(Overlay(buf[..n], prior), n, buf[n..upto]) == Overlay(buf[..upto], prior)
  {
    assert buf[..upto] == buf[..n] + buf[n..upto];
  }

  // ---- One step ----------------------------------------------------------------------

  /** Of the processes that need the lock on a file, there is only one. */
  lemma LockedOnce(s: State, p: nat, q: nat)
    requires LocksOk(s) && p in s.pcs && q in s.pcs
    requires NeedsLock(s.pcs[p]) && NeedsLock(s.pcs[q]) && s.pcs[p].fd == s.pcs[q].fd
    ensures p == q
  {
    assert s.locks[s.pcs[p].fd] == p && s.locks[s.pcs[q].fd] == q;
  }

  /** A writer is alone on the temporary file. */
  lemma WriterAlone(bufs: nat -> seq<byte>, s: State, p: nat, q: nat)
    requires Inv(bufs, s) && p in s.pcs && q in s.pcs
    requires s.pcs[p].Writing? && NeedsLock(s.pcs[q])
    ensures p == q
  {
    assert ProcessOk(bufs, s, p, s.pcs[p]) && ProcessOk(bufs, s, q, s.pcs[q]);
    LockedOnce(s, p, q);
  }

  lemma WriteFiles(s: State, p: nat, buf: seq<byte>, fd: Inode, n: nat, prior: seq<byte>, k: nat)
    requires FilesOk(s) && s.final.None? && fd < s.next
    ensures FilesOk(StepWrite(s, p, buf, fd, n, prior, k))
  {
    hide Overwrite;
  }

  lemma PutFiles(s: State, p: nat, buf: seq<byte>, k: nat)
    requires FilesOk(s) && !PcOf(s, p).Writing?
    ensures FilesOk(StepPut(s, p, buf, k))
  {
  }

  lemma OtherFiles(bufs: nat -> seq<byte>, s: State, p: nat, act: Action)
    requires FilesOk(s) && !act.Put?
    ensures FilesOk(Step(bufs, s, p, act))
  {
    hide StepPut;
  }

  lemma StepFiles(bufs: nat -> seq<byte>, s: State, p: nat, act: Action)
    requires Inv(bufs, s)
    ensures FilesOk(Step(bufs, s, p, act))
  {
    hide LocksOk, Published, FilesOk, StepWrite;
    if p in s.pcs { assert ProcessOk(bufs, s, p, s.pcs[p]); }
    var pc := PcOf(s, p);
    if act.Put? {
      if pc.Writing? {
        WriteFiles(s, p, bufs(p), pc.fd, pc.n, pc.prior, act.k);
      } else {
        PutFiles(s, p, bufs(p), act.k);
      }
    } else {
      OtherFiles(bufs, s, p, act);
    }
  }

  /** Only process p moves. */
  ghost predicate Moves(s: State, s': State, p: nat) {
    s'.pcs == s.pcs || s'.pcs == s.pcs[p := PcOf(s', p)]
  }

  lemma PutMoves(s: State, p: nat, buf: seq<byte>, k: nat)
    ensures Moves(s, StepPut(s, p, buf, k), p)
  {
    hide Overwrite, DropLock;
  }

  lemma StepMoves(bufs: nat -> seq<byte>, s: State, p: nat, act: Action)
    ensures Moves(s, Step(bufs, s, p, act), p)
  {
    hide StepPut;
    if act.Put? {
      PutMoves(s, p, bufs(p), act.k);
    }
  }

  /** A move that keeps p's locks. */
  lemma LocksKept(s: State, s': State, p: nat)
    requires LocksOk(s) && Moves(s, s', p) && s'.locks == s.locks
    requires NeedsLock(PcOf(s', p)) ==> NeedsLock(PcOf(s, p)) && PcOf(s', p).fd == PcOf(s, p).fd
    requires NeedsLock(PcOf(s, p)) ==> NeedsLock(PcOf(s', p)) || PcOf(s', p).Closing?
    requires NeedsLock(PcOf(s, p)) ==> PcOf(s', p).fd == PcOf(s, p).fd
    requires PcOf(s, p).Closing? ==> PcOf(s', p) == PcOf(s, p)
    ensures LocksOk(s')
  {
  }

  lemma LocksTaken(s: State, s': State, p: nat, fd: Inode)
    requires LocksOk(s) && PcOf(s, p) == Opened(fd) && fd !in s.locks
    requires s'.pcs == s.pcs[p := HasLock(fd)] && s'.locks == s.locks[fd := p]
    ensures LocksOk(s')
  {
  }

  lemma LocksDropped(s: State, s': State, p: nat)
    requires LocksOk(s)
    requires s'.pcs == s.pcs[p := Ended] && s'.locks == DropLock(s.locks, p)
    ensures LocksOk(s')
  {
  }

  lemma PutLocks(s: State, p: nat, buf: seq<byte>, k: nat)
    requires LocksOk(s) && !PcOf(s, p).Closing? && !(PcOf(s, p).Opened? && PcOf(s, p).fd !in s.locks)
    ensures LocksOk(StepPut(s, p, buf, k))
  {
    hide LocksOk, Overwrite, Content;
    PutMoves(s, p, buf, k);
    LocksKept(s, StepPut(s, p, buf, k), p);
  }

  lemma GetLocks(s: State, p: nat, k: nat)
    requires LocksOk(s)
    ensures LocksOk(StepGet(s, p, k))
  {
    hide LocksOk, Content;
    LocksKept(s, StepGet(s, p, k), p);
  }

  lemma StepLocks(bufs: nat -> seq<byte>, s: State, p: nat, act: Action)
    requires LocksOk(s)
    ensures LocksOk(Step(bufs, s, p, act))
  {
    hide LocksOk, StepWrite, StepGet;
    var s', pc := Step(bufs, s, p, act), PcOf(s, p);
    if act.Die? || (act.Put? && pc.Closing?) {
      LocksDropped(s, s', p);
    } else if act.Put? && pc.Opened? && pc.fd !in s.locks {
      LocksTaken(s, s', p, pc.fd);
    } else if act.Put? {
      PutLocks(s, p, bufs(p), act.k);
    } else if act.Get? {
      GetLocks(s, p, act.k);
    } else {
      LocksKept(s, s', p);
    }
  }

  /** Published contents never change, and the final name never goes away or moves. */
  lemma StepFinal(bufs: nat -> seq<byte>, s: State, p: nat, act: Action)
    requires Inv(bufs, s)
    ensures var s' := Step(bufs, s, p, act);
            s.final.Some? ==> s'.final == s.final && Content(s', s.final.value) == Content(s, s.final.value) && s'.renamers == s.renamers
  {
    if p in s.pcs { assert ProcessOk(bufs, s, p, s.pcs[p]); }
  }

  /** Before publication only the writer touches the file, and only a clean-up removes the temporary name. */
  lemma StepBefore(bufs: nat -> seq<byte>, s: State, p: nat, act: Action)
    requires Inv(bufs, s) && !CleansUp(s, p, act)
    ensures var s' := Step(bufs, s, p, act);
            s'.final.None? ==>
              && s.final.None?
              && (s.tmp.Some? ==> s'.tmp == s.tmp)
              && (forall i :: i in s.files && Content(s', i) != Content(s, i) ==> p in s.pcs && s.pcs[p].Writing? && s.pcs[p].fd == i)
    ensures s.next <= Step(bufs, s, p, act).next
  {
    if p in s.pcs { assert ProcessOk(bufs, s, p, s.pcs[p]); }
  }

  /** A clean-up that is not careless removes a name that nobody else uses. */
  lemma NobodyElse(bufs: nat -> seq<byte>, s: State, p: nat, q: nat)
    requires Inv(bufs, s) && PcOf(s, p).Discard? && s.final.None? && !Watched(s, p) && q in s.pcs && q != p
    ensures !HasFd(s.pcs[q]) || s.pcs[q].Closing?
  {
    assert ProcessOk(bufs, s, p, s.pcs[p]) && ProcessOk(bufs, s, q, s.pcs[q]);
    if NeedsLock(s.pcs[q]) {
      LockedOnce(s, p, q);
    }
  }

  lemma CleanedOther(bufs: nat -> seq<byte>, s: State, p: nat, act: Action, q: nat)
    requires Inv(bufs, s) && CleansUp(s, p, act) && !Watched(s, p) && q in s.pcs && q != p
    ensures ProcessOk(bufs, Step(bufs, s, p, act), q, s.pcs[q])
  {
    assert ProcessOk(bufs, s, q, s.pcs[q]);
    NobodyElse(bufs, s, p, q);
  }

  lemma OtherProcess(bufs: nat -> seq<byte>, s: State, p: nat, act: Action, q: nat)
    requires Inv(bufs, s) && !CleansUp(s, p, act)
    requires q in s.pcs && q != p
    ensures ProcessOk(bufs, Step(bufs, s, p, act), q, s.pcs[q])
  {
    var s' := Step(bufs, s, p, act);
    var pc := s.pcs[q];
    assert ProcessOk(bufs, s, q, pc);
    StepFinal(bufs, s, p, act);
    StepBefore(bufs, s, p, act);
    if pc.Writing? {
      assert s'.final.None? by {
        if p in s.pcs && s.pcs[p].Writing? { WriterAlone(bufs, s, p, q); }
      }
      if p in s.pcs && s.pcs[p].Writing? { WriterAlone(bufs, s, p, q); }
    }
  }

  lemma OwnWrite(bufs: nat -> seq<byte>, s: State, p: nat, k: nat)
    requires FilesOk(s) && PcOf(s, p).Writing? && ProcessOk(bufs, s, p, PcOf(s, p))
    ensures var s' := StepPut(s, p, bufs(p), k); ProcessOk(bufs, s', p, PcOf(s', p))
  {
    hide Overwrite;
    var pc := PcOf(s, p);
    if pc.n < |bufs(p)| {
      OverwriteStep(bufs(p), pc.prior, pc.n, Min(pc.n + k + 1, |bufs(p)|));
    }
  }

  lemma OwnPut(bufs: nat -> seq<byte>, s: State, p: nat, k: nat)
    requires FilesOk(s) && !PcOf(s, p).Writing? && ProcessOk(bufs, s, p, PcOf(s, p))
    ensures var s' := StepPut(s, p, bufs(p), k); ProcessOk(bufs, s', p, PcOf(s', p))
  {
    hide StepWrite;
    assert bufs(p)[..0] == [];
  }

  lemma OwnGet(bufs: nat -> seq<byte>, s: State, p: nat, k: nat)
    requires FilesOk(s) && ProcessOk(bufs, s, p, PcOf(s, p))
    ensures var s' := StepGet(s, p, k); ProcessOk(bufs, s', p, PcOf(s', p))
  {
  }

  lemma OwnProcess(bufs: nat -> seq<byte>, s: State, p: nat, act: Action)
    requires FilesOk(s)
    requires ProcessOk(bufs, s, p, PcOf(s, p))
    ensures var s' := Step(bufs, s, p, act); ProcessOk(bufs, s', p, PcOf(s', p))
  {
    hide StepPut, StepGet, FilesOk;
    if act.Get? {
      OwnGet(bufs, s, p, act.k);
    } else if act.Put? {
      if PcOf(s, p).Writing? {
        OwnWrite(bufs, s, p, act.k);
      } else {
        OwnPut(bufs, s, p, act.k);
      }
    }
  }

  /** Publishing is the last step of a writer whose whole buffer is in the file. */
  lemma PublishStep(bufs: nat -> seq<byte>, s: State, p: nat, act: Action)
    requires Inv(bufs, s) && s.final.None?
    requires Step(bufs, s, p, act).final.Some?
    ensures p in s.pcs && s.pcs[p].Writing? && PublishedBy(bufs, Step(bufs, s, p, act), p, s.pcs[p].prior)
  {
    assert ProcessOk(bufs, s, p, s.pcs[p]);
    assert bufs(p)[..|bufs(p)|] == bufs(p);
  }

  lemma StepPublished(bufs: nat -> seq<byte>, s: State, p: nat, act: Action)
    requires Inv(bufs, s)
    ensures var s' := Step(bufs, s, p, act); s'.final.Some? ==> Published(bufs, s')
  {
    var s' := Step(bufs, s, p, act);
    if s.final.Some? {
      StepFinal(bufs, s, p, act);
      hide Step;
      var q, prior :| PublishedBy(bufs, s, q, prior);
      assert PublishedBy(bufs, s', q, prior);
    } else if s'.final.Some? {
      PublishStep(bufs, s, p, act);
    }
  }

  lemma Assemble(bufs: nat -> seq<byte>, s: State, s': State, p: nat)
    requires Moves(s, s', p) && FilesOk(s') && LocksOk(s')
    requires ProcessOk(bufs, s', p, PcOf(s', p))
    requires forall q :: q in s.pcs && q != p ==> ProcessOk(bufs, s', q, s.pcs[q])
    requires s'.final.Some? ==> Published(bufs, s')
    ensures Inv(bufs, s')
  {
  }

  lemma StepInv(bufs: nat -> seq<byte>, s: State, p: nat, act: Action)
    requires Inv(bufs, s) && !Careless(s, p, act)
    ensures Inv(bufs, Step(bufs, s, p, act))
  {
    hide Step, Watched, FilesOk, LocksOk, Published;
    StepMoves(bufs, s, p, act);
    StepFiles(bufs, s, p, act);
    StepLocks(bufs, s, p, act);
    StepPublished(bufs, s, p, act);
    assert ProcessOk(bufs, s, p, PcOf(s, p));
    OwnProcess(bufs, s, p, act);
    forall q | q in s.pcs && q != p ensures ProcessOk(bufs, Step(bufs, s, p, act), q, s.pcs[q]) {
      if CleansUp(s, p, act) {
        CleanedOther(bufs, s, p, act, q);
      } else {
        OtherProcess(bufs, s, p, act, q);
      }
    }
    Assemble(bufs, s, Step(bufs, s, p, act), p);
  }

  lemma InitInv(bufs: nat -> seq<byte>, leftover: Option<seq<byte>>)
    ensures Inv(bufs, Init(leftover))
  {
  }

  lemma RunThen(bufs: nat -> seq<byte>, leftover: Option<seq<byte>>, schedule: seq<(nat, Action)>, p: nat, act: Action)
    ensures Run(bufs, leftover, schedule + [(p, act)]) == Step(bufs, Run(bufs, leftover, schedule), p, act)
  {
    var all := schedule + [(p, act)];
    assert all[..|all| - 1] == schedule;
  }

  /** The invariant survives every continuation without a careless step. */
  lemma {:induction false} InvFrom(bufs: nat -> seq<byte>, leftover: Option<seq<byte>>,
                                   h: seq<(nat, Action)>, more: seq<(nat, Action)>)
    requires Inv(bufs, Run(bufs, leftover, h)) && CarefulFrom(bufs, leftover, h, more)
    ensures Inv(bufs, Run(bufs, leftover, h + more))
    decreases |more|
  {
    hide Inv, Step, Careless, Run;
    if more == [] {
      assert h + more == h;
    } else {
      var n := |more| - 1;
      InvFrom(bufs, leftover, h, more[..n]);
      StepInv(bufs, Run(bufs, leftover, h + more[..n]), more[n].0, more[n].1);
      RunThen(bufs, leftover, h + more[..n], more[n].0, more[n].1);
      assert h + more == h + more[..n] + [(more[n].0, more[n].1)];
    }
  }

  lemma RunInv(bufs: nat -> seq<byte>, leftover: Option<seq<byte>>, schedule: seq<(nat, Action)>)
    requires Careful(bufs, leftover, schedule)
    ensures Inv(bufs, Run(bufs, leftover, schedule))
  {
    InitInv(bufs, leftover);
    hide Inv;
    InvFrom(bufs, leftover, [], schedule);
    assert [] + schedule == schedule;
  }

  // ---- Over every schedule -----------------------------------------------------------

  /** Without a failed write or rename, a temporary name is only discarded once something is published. */
  ghost predicate NoCleanUp(s: State) {
    forall p :: p in s.pcs && s.pcs[p].Discard? ==> s.final.Some?
  }

  lemma StepNoCleanUp(bufs: nat -> seq<byte>, s: State, p: nat, act: Action)
    requires Inv(bufs, s) && NoCleanUp(s) && !Fails(act)
    ensures NoCleanUp(Step(bufs, s, p, act))
  {
    StepMoves(bufs, s, p, act);
    StepFinal(bufs, s, p, act);
    OwnNoCleanUp(bufs, s, p, act);
  }

  lemma OwnNoCleanUp(bufs: nat -> seq<byte>, s: State, p: nat, act: Action)
    requires Inv(bufs, s) && NoCleanUp(s) && !Fails(act)
    ensures var s' := Step(bufs, s, p, act); PcOf(s', p).Discard? ==> s'.final.Some?
  {
    if p in s.pcs { assert ProcessOk(bufs, s, p, s.pcs[p]); }
  }

  lemma {:induction false} NoFailureIsCareful(bufs: nat -> seq<byte>, leftover: Option<seq<byte>>, schedule: seq<(nat, Action)>)
    requires NoFailure(schedule)
    ensures Careful(bufs, leftover, schedule) && NoCleanUp(Run(bufs, leftover, schedule))
    decreases |schedule|
  {
    hide Inv, Step;
    if schedule != [] {
      var n := |schedule| - 1;
      NoFailureIsCareful(bufs, leftover, schedule[..n]);
      RunInv(bufs, leftover, schedule[..n]);
      assert [] + schedule[..n] == schedule[..n];
      StepNoCleanUp(bufs, Run(bufs, leftover, schedule[..n]), schedule[n].0, schedule[n].1);
    }
  }

  /** The final name is published at most once, and what it holds starts with the whole buffer of the process that renamed. */
  lemma PublishedOnce(bufs: nat -> seq<byte>, leftover: Option<seq<byte>>, schedule: seq<(nat, Action)>)
    requires Careful(bufs, leftover, schedule)
    ensures var s := Run(bufs, leftover, schedule);
            && |s.renamers| <= 1
            && (|s.renamers| == 1 <==> s.final.Some?)
            && Whole(bufs, s)
  {
    RunInv(bufs, leftover, schedule);
  }

  /** What is published starts with the whole buffer of the process that renamed. */
  ghost predicate Whole(bufs: nat -> seq<byte>, s: State) {
    s.final.Some? ==> Published(bufs, s)
  }

  /** Once published, the file is never modified and the name never moves. */
  lemma {:induction false} NeverModified(bufs: nat -> seq<byte>, leftover: Option<seq<byte>>,
                                         schedule: seq<(nat, Action)>, more: seq<(nat, Action)>)
    requires Careful(bufs, leftover, schedule) && CarefulFrom(bufs, leftover, schedule, more)
    ensures var s, s' := Run(bufs, leftover, schedule), Run(bufs, leftover, schedule + more);
            s.final.Some? ==> s'.final == s.final && Content(s', s.final.value) == Content(s, s.final.value)
    decreases |more|
  {
    hide Step, Inv, Careless, Run;
    if more == [] {
      assert schedule + more == schedule;
    } else {
      var n := |more| - 1;
      NeverModified(bufs, leftover, schedule, more[..n]);
      RunInv(bufs, leftover, schedule);
      InvFrom(bufs, leftover, schedule, more[..n]);
      StepFinal(bufs, Run(bufs, leftover, schedule + more[..n]), more[n].0, more[n].1);
      RunThen(bufs, leftover, schedule + more[..n], more[n].0, more[n].1);
      assert schedule + more == schedule + more[..n] + [(more[n].0, more[n].1)];
    }
  }

  /** A reader never gets part of an object: what it has read is a prefix of the published file, at the end all of it. */
  lemma ReaderSeesWhole(bufs: nat -> seq<byte>, leftover: Option<seq<byte>>, schedule: seq<(nat, Action)>, p: nat)
    requires Careful(bufs, leftover, schedule)
    ensures var s := Run(bufs, leftover, schedule);
            && (PcOf(s, p).Reading? ==> s.final.Some? && PcOf(s, p).got <= Content(s, s.final.value)
                                        && PcOf(s, p).size == |Content(s, s.final.value)|)
            && (PcOf(s, p).Served? ==> s.final.Some? && PcOf(s, p).got == Content(s, s.final.value)
                                       && PcOf(s, p).size == |PcOf(s, p).got|)
  {
    RunInv(bufs, leftover, schedule);
    var s := Run(bufs, leftover, schedule);
    if p in s.pcs { assert ProcessOk(bufs, s, p, s.pcs[p]); }
  }

  // ---- Exactly when the published file is exactly one buffer -------------------------

  /** The published file is exactly the buffer of the process that renamed. */
  ghost predicate ExactlyOne(bufs: nat -> seq<byte>, s: State) {
    s.final.Some? ==> |s.renamers| == 1 && Content(s, s.final.value) == bufs(s.renamers[0])
  }

  /** No file the writers share is longer than L. */
  ghost predicate Short(s: State, L: nat) {
    && (s.final.None? && s.tmp.Some? ==> |Content(s, s.tmp.value)| <= L)
    && (forall p :: p in s.pcs && s.pcs[p].Writing? ==> |s.pcs[p].prior| <= L)
  }

  lemma ShortWrite(bufs: nat -> seq<byte>, s: State, p: nat, k: nat, L: nat)
    requires FilesOk(s) && Short(s, L) && |bufs(p)| == L
    requires p in s.pcs && s.pcs[p].Writing? && ProcessOk(bufs, s, p, s.pcs[p])
    ensures Short(StepPut(s, p, bufs(p), k), L)
  {
    hide Overwrite;
    var pc := s.pcs[p];
    if pc.n < |bufs(p)| {
      OverwriteStep(bufs(p), pc.prior, pc.n, Min(pc.n + k + 1, |bufs(p)|));
    }
  }

  lemma ShortPut(bufs: nat -> seq<byte>, s: State, p: nat, k: nat, L: nat)
    requires FilesOk(s) && Short(s, L) && !PcOf(s, p).Writing? && ProcessOk(bufs, s, p, PcOf(s, p))
    ensures Short(StepPut(s, p, bufs(p), k), L)
  {
    hide StepWrite;
  }

  lemma ShortGet(s: State, p: nat, k: nat, L: nat)
    requires Short(s, L)
    ensures Short(StepGet(s, p, k), L)
  {
  }

  lemma StepShort(bufs: nat -> seq<byte>, s: State, p: nat, act: Action, L: nat)
    requires Inv(bufs, s) && Short(s, L) && |bufs(p)| == L
    ensures Short(Step(bufs, s, p, act), L)
  {
    hide LocksOk, Published, FilesOk, StepPut, StepGet;
    if p in s.pcs { assert ProcessOk(bufs, s, p, s.pcs[p]); }
    if act.Get? {
      ShortGet(s, p, act.k, L);
    } else if act.Put? {
      if PcOf(s, p).Writing? {
        ShortWrite(bufs, s, p, act.k, L);
      } else {
        ShortPut(bufs, s, p, act.k, L);
      }
    }
  }

  lemma StepExact(bufs: nat -> seq<byte>, s: State, p: nat, act: Action)
    requires Inv(bufs, s) && ExactlyOne(bufs, s)
    requires p in s.pcs && s.pcs[p].Writing? ==> |s.pcs[p].prior| <= |bufs(p)|
    ensures ExactlyOne(bufs, Step(bufs, s, p, act))
  {
    StepFinal(bufs, s, p, act);
    hide Step, Inv;
    if s.final.None? && Step(bufs, s, p, act).final.Some? {
      PublishStep(bufs, s, p, act);
    }
  }

  /** All writers of the hash bring buffers of one length, and no leftover is longer. */
  ghost predicate OneLength(bufs: nat -> seq<byte>, leftover: Option<seq<byte>>) {
    forall p: nat, q: nat :: |bufs(p)| == |bufs(q)| && (leftover.Some? ==> |leftover.value| <= |bufs(p)|)
  }

  /** Then the published file is exactly one writer's buffer, even when processes die at any point and writes or renames fail. */
  lemma {:induction false} ExactWithDeaths(bufs: nat -> seq<byte>, leftover: Option<seq<byte>>, schedule: seq<(nat, Action)>)
    requires Careful(bufs, leftover, schedule) && OneLength(bufs, leftover)
    ensures var s := Run(bufs, leftover, schedule); ExactlyOne(bufs, s) && Short(s, |bufs(0)|)
  {
    hide Step, Inv, Careless;
    if schedule != [] {
      var n := |schedule| - 1;
      var p, act := schedule[n].0, schedule[n].1;
      ExactWithDeaths(bufs, leftover, schedule[..n]);
      RunInv(bufs, leftover, schedule[..n]);
      var s := Run(bufs, leftover, schedule[..n]);
      assert |bufs(p)| == |bufs(0)|;
      StepShort(bufs, s, p, act, |bufs(0)|);
      StepExact(bufs, s, p, act);
    }
  }

  function Leftover(leftover: Option<seq<byte>>): seq<byte> {
    if leftover.Some? then leftover.value else []
  }

  /** Every writer has found what was left over, and nothing else. */
  ghost predicate Clean(s: State, leftover: Option<seq<byte>>) {
    && (forall p :: p in s.pcs && s.pcs[p].Writing? ==> s.pcs[p].prior == Leftover(leftover))
    && (s.final.None? && s.tmp.Some? && (forall p :: p in s.pcs ==> !s.pcs[p].Writing?) ==>
          Content(s, s.tmp.value) == Leftover(leftover))
    && (s.final.None? && leftover.Some? ==> s.tmp.Some?)
  }

  lemma NowWriting(bufs: nat -> seq<byte>, s: State, p: nat, act: Action)
    requires !Fails(act) && !act.Die? && !CleansUp(s, p, act)
    ensures var s' := Step(bufs, s, p, act);
            && (PcOf(s', p).Writing? ==>
                  || (PcOf(s, p).Writing? && PcOf(s', p).prior == PcOf(s, p).prior)
                  || (PcOf(s, p).HasLock? && PcOf(s', p).prior == Content(s, PcOf(s, p).fd)))
            && (PcOf(s, p).Writing? && s.tmp.Some? ==> PcOf(s', p).Writing? || s'.tmp.None?)
            && (s.tmp.None? && s'.tmp.Some? ==> Content(s', s'.tmp.value) == [])
  {
  }

  lemma NobodyElseWrites(bufs: nat -> seq<byte>, s: State, p: nat)
    requires Inv(bufs, s) && p in s.pcs && s.pcs[p].HasLock?
    ensures forall q :: q in s.pcs ==> !s.pcs[q].Writing?
  {
    forall q | q in s.pcs ensures !s.pcs[q].Writing? {
      if s.pcs[q].Writing? { WriterAlone(bufs, s, q, p); }
    }
  }

  lemma StepClean(bufs: nat -> seq<byte>, s: State, p: nat, act: Action, leftover: Option<seq<byte>>)
    requires Inv(bufs, s) && NoCleanUp(s) && Clean(s, leftover) && !Fails(act) && !act.Die?
    ensures Clean(Step(bufs, s, p, act), leftover)
  {
    assert !CleansUp(s, p, act);
    StepMoves(bufs, s, p, act);
    NowWriting(bufs, s, p, act);
    StepBefore(bufs, s, p, act);
    if p in s.pcs {
      assert ProcessOk(bufs, s, p, s.pcs[p]);
      if s.pcs[p].HasLock? { NobodyElseWrites(bufs, s, p); }
    }
    hide Step;
    CleanFrame(s, Step(bufs, s, p, act), p, leftover);
  }

  lemma CleanFrame(s: State, s': State, p: nat, leftover: Option<seq<byte>>)
    requires Clean(s, leftover) && FilesOk(s) && Moves(s, s', p)
    requires PcOf(s', p).Writing? ==> PcOf(s', p).prior == Leftover(leftover)
    requires PcOf(s, p).Writing? && s.tmp.Some? ==> PcOf(s', p).Writing? || s'.tmp.None?
    requires s.tmp.None? && s'.tmp.Some? ==> Content(s', s'.tmp.value) == []
    requires s'.final.None? ==>
               && s.final.None?
               && (s.tmp.Some? ==> s'.tmp == s.tmp)
               && (forall i :: i in s.files && Content(s', i) != Content(s, i) ==> PcOf(s, p).Writing?)
    ensures Clean(s', leftover)
  {
    if s'.final.None? && s'.tmp.Some? && s.tmp.Some? && (forall q :: q in s'.pcs ==> !s'.pcs[q].Writing?) {
      forall q | q in s.pcs ensures !s.pcs[q].Writing? {
        if q != p { assert s'.pcs[q] == s.pcs[q]; }
      }
      assert s.tmp.value in s.files;
    }
  }

  /** Without deaths and failures, what is published is the renamer's buffer over what was left over. */
  ghost predicate OverLeftover(bufs: nat -> seq<byte>, s: State, leftover: Option<seq<byte>>) {
    s.final.Some? ==> |s.renamers| == 1 && PublishedBy(bufs, s, s.renamers[0], Leftover(leftover))
  }

  lemma StepOver(bufs: nat -> seq<byte>, s: State, p: nat, act: Action, leftover: Option<seq<byte>>)
    requires Inv(bufs, s) && Clean(s, leftover) && OverLeftover(bufs, s, leftover)
    ensures OverLeftover(bufs, Step(bufs, s, p, act), leftover)
  {
    StepFinal(bufs, s, p, act);
    hide Step, Inv;
    if s.final.None? && Step(bufs, s, p, act).final.Some? {
      PublishStep(bufs, s, p, act);
    }
  }

  /** Writers may bring any buffers: the file is exactly the renamer's buffer if and only if the leftover is no longer. */
  lemma {:induction false} ExactWithoutDeaths(bufs: nat -> seq<byte>, leftover: Option<seq<byte>>, schedule: seq<(nat, Action)>)
    requires NoFailure(schedule) && NoDeath(schedule)
    ensures var s := Run(bufs, leftover, schedule);
      && OverLeftover(bufs, s, leftover) && Clean(s, leftover)
      && (s.final.Some? ==> (ExactlyOne(bufs, s) <==> |Leftover(leftover)| <= |bufs(s.renamers[0])|))
  {
    hide Step, Inv, Careful;
    if schedule != [] {
      var n := |schedule| - 1;
      ExactWithoutDeaths(bufs, leftover, schedule[..n]);
      NoFailureIsCareful(bufs, leftover, schedule[..n]);
      RunInv(bufs, leftover, schedule[..n]);
      var s := Run(bufs, leftover, schedule[..n]);
      StepClean(bufs, s, schedule[n].0, schedule[n].1, leftover);
      StepOver(bufs, s, schedule[n].0, schedule[n].1, leftover);
    }
  }

  // ---- Runs that are needed for the other directions ---------------------------------

  /** The continuation leads to this state, without a careless step. */
  ghost predicate Path(bufs: nat -> seq<byte>, leftover: Option<seq<byte>>, h: seq<(nat, Action)>, more: seq<(nat, Action)>, s: State) {
    Run(bufs, leftover, h + more) == s && CarefulFrom(bufs, leftover, h, more)
  }

  lemma PathStarts(bufs: nat -> seq<byte>, leftover: Option<seq<byte>>, h: seq<(nat, Action)>)
    ensures Path(bufs, leftover, h, [], Run(bufs, leftover, h))
  {
    assert h + [] == h;
  }

  lemma Next(bufs: nat -> seq<byte>, leftover: Option<seq<byte>>, h: seq<(nat, Action)>, more: seq<(nat, Action)>, s: State,
             p: nat, act: Action, s': State) returns (longer: seq<(nat, Action)>)
    requires Path(bufs, leftover, h, more, s) && Step(bufs, s, p, act) == s' && !CleansUp(s, p, act)
    ensures Path(bufs, leftover, h, longer, s') && longer == more + [(p, act)]
  {
    hide Step;
    longer := more + [(p, act)];
    RunThen(bufs, leftover, h + more, p, act);
    assert h + longer == h + more + [(p, act)];
    assert longer[..|longer| - 1] == more;
  }

  /** Locking, checking for the final name, and starting to write. */
  lemma StartWriting(bufs: nat -> seq<byte>, leftover: Option<seq<byte>>, h: seq<(nat, Action)>, more: seq<(nat, Action)>,
                     s: State, p: nat, fd: Inode) returns (longer: seq<(nat, Action)>, s': State)
    requires Path(bufs, leftover, h, more, s) && PcOf(s, p) == Opened(fd) && s.final.None? && fd !in s.locks
    ensures Path(bufs, leftover, h, longer, s') && longer == more + [(p, Put(0)), (p, Put(0))]
    ensures s' == s.(locks := s.locks[fd := p], pcs := s.pcs[p := Writing(fd, 0, Content(s, fd))])
  {
    hide Path;
    var s1 := s.(locks := s.locks[fd := p], pcs := s.pcs[p := HasLock(fd)]);
    longer := Next(bufs, leftover, h, more, s, p, Put(0), s1);
    s' := s.(locks := s.locks[fd := p], pcs := s.pcs[p := Writing(fd, 0, Content(s, fd))]);
    assert s1.pcs[p := Writing(fd, 0, Content(s, fd))] == s'.pcs;
    longer := Next(bufs, leftover, h, longer, s1, p, Put(0), s');
  }

  /** Writing the whole buffer in one go. */
  lemma WriteWhole(bufs: nat -> seq<byte>, leftover: Option<seq<byte>>, h: seq<(nat, Action)>, more: seq<(nat, Action)>,
                   s: State, p: nat, fd: Inode, c: seq<byte>) returns (longer: seq<(nat, Action)>, s': State)
    requires Path(bufs, leftover, h, more, s) && p in s.pcs && s.pcs[p] == Writing(fd, 0, c) && fd in s.files && s.files[fd] == c
    ensures Path(bufs, leftover, h, longer, s') && (longer == more || longer == more + [(p, Put(|bufs(p)|))])
    ensures s' == s.(files := s.files[fd := Overlay(bufs(p), c)], pcs := s.pcs[p := Writing(fd, |bufs(p)|, c)])
  {
    hide Path;
    var b := bufs(p);
    s' := s.(files := s.files[fd := Overlay(b, c)], pcs := s.pcs[p := Writing(fd, |b|, c)]);
    if b == [] {
      assert Overlay(b, c) == c;
      assert s'.files == s.files && s'.pcs == s.pcs;
      longer := more;
    } else {
      assert b[0..|b|] == b && Overwrite(c, 0, b) == Overlay(b, c);
      longer := Next(bufs, leftover, h, more, s, p, Put(|b|), s');
    }
  }

  lemma RenameNow(bufs: nat -> seq<byte>, leftover: Option<seq<byte>>, h: seq<(nat, Action)>, more: seq<(nat, Action)>,
                  s: State, p: nat, fd: Inode, c: seq<byte>, i: Inode) returns (longer: seq<(nat, Action)>, s': State)
    requires Path(bufs, leftover, h, more, s) && PcOf(s, p) == Writing(fd, |bufs(p)|, c) && s.tmp == Some(i)
    ensures Path(bufs, leftover, h, longer, s') && longer == more + [(p, Put(0))]
    ensures s' == s.(tmp := None, final := Some(i), renamers := s.renamers + [p], pcs := s.pcs[p := Closing(fd)])
  {
    hide Path;
    s' := s.(tmp := None, final := Some(i), renamers := s.renamers + [p], pcs := s.pcs[p := Closing(fd)]);
    longer := Next(bufs, leftover, h, more, s, p, Put(0), s');
  }

  /** The first process to open the temporary file, found or made. */
  lemma OpenFirst(bufs: nat -> seq<byte>, leftover: Option<seq<byte>>, p: nat) returns (more: seq<(nat, Action)>, s: State)
    ensures Path(bufs, leftover, [], more, s) && more == [(p, Put(0))]
    ensures s == State(Some(0), None, map[0 := Leftover(leftover)], 1, map[], map[p := Opened(0)], [])
  {
    PathStarts(bufs, leftover, []);
    hide Path;
    s := State(Some(0), None, map[0 := Leftover(leftover)], 1, map[], map[p := Opened(0)], []);
    more := Next(bufs, leftover, [], [], Init(leftover), p, Put(0), s);
  }

  /** From an open temporary file to the final name. */
  lemma WriteAndRename(bufs: nat -> seq<byte>, leftover: Option<seq<byte>>, h: seq<(nat, Action)>, s: State, p: nat)
    returns (more: seq<(nat, Action)>, s': State)
    requires Path(bufs, leftover, [], h, s) && NoFailure(h)
    requires PcOf(s, p) == Opened(0) && s.tmp == Some(0) && s.final.None? && s.locks == map[] && 0 in s.files && s.renamers == []
    ensures Path(bufs, leftover, [], more, s') && NoFailure(more)
    ensures s'.final == Some(0) && s'.renamers == [p] && Content(s', 0) == Overlay(bufs(p), s.files[0])
  {
    hide Path, Step, Overlay;
    var c := s.files[0];
    var m1, s1 := StartWriting(bufs, leftover, [], h, s, p, 0);
    var m2, s2 := WriteWhole(bufs, leftover, [], m1, s1, p, 0, c);
    more, s' := RenameNow(bufs, leftover, [], m2, s2, p, 0, c, 0);
  }

  lemma PathEnds(bufs: nat -> seq<byte>, leftover: Option<seq<byte>>, more: seq<(nat, Action)>, s: State)
    requires Path(bufs, leftover, [], more, s)
    ensures Run(bufs, leftover, more) == s && Careful(bufs, leftover, more)
  {
    assert [] + more == more;
  }

  /** A writer on its own publishes its buffer over what was left over. */
  lemma LoneWriter(bufs: nat -> seq<byte>, leftover: Option<seq<byte>>, p: nat) returns (more: seq<(nat, Action)>)
    ensures NoFailure(more)
    ensures var s := Run(bufs, leftover, more);
      s.final == Some(0) && s.renamers == [p] && Content(s, 0) == Overlay(bufs(p), Leftover(leftover))
  {
    hide Path, Run, Overlay;
    var s: State;
    more, s := OpenFirst(bufs, leftover, p);
    more, s := WriteAndRename(bufs, leftover, more, s, p);
    PathEnds(bufs, leftover, more, s);
  }

  /** A writer that dies after writing everything. */
  lemma DiedAfterWriting(bufs: nat -> seq<byte>, leftover: Option<seq<byte>>, q: nat) returns (more: seq<(nat, Action)>, s: State)
    ensures Path(bufs, leftover, [], more, s) && NoFailure(more)
    ensures s == State(Some(0), None, map[0 := Overlay(bufs(q), Leftover(leftover))], 1, map[], map[q := Ended], [])
  {
    hide Run, CarefulFrom;
    var c := Leftover(leftover);
    var s1: State;
    more, s1 := OpenFirst(bufs, leftover, q);
    more, s1 := StartWriting(bufs, leftover, [], more, s1, q, 0);
    more, s1 := WriteWhole(bufs, leftover, [], more, s1, q, 0, c);
    s := State(Some(0), None, map[0 := Overlay(bufs(q), c)], 1, map[], map[q := Ended], []);
    assert DropLock(s1.locks, q) == map[];
    more := Next(bufs, leftover, [], more, s1, q, Die, s);
  }

  /** Another publishes over what it wrote. */
  lemma AfterDeath(bufs: nat -> seq<byte>, leftover: Option<seq<byte>>, p: nat, q: nat) returns (more: seq<(nat, Action)>)
    requires p != q
    ensures NoFailure(more)
    ensures var s := Run(bufs, leftover, more);
      s.final == Some(0) && s.renamers == [p] && Content(s, 0) == Overlay(bufs(p), Overlay(bufs(q), Leftover(leftover)))
  {
    hide Run, CarefulFrom;
    var s: State;
    more, s := DiedAfterWriting(bufs, leftover, q);
    var c := Overlay(bufs(q), Leftover(leftover));
    var s1 := s.(pcs := map[q := Ended, p := Opened(0)]);
    more := Next(bufs, leftover, [], more, s, p, Put(0), s1);
    hide Step, Path;
    more, s := WriteAndRename(bufs, leftover, more, s1, p);
    PathEnds(bufs, leftover, more, s);
  }

  /** Whatever happens, deaths and failures included, but no careless clean-up, the published file is exactly the renamer's buffer. */
  ghost predicate AlwaysExact(bufs: nat -> seq<byte>, leftover: Option<seq<byte>>) {
    forall schedule :: Careful(bufs, leftover, schedule) ==> ExactlyOne(bufs, Run(bufs, leftover, schedule))
  }

  lemma OtherLengthRun(bufs: nat -> seq<byte>, leftover: Option<seq<byte>>) returns (schedule: seq<(nat, Action)>)
    requires !OneLength(bufs, leftover)
    ensures NoFailure(schedule) && !ExactlyOne(bufs, Run(bufs, leftover, schedule))
  {
    hide Run;
    var p: nat, q: nat :| !(|bufs(p)| == |bufs(q)| && (leftover.Some? ==> |leftover.value| <= |bufs(p)|));
    if |bufs(p)| == |bufs(q)| {
      schedule := LoneWriter(bufs, leftover, p);
    } else {
      var short, long := if |bufs(p)| < |bufs(q)| then p else q, if |bufs(p)| < |bufs(q)| then q else p;
      schedule := AfterDeath(bufs, leftover, short, long);
      assert |Overlay(bufs(long), Leftover(leftover))| > |bufs(short)|;
    }
  }

  /** That is so exactly if all buffers have one length and no leftover is longer. */
  lemma ExactExactly(bufs: nat -> seq<byte>, leftover: Option<seq<byte>>)
    ensures AlwaysExact(bufs, leftover) <==> OneLength(bufs, leftover)
  {
    hide Run, CarefulFrom;
    if OneLength(bufs, leftover) {
      forall schedule | Careful(bufs, leftover, schedule) ensures ExactlyOne(bufs, Run(bufs, leftover, schedule)) {
        ExactWithDeaths(bufs, leftover, schedule);
      }
    } else {
      var schedule := OtherLengthRun(bufs, leftover);
      NoFailureIsCareful(bufs, leftover, schedule);
    }
  }

  // ---- Failed writes and renames -----------------------------------------------------

  ghost predicate NonEmpty(bufs: nat -> seq<byte>) {
    forall p: nat :: |bufs(p)| > 0
  }

  lemma {:induction false} Unused(m: map<nat, Pc>) returns (r: nat)
    ensures forall q :: q in m ==> q < r
    decreases |m|
  {
    if m == map[] {
      r := 0;
    } else {
      var q :| q in m;
      var m' := m - {q};
      assert m'.Keys == m.Keys - {q};
      r := Unused(m');
      if r <= q {
        r := q + 1;
      }
      forall k | k in m ensures k < r {
        assert k == q || k in m';
      }
    }
  }

  /** The other process locks and writes a file without a name, while a third makes a new one. */
  lemma WriteNameless(bufs: nat -> seq<byte>, leftover: Option<seq<byte>>, h: seq<(nat, Action)>, s: State, p: nat, q: nat, fd: Inode)
    returns (more: seq<(nat, Action)>, s': State)
    requires Run(bufs, leftover, h) == s && p != q
    requires PcOf(s, p) == Closing(fd) && PcOf(s, q) == Opened(fd) && s.tmp.None? && s.final.None? && s.renamers == []
    requires fd in s.files && fd < s.next && (forall i :: i in s.files <==> 0 <= i < s.next)
    requires fd in s.locks ==> s.locks[fd] == p
    ensures Path(bufs, leftover, h, more, s') && NoFailure(more)
    ensures s'.tmp == Some(s.next) && s'.final.None? && s'.renamers == [] && s'.files == s.files[s.next := []]
    ensures q in s'.pcs && s'.pcs[q] == Writing(fd, 0, s.files[fd])
  {
    PathStarts(bufs, leftover, h);
    hide Path, Run;
    var s1 := s.(pcs := s.pcs[p := Ended], locks := DropLock(s.locks, p));
    more := Next(bufs, leftover, h, [], s, p, Put(0), s1);
    var s2: State;
    more, s2 := StartWriting(bufs, leftover, h, more, s1, q, fd);
    var r := Unused(s2.pcs);
    s' := s2.(tmp := Some(s.next), files := s2.files[s.next := []], next := s.next + 1, pcs := s2.pcs[r := Opened(s.next)]);
    more := Next(bufs, leftover, h, more, s2, r, Put(0), s');
  }

  /** After a careless clean-up: the other process renames the file that the third has made. */
  lemma CarelessLeaks(bufs: nat -> seq<byte>, leftover: Option<seq<byte>>, h: seq<(nat, Action)>, s: State, p: nat, q: nat, fd: Inode)
    returns (more: seq<(nat, Action)>)
    requires Run(bufs, leftover, h) == s && |bufs(q)| > 0 && p != q
    requires PcOf(s, p) == Closing(fd) && PcOf(s, q) == Opened(fd) && s.tmp.None? && s.final.None? && s.renamers == []
    requires fd in s.files && fd < s.next && (forall i :: i in s.files <==> 0 <= i < s.next)
    requires fd in s.locks ==> s.locks[fd] == p
    ensures NoFailure(more) && CarefulFrom(bufs, leftover, h, more) && !Whole(bufs, Run(bufs, leftover, h + more))
  {
    hide Path, Run, CarefulFrom, Overlay, Step;
    var c := s.files[fd];
    var m1, s1 := WriteNameless(bufs, leftover, h, s, p, q, fd);
    var m2, s2 := WriteWhole(bufs, leftover, h, m1, s1, q, fd, c);
    var s3: State;
    more, s3 := RenameNow(bufs, leftover, h, m2, s2, q, fd, c, s.next);
    assert Content(s3, s.next) == [] && s3.renamers == [q];
    NotWhole(bufs, s3, q);
    PathState(bufs, leftover, h, more, s3);
  }

  lemma NotWhole(bufs: nat -> seq<byte>, s: State, q: nat)
    requires s.final.Some? && s.renamers == [q] && Content(s, s.final.value) == [] && |bufs(q)| > 0
    ensures !Whole(bufs, s)
  {
  }

  lemma CleanedState(bufs: nat -> seq<byte>, s: State, p: nat)
    requires Inv(bufs, s) && CleansUp(s, p, Put(0))
    ensures var s', fd := Step(bufs, s, p, Put(0)), PcOf(s, p).fd;
      && s' == s.(tmp := None, pcs := s.pcs[p := Closing(fd)])
      && fd in s.files && fd < s.next && (forall i :: i in s.files <==> 0 <= i < s.next)
      && fd in s.locks && s.locks[fd] == p && s.renamers == []
  {
    assert ProcessOk(bufs, s, p, s.pcs[p]);
  }

  /** Whatever follows the clean-up without another careless one publishes whole buffers. */
  ghost predicate AlwaysWholeAfter(bufs: nat -> seq<byte>, leftover: Option<seq<byte>>, h: seq<(nat, Action)>) {
    forall more :: CarefulFrom(bufs, leftover, h, more) ==> Whole(bufs, Run(bufs, leftover, h + more))
  }

  /** A watched clean-up leads to an incomplete object without another failure. */
  lemma WatchedLeaks(bufs: nat -> seq<byte>, leftover: Option<seq<byte>>, h: seq<(nat, Action)>, p: nat)
    returns (more: seq<(nat, Action)>)
    requires NonEmpty(bufs) && Careful(bufs, leftover, h)
    requires var s := Run(bufs, leftover, h); CleansUp(s, p, Put(0)) && Watched(s, p)
    ensures var h' := h + [(p, Put(0))];
      NoFailure(more) && CarefulFrom(bufs, leftover, h', more) && !Whole(bufs, Run(bufs, leftover, h' + more))
  {
    var s, h' := Run(bufs, leftover, h), h + [(p, Put(0))];
    RunInv(bufs, leftover, h);
    RunThen(bufs, leftover, h, p, Put(0));
    hide Run, CarefulFrom;
    var q :| q in s.pcs && q != p && s.pcs[q] == Opened(PcOf(s, p).fd);
    CleanedState(bufs, s, p);
    hide Step;
    more := CarelessLeaks(bufs, leftover, h', Run(bufs, leftover, h'), p, q, PcOf(s, p).fd);
  }

  /** A clean-up after a failure is harmless exactly if no other process has that file open with its lock untried. */
  lemma CleanUpExactly(bufs: nat -> seq<byte>, leftover: Option<seq<byte>>, h: seq<(nat, Action)>, p: nat)
    requires NonEmpty(bufs) && Careful(bufs, leftover, h) && CleansUp(Run(bufs, leftover, h), p, Put(0))
    ensures AlwaysWholeAfter(bufs, leftover, h + [(p, Put(0))]) <==> !Watched(Run(bufs, leftover, h), p)
  {
    var s, h' := Run(bufs, leftover, h), h + [(p, Put(0))];
    if !Watched(s, p) {
      RunInv(bufs, leftover, h);
      RunThen(bufs, leftover, h, p, Put(0));
      hide Run, CarefulFrom;
      StepInv(bufs, s, p, Put(0));
      forall more | CarefulFrom(bufs, leftover, h', more) ensures Whole(bufs, Run(bufs, leftover, h' + more)) {
        InvFrom(bufs, leftover, h', more);
      }
    } else {
      hide Run, CarefulFrom, Whole;
      var more := WatchedLeaks(bufs, leftover, h, p);
    }
  }

  /** Two processes have the temporary file open, and one of them has started to write. */
  lemma TwoOpen(bufs: nat -> seq<byte>, leftover: Option<seq<byte>>) returns (h: seq<(nat, Action)>, s: State)
    ensures Path(bufs, leftover, [], h, s) && NoFailure(h)
    ensures var c := Leftover(leftover);
      s == State(Some(0), None, map[0 := c], 1, map[0 := 0], map[0 := Writing(0, 0, c), 1 := Opened(0)], [])
  {
    hide Path, Overlay;
    var c := Leftover(leftover);
    h, s := OpenFirst(bufs, leftover, 0);
    var s1 := s.(pcs := map[0 := Opened(0), 1 := Opened(0)]);
    h := Next(bufs, leftover, [], h, s, 1, Put(0), s1);
    h, s := StartWriting(bufs, leftover, [], h, s1, 0, 0);
    assert s.pcs == map[0 := Writing(0, 0, c), 1 := Opened(0)];
  }

  /** The one that writes meets a failure, after n bytes. */
  lemma FailNow(bufs: nat -> seq<byte>, leftover: Option<seq<byte>>, h: seq<(nat, Action)>, s: State, n: nat, c: seq<byte>, rename: bool)
    returns (longer: seq<(nat, Action)>)
    requires Path(bufs, leftover, [], h, s) && NoFailure(h) && s.final.None?
    requires s.pcs == map[0 := Writing(0, n, c), 1 := Opened(0)] && (rename <==> n >= |bufs(0)|)
    ensures Careful(bufs, leftover, longer) && FailsOnly(longer, !rename, rename)
    ensures var s' := Run(bufs, leftover, longer); CleansUp(s', 0, Put(0)) && Watched(s', 0)
  {
    hide Path, Run, Careful;
    var s' := s.(pcs := s.pcs[0 := Discard(0)]);
    longer := Next(bufs, leftover, [], h, s, 0, if rename then RenameFails else WriteFails, s');
    PathEnds(bufs, leftover, longer, s');
    assert 1 in s'.pcs && s'.pcs[1] == Opened(0);
  }

  /** A run up to a clean-up that is watched, after a failed rename or a failed write. */
  lemma ToCareless(bufs: nat -> seq<byte>, leftover: Option<seq<byte>>, rename: bool) returns (h: seq<(nat, Action)>)
    requires NonEmpty(bufs)
    ensures Careful(bufs, leftover, h) && FailsOnly(h, !rename, rename)
    ensures var s := Run(bufs, leftover, h); CleansUp(s, 0, Put(0)) && Watched(s, 0)
  {
    hide Path, Run, Careful, Overlay, FailsOnly;
    var s: State;
    h, s := TwoOpen(bufs, leftover);
    var c := Leftover(leftover);
    if rename {
      h, s := WriteAll(bufs, leftover, h, s, c);
      h := FailNow(bufs, leftover, h, s, |bufs(0)|, c, true);
    } else {
      h := FailNow(bufs, leftover, h, s, 0, c, false);
    }
  }

  lemma WriteAll(bufs: nat -> seq<byte>, leftover: Option<seq<byte>>, h: seq<(nat, Action)>, s: State, c: seq<byte>)
    returns (longer: seq<(nat, Action)>, s': State)
    requires Path(bufs, leftover, [], h, s) && NoFailure(h)
    requires s.pcs == map[0 := Writing(0, 0, c), 1 := Opened(0)] && 0 in s.files && s.files[0] == c
    ensures Path(bufs, leftover, [], longer, s') && NoFailure(longer) && s'.final == s.final
    ensures s'.pcs == map[0 := Writing(0, |bufs(0)|, c), 1 := Opened(0)]
  {
    hide Path, Overlay;
    longer, s' := WriteWhole(bufs, leftover, [], h, s, 0, 0, c);
    assert s'.pcs == map[0 := Writing(0, |bufs(0)|, c), 1 := Opened(0)];
  }

  /** Every run, with failed writes and renames if they are allowed, publishes whole buffers. */
  ghost predicate AlwaysWhole(bufs: nat -> seq<byte>, leftover: Option<seq<byte>>, writes: bool, renames: bool) {
    forall schedule :: FailsOnly(schedule, writes, renames) ==> Whole(bufs, Run(bufs, leftover, schedule))
  }

  /** That is so exactly if neither writes nor renames fail. */
  lemma WholeExactly(bufs: nat -> seq<byte>, leftover: Option<seq<byte>>, writes: bool, renames: bool)
    requires NonEmpty(bufs)
    ensures AlwaysWhole(bufs, leftover, writes, renames) <==> !writes && !renames
  {
    hide Run, CarefulFrom, Whole;
    if writes || renames {
      var schedule := FailureLeaks(bufs, leftover, renames);
      assert FailsOnly(schedule, writes, renames);
    } else {
      forall schedule | NoFailure(schedule) ensures Whole(bufs, Run(bufs, leftover, schedule)) {
        NoFailureIsCareful(bufs, leftover, schedule);
        PublishedOnce(bufs, leftover, schedule);
      }
    }
  }

  /** For all buffers and any leftover, a failed write alone leads to an incomplete object in some run, and so does a failed rename. */
  lemma FailureLeaks(bufs: nat -> seq<byte>, leftover: Option<seq<byte>>, rename: bool) returns (schedule: seq<(nat, Action)>)
    requires NonEmpty(bufs)
    ensures FailsOnly(schedule, !rename, rename) && !Whole(bufs, Run(bufs, leftover, schedule))
  {
    hide Run, CarefulFrom, Whole;
    var h := ToCareless(bufs, leftover, rename);
    var more := WatchedLeaks(bufs, leftover, h, 0);
    schedule := h + [(0, Put(0))] + more;
  }

  lemma ExactIsWhole(bufs: nat -> seq<byte>, s: State)
    requires ExactlyOne(bufs, s)
    ensures Whole(bufs, s)
  {
    if s.final.Some? {
      assert s.renamers == [s.renamers[0]];
      assert PublishedBy(bufs, s, s.renamers[0], []);
    }
  }

  /** Every run, with these failures, ends with exactly the renamer's buffer. */
  ghost predicate AlwaysExactWith(bufs: nat -> seq<byte>, leftover: Option<seq<byte>>, writes: bool, renames: bool) {
    forall schedule :: FailsOnly(schedule, writes, renames) ==> ExactlyOne(bufs, Run(bufs, leftover, schedule))
  }

  /** Over all runs, careless or not: exactly if nothing fails, all buffers have one length, and no leftover is longer. */
  lemma ExactOverall(bufs: nat -> seq<byte>, leftover: Option<seq<byte>>, writes: bool, renames: bool)
    requires NonEmpty(bufs)
    ensures AlwaysExactWith(bufs, leftover, writes, renames) <==> OneLength(bufs, leftover) && !writes && !renames
  {
    hide Run, CarefulFrom, Whole, ExactlyOne;
    if writes || renames {
      var schedule := FailureLeaks(bufs, leftover, renames);
      assert FailsOnly(schedule, writes, renames);
      if ExactlyOne(bufs, Run(bufs, leftover, schedule)) {
        ExactIsWhole(bufs, Run(bufs, leftover, schedule));
      }
    } else if OneLength(bufs, leftover) {
      forall schedule | NoFailure(schedule) ensures ExactlyOne(bufs, Run(bufs, leftover, schedule)) {
        NoFailureIsCareful(bufs, leftover, schedule);
        ExactWithDeaths(bufs, leftover, schedule);
      }
    } else {
      var schedule := OtherLengthRun(bufs, leftover);
    }
  }

  // ---- Every call comes to its end ---------------------------------------------------

  predicate StepsOf(more: seq<(nat, Action)>, p: nat, act: Action) {
    forall i :: 0 <= i < |more| ==> more[i] == (p, act)
  }

  /** Reading the rest of a file. */
  lemma {:induction false} ReadRest(bufs: nat -> seq<byte>, leftover: Option<seq<byte>>, h: seq<(nat, Action)>, more: seq<(nat, Action)>,
                                    s: State, p: nat, k: nat, fd: Inode, n: nat) returns (longer: seq<(nat, Action)>, s': State)
    requires Path(bufs, leftover, h, more, s) && StepsOf(more, p, Get(k))
    requires var c := Content(s, fd); n <= |c| && PcOf(s, p) == Reading(fd, |c|, c[..n])
    ensures Path(bufs, leftover, h, longer, s') && StepsOf(longer, p, Get(k))
    ensures var c := Content(s, fd); s' == s.(pcs := s.pcs[p := Served(|c|, c)])
    decreases |Content(s, fd)| - n
  {
    hide Path;
    var c := Content(s, fd);
    if n == |c| {
      assert c[..n] == c;
      s' := s.(pcs := s.pcs[p := Served(|c|, c)]);
      longer := Next(bufs, leftover, h, more, s, p, Get(k), s');
    } else {
      var upto := Min(Min(n + k + 1, |c|), |c|);
      assert c[..n] + c[n..upto] == c[..upto];
      var s1 := s.(pcs := s.pcs[p := Reading(fd, |c|, c[..upto])]);
      longer := Next(bufs, leftover, h, more, s, p, Get(k), s1);
      longer, s' := ReadRest(bufs, leftover, h, longer, s1, p, k, fd, upto);
      assert s1.pcs[p := Served(|c|, c)] == s.pcs[p := Served(|c|, c)];
    }
  }

  /** After every run, a process that looks for a published object gets its size and all of its bytes, in chunks of any size. */
  lemma ReaderServed(bufs: nat -> seq<byte>, leftover: Option<seq<byte>>, h: seq<(nat, Action)>, p: nat, k: nat)
    returns (more: seq<(nat, Action)>)
    requires var s := Run(bufs, leftover, h); s.final.Some? && PcOf(s, p).Start?
    ensures StepsOf(more, p, Get(k))
    ensures var s := Run(bufs, leftover, h); var c := Content(s, s.final.value);
      Run(bufs, leftover, h + more) == s.(pcs := s.pcs[p := Served(|c|, c)])
  {
    PathStarts(bufs, leftover, h);
    hide Run, CarefulFrom;
    var s := Run(bufs, leftover, h);
    var fd := s.final.value;
    var c := Content(s, fd);
    assert c[..0] == [];
    var s1 := s.(pcs := s.pcs[p := Reading(fd, |c|, [])]);
    more := Next(bufs, leftover, h, [], s, p, Get(k), s1);
    var s2: State;
    more, s2 := ReadRest(bufs, leftover, h, more, s1, p, k, fd, 0);
    assert s1.pcs[p := Served(|c|, c)] == s.pcs[p := Served(|c|, c)];
  }

  /** It finds nothing exactly if there is nothing. */
  lemma MissedExactly(bufs: nat -> seq<byte>, s: State, p: nat, k: nat)
    requires PcOf(s, p).Start?
    ensures PcOf(Step(bufs, s, p, Get(k)), p).Missed? <==> s.final.None?
  {
  }

  /** Writing the rest of the buffer. */
  lemma {:induction false} WriteRest(bufs: nat -> seq<byte>, leftover: Option<seq<byte>>, h: seq<(nat, Action)>, more: seq<(nat, Action)>,
                                     s: State, p: nat, k: nat, fd: Inode, n: nat, c: seq<byte>)
    returns (longer: seq<(nat, Action)>, s': State)
    requires Path(bufs, leftover, h, more, s) && StepsOf(more, p, Put(k)) && n <= |bufs(p)|
    requires PcOf(s, p) == Writing(fd, n, c) && fd in s.files && s.files[fd] == Overlay(bufs(p)[..n], c)
    ensures Path(bufs, leftover, h, longer, s') && StepsOf(longer, p, Put(k))
    ensures s' == s.(files := s.files[fd := Overlay(bufs(p), c)], pcs := s.pcs[p := Writing(fd, |bufs(p)|, c)])
    decreases |bufs(p)| - n
  {
    hide Path, Overlay, Overwrite;
    var b := bufs(p);
    if n == |b| {
      assert b[..n] == b;
      longer, s' := more, s;
      assert s.files[fd := Overlay(b, c)] == s.files && s.pcs[p := Writing(fd, |b|, c)] == s.pcs;
    } else {
      var upto := Min(n + k + 1, |b|);
      OverwriteStep(b, c, n, upto);
      var s1 := s.(files := s.files[fd := Overlay(b[..upto], c)], pcs := s.pcs[p := Writing(fd, upto, c)]);
      longer := Next(bufs, leftover, h, more, s, p, Put(k), s1);
      longer, s' := WriteRest(bufs, leftover, h, longer, s1, p, k, fd, upto, c);
      assert s1.files[fd := Overlay(b, c)] == s.files[fd := Overlay(b, c)];
      assert s1.pcs[p := Writing(fd, |b|, c)] == s.pcs[p := Writing(fd, |b|, c)];
    }
  }

  /** The file that a process opens, and what it holds. */
  function Opens(s: State): Inode {
    if s.tmp.Some? then s.tmp.value else s.next
  }

  /** What Put does when it runs without being disturbed. */
  function PutResult(bufs: nat -> seq<byte>, s: State, p: nat): State {
    var i, pcs := Opens(s), s.pcs[p := Ended];
    var files, next := if s.tmp.Some? then s.files else s.files[i := []], if s.tmp.Some? then s.next else s.next + 1;
    if i in s.locks then s.(pcs := pcs)                                   // someone else is at it
    else if s.final.Some? then s.(pcs := pcs, tmp := None, files := files, next := next)   // someone else has done it
    else s.(pcs := pcs, tmp := None, final := Some(i), files := files[i := Overlay(bufs(p), Content(s, i))], next := next,
            renamers := s.renamers + [p])
  }

  lemma NoLocks(bufs: nat -> seq<byte>, s: State, p: nat)
    requires Inv(bufs, s) && PcOf(s, p).Start?
    ensures forall i :: i in s.locks ==> s.locks[i] != p
    ensures s.next !in s.locks && s.next !in s.files && (s.tmp.Some? ==> s.tmp.value in s.files)
  {
    forall i | i in s.locks ensures i < s.next {
      var q := s.locks[i];
      assert q in s.pcs && ProcessOk(bufs, s, q, s.pcs[q]);
    }
  }

  /** Opening the temporary file and trying its lock. */
  lemma OpenNow(bufs: nat -> seq<byte>, leftover: Option<seq<byte>>, h: seq<(nat, Action)>, s: State, p: nat, k: nat)
    returns (more: seq<(nat, Action)>, s': State)
    requires Run(bufs, leftover, h) == s && Inv(bufs, s) && PcOf(s, p).Start?
    ensures Path(bufs, leftover, h, more, s') && StepsOf(more, p, Put(k))
    ensures s' == AfterOpen(s, p)
  {
    PathStarts(bufs, leftover, h);
    hide Path;
    s' := AfterOpen(s, p);
    more := Next(bufs, leftover, h, [], s, p, Put(k), s');
  }

  lemma CloseNow(bufs: nat -> seq<byte>, leftover: Option<seq<byte>>, h: seq<(nat, Action)>, more: seq<(nat, Action)>,
                 s: State, p: nat, k: nat, fd: Inode, locks: map<Inode, nat>) returns (longer: seq<(nat, Action)>, s': State)
    requires Path(bufs, leftover, h, more, s) && StepsOf(more, p, Put(k)) && PcOf(s, p) == Closing(fd)
    requires forall i :: i in locks ==> locks[i] != p
    requires s.locks == locks || (fd !in locks && s.locks == locks[fd := p])
    ensures Path(bufs, leftover, h, longer, s') && StepsOf(longer, p, Put(k))
    ensures s' == s.(pcs := s.pcs[p := Ended], locks := locks)
  {
    hide Path;
    s' := s.(pcs := s.pcs[p := Ended], locks := locks);
    assert DropLock(s.locks, p) == locks;
    longer := Next(bufs, leftover, h, more, s, p, Put(k), s');
  }

  /** From the lock on: discard the temporary name if the object is there, else write it and rename. */
  lemma UnderLock(bufs: nat -> seq<byte>, leftover: Option<seq<byte>>, h: seq<(nat, Action)>, more: seq<(nat, Action)>,
                  s: State, p: nat, k: nat, fd: Inode) returns (longer: seq<(nat, Action)>, s': State)
    requires Path(bufs, leftover, h, more, s) && StepsOf(more, p, Put(k))
    requires PcOf(s, p) == HasLock(fd) && fd in s.files && s.tmp == Some(fd)
    ensures Path(bufs, leftover, h, longer, s') && StepsOf(longer, p, Put(k))
    ensures s' == if s.final.Some? then s.(pcs := s.pcs[p := Closing(fd)], tmp := None)
      else s.(pcs := s.pcs[p := Closing(fd)], tmp := None, final := Some(fd), renamers := s.renamers + [p],
              files := s.files[fd := Overlay(bufs(p), Content(s, fd))])
  {
    hide Path, Overlay;
    if s.final.Some? {
      var s1 := s.(pcs := s.pcs[p := Discard(fd)]);
      longer := Next(bufs, leftover, h, more, s, p, Put(k), s1);
      s' := s.(pcs := s.pcs[p := Closing(fd)], tmp := None);
      assert s1.pcs[p := Closing(fd)] == s'.pcs;
      longer := Next(bufs, leftover, h, longer, s1, p, Put(k), s');
    } else {
      var c := Content(s, fd);
      var s1 := s.(pcs := s.pcs[p := Writing(fd, 0, c)]);
      longer := Next(bufs, leftover, h, more, s, p, Put(k), s1);
      NothingWritten(bufs(p), c);
      var s2: State;
      longer, s2 := WriteRest(bufs, leftover, h, longer, s1, p, k, fd, 0, c);
      s' := s.(pcs := s.pcs[p := Closing(fd)], tmp := None, final := Some(fd), renamers := s.renamers + [p],
               files := s.files[fd := Overlay(bufs(p), c)]);
      assert s2.pcs[p := Closing(fd)] == s'.pcs;
      longer := Next(bufs, leftover, h, longer, s2, p, Put(k), s');
    }
  }

  lemma NothingWritten(b: seq<byte>, c: seq<byte>)
    ensures Overlay(b[..0], c) == c
  {
  }

  /** The state after the temporary file has been opened. */
  function AfterOpen(s: State, p: nat): State {
    var i := Opens(s);
    s.(pcs := s.pcs[p := Opened(i)], tmp := Some(i), files := if s.tmp.Some? then s.files else s.files[i := []],
       next := if s.tmp.Some? then s.next else s.next + 1)
  }

  lemma GiveUp(bufs: nat -> seq<byte>, leftover: Option<seq<byte>>, h: seq<(nat, Action)>, more: seq<(nat, Action)>,
               s: State, s1: State, p: nat, k: nat) returns (longer: seq<(nat, Action)>, s': State)
    requires Path(bufs, leftover, h, more, s1) && StepsOf(more, p, Put(k)) && s1 == AfterOpen(s, p) && Opens(s) in s.locks
    requires s.next !in s.locks && forall i :: i in s.locks ==> s.locks[i] != p
    ensures Path(bufs, leftover, h, longer, s') && StepsOf(longer, p, Put(k)) && s' == PutResult(bufs, s, p)
  {
    hide Path, Overlay;
    var i := Opens(s);
    var s2 := s1.(pcs := s1.pcs[p := Closing(i)]);
    longer := Next(bufs, leftover, h, more, s1, p, Put(k), s2);
    longer, s' := CloseNow(bufs, leftover, h, longer, s2, p, k, i, s.locks);
    assert s'.pcs == s.pcs[p := Ended];
  }

  lemma GoThrough(bufs: nat -> seq<byte>, leftover: Option<seq<byte>>, h: seq<(nat, Action)>, more: seq<(nat, Action)>,
                  s: State, s1: State, p: nat, k: nat) returns (longer: seq<(nat, Action)>, s': State)
    requires Path(bufs, leftover, h, more, s1) && StepsOf(more, p, Put(k)) && s1 == AfterOpen(s, p) && Opens(s) !in s.locks
    requires s.next !in s.files && (s.tmp.Some? ==> s.tmp.value in s.files) && forall i :: i in s.locks ==> s.locks[i] != p
    ensures Path(bufs, leftover, h, longer, s') && StepsOf(longer, p, Put(k)) && s' == PutResult(bufs, s, p)
  {
    hide Path, Overlay;
    var i := Opens(s);
    var s2 := s1.(pcs := s1.pcs[p := HasLock(i)], locks := s.locks[i := p]);
    longer := Next(bufs, leftover, h, more, s1, p, Put(k), s2);
    hide Step;
    var s3: State;
    longer, s3 := UnderLock(bufs, leftover, h, longer, s2, p, k, i);
    longer, s' := CloseNow(bufs, leftover, h, longer, s3, p, k, i, s.locks);
    assert s'.pcs == s.pcs[p := Ended];
  }

  /**
   After every run, a process that puts an object and is not disturbed comes to the end: it leaves things as they are if
   another process holds the lock, removes the temporary name if the object is there, and publishes its buffer otherwise.
   */
  lemma PutEnds(bufs: nat -> seq<byte>, leftover: Option<seq<byte>>, h: seq<(nat, Action)>, p: nat, k: nat)
    returns (more: seq<(nat, Action)>)
    requires Careful(bufs, leftover, h) && PcOf(Run(bufs, leftover, h), p).Start?
    ensures StepsOf(more, p, Put(k))
    ensures Run(bufs, leftover, h + more) == PutResult(bufs, Run(bufs, leftover, h), p)
  {
    var s := Run(bufs, leftover, h);
    RunInv(bufs, leftover, h);
    NoLocks(bufs, s, p);
    hide Run, Careful, CarefulFrom, Inv, Step, PutResult, Path;
    var s1, s2: State;
    more, s1 := OpenNow(bufs, leftover, h, s, p, k);
    if Opens(s) in s.locks {
      more, s2 := GiveUp(bufs, leftover, h, more, s, s1, p, k);
    } else {
      more, s2 := GoThrough(bufs, leftover, h, more, s, s1, p, k);
    }
    PathState(bufs, leftover, h, more, s2);
  }

  lemma PathState(bufs: nat -> seq<byte>, leftover: Option<seq<byte>>, h: seq<(nat, Action)>, more: seq<(nat, Action)>, s: State)
    requires Path(bufs, leftover, h, more, s)
    ensures Run(bufs, leftover, h + more) == s && CarefulFrom(bufs, leftover, h, more)
  {
  }
}
