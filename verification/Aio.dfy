/**
 The asynchronous I/O system as a transition system: any number of threads that
 submit or cancel operations, and one I/O thread per operation.  A queue per
 file descriptor is found through a map under a read-write lock, carries its own
 lock, counts the operations that refer to it, and is freed by whichever drops
 the last reference.
 */
module Aio {

  type Fd = nat
  type Qid = nat
  type Pid = nat

  datatype Option<+T> = None | Some(value: T)

  /** LIO_READ, LIO_WRITE, and O_SYNC or O_DSYNC. */
  datatype Kind = Read | Write | Sync

  /** What a thread wants a queue for. */
  datatype Purpose = Submit(kind: Kind) | Cancel

  datatype Mode = Shared | Exclusive

  /** Where a thread is. */
  datatype Proc =
    | Idle
    // __aio_get_queue
    | WantRead(fd: Fd, goal: Purpose)
    | HaveRead(fd: Fd, goal: Purpose)
    | WantWrite(fd: Fd, goal: Purpose)
    | HaveWrite(fd: Fd, goal: Purpose)
    | WantLock(q: Qid, mode: Mode, goal: Purpose)
    | HaveBoth(q: Qid, mode: Mode, goal: Purpose)
    | Got(q: Qid, goal: Purpose)
    // submit
    | Counted(q: Qid, kind: Kind)
    | CreateFailed(q: Qid)
    // io_thread_func and cleanup
    | IoStart(q: Qid, kind: Kind)
    | IoListed(q: Qid, kind: Kind)
    | IoWaiting(q: Qid, kind: Kind)
    | IoDoing(q: Qid, kind: Kind)
    | IoDone(q: Qid, kind: Kind)
    // __aio_unref_queue
    | Unref(q: Qid)
    | UnrefWantMap(q: Qid)
    | UnrefHaveMap(q: Qid)
    | UnrefBoth(q: Qid)
    | Freeing(q: Qid)
  {
    /** The thread has a pointer to queue `x`. */
    predicate Refers(x: Qid) {
      !Idle? && !WantRead? && !HaveRead? && !WantWrite? && !HaveWrite? && q == x
    }

    /** The thread's operation is counted in queue `x`'s ref. */
    predicate Counts(x: Qid) {
      Refers(x) && !WantLock? && !HaveBoth? && !Got?
    }

    /** The thread holds queue `x`'s lock. */
    predicate Locks(x: Qid) {
      Refers(x) && (HaveBoth? || Got? || IoListed? || Unref? || UnrefBoth? || Freeing?)
    }

    predicate Reads() {
      HaveRead? || ((WantLock? || HaveBoth?) && mode == Shared)
    }

    predicate Writes() {
      HaveWrite? || UnrefHaveMap? || UnrefBoth? || ((WantLock? || HaveBoth?) && mode == Exclusive)
    }

    /** The thread found the queue in the map and has kept the map locked since. */
    predicate Found(x: Qid) {
      Refers(x) && (WantLock? || HaveBoth?)
    }

    /** The thread's aio_thread is on queue `x`'s list. */
    predicate Listed(x: Qid) {
      Refers(x) && (IoListed? || IoWaiting? || IoDoing? || IoDone?)
    }

    /** Its I/O has been let through. */
    predicate Passed() {
      IoDoing? || IoDone?
    }
  }

  /** The list is the chain from `head`: newest operation first. */
  datatype Queue = Queue(fd: Fd, ref: nat, lock: Option<Pid>, list: seq<Pid>, init: bool, append: bool)

  datatype State = State(
    fds: map<Fd, Qid>,          // map
    queues: map<Qid, Queue>,    // allocated queues
    readers: set<Pid>,          // of maplock
    writer: Option<Pid>,
    fdCnt: int,                 // aio_fd_cnt
    procs: map<Pid, Proc>,
    nextQ: Qid)

  ghost predicate Begins(s: State) {
    && s.fds == map[] && s.queues == map[] && s.readers == {} && s.writer == None && s.fdCnt == 0
    && forall p :: p in s.procs ==> s.procs[p] == Idle
  }

  // ---- steps ----------------------------------------------------------------------------------

  function To(s: State, p: Pid, x: Proc): State {
    s.(procs := s.procs[p := x])
  }

  function WithQueue(s: State, q: Qid, x: Queue): State {
    s.(queues := s.queues[q := x])
  }

  ghost predicate At(s: State, p: Pid) {
    p in s.procs
  }

  predicate LockFree(s: State, q: Qid) {
    q in s.queues && s.queues[q].lock == None
  }

  function Acquired(s: State, q: Qid, p: Pid): State
    requires q in s.queues
  {
    WithQueue(s, q, s.queues[q].(lock := Some(p)))
  }

  function Released(s: State, q: Qid): State
    requires q in s.queues
  {
    WithQueue(s, q, s.queues[q].(lock := None))
  }

  function MapReleased(s: State, p: Pid, m: Mode): State {
    if m == Shared then s.(readers := s.readers - {p}) else s.(writer := None)
  }

  ghost predicate Start(s: State, s': State, p: Pid) {
    && At(s, p) && s.procs[p].Idle? && p in s'.procs && s'.procs[p].WantRead?
    && s' == To(s, p, s'.procs[p])
  }

  ghost predicate ReadLock(s: State, s': State, p: Pid) {
    && At(s, p) && s.procs[p].WantRead? && s.writer == None
    && s' == To(s, p, HaveRead(s.procs[p].fd, s.procs[p].goal)).(readers := s.readers + {p})
  }

  /** The descriptor has a queue. */
  ghost predicate Hit(s: State, s': State, p: Pid) {
    && At(s, p) && s.procs[p].HaveRead? && s.procs[p].fd in s.fds
    && s' == To(s, p, WantLock(s.fds[s.procs[p].fd], Shared, s.procs[p].goal))
  }

  /** It has none: a canceller gives up, and so does a submitter whose descriptor turns out not to be open;
      otherwise the map is locked again for writing. */
  ghost predicate Miss(s: State, s': State, p: Pid) {
    && At(s, p) && s.procs[p].HaveRead? && s.procs[p].fd !in s.fds && p in s'.procs
    && (s'.procs[p] == Idle || (s.procs[p].goal.Submit? && s'.procs[p] == WantWrite(s.procs[p].fd, s.procs[p].goal)))
    && s' == To(s, p, s'.procs[p]).(readers := s.readers - {p})
  }

  ghost predicate WriteLock(s: State, s': State, p: Pid) {
    && At(s, p) && s.procs[p].WantWrite? && s.writer == None && s.readers == {}
    && s' == To(s, p, HaveWrite(s.procs[p].fd, s.procs[p].goal)).(writer := Some(p))
  }

  /** Meanwhile another thread may have made the queue. */
  ghost predicate HitLate(s: State, s': State, p: Pid) {
    && At(s, p) && s.procs[p].HaveWrite? && s.procs[p].fd in s.fds
    && s' == To(s, p, WantLock(s.fds[s.procs[p].fd], Exclusive, s.procs[p].goal))
  }

  ghost predicate Create(s: State, s': State, p: Pid) {
    && At(s, p) && s.procs[p].HaveWrite? && s.procs[p].fd !in s.fds
    && var fd, q := s.procs[p].fd, s.nextQ;
       s' == To(s, p, WantLock(q, Exclusive, s.procs[p].goal)).(
               queues := s.queues[q := Queue(fd, 0, None, [], false, false)],
               fds := s.fds[fd := q], fdCnt := s.fdCnt + 1, nextQ := q + 1)
  }

  /** Some allocation fails. */
  ghost predicate CreateNothing(s: State, s': State, p: Pid) {
    && At(s, p) && s.procs[p].HaveWrite? && s.procs[p].fd !in s.fds
    && s' == To(s, p, Idle).(writer := None)
  }

  ghost predicate LockQueue(s: State, s': State, p: Pid) {
    && At(s, p) && s.procs[p].WantLock? && LockFree(s, s.procs[p].q)
    && s' == To(Acquired(s, s.procs[p].q, p), p, HaveBoth(s.procs[p].q, s.procs[p].mode, s.procs[p].goal))
  }

  ghost predicate UnlockMap(s: State, s': State, p: Pid) {
    && At(s, p) && s.procs[p].HaveBoth?
    && s' == MapReleased(To(s, p, Got(s.procs[p].q, s.procs[p].goal)), p, s.procs[p].mode)
  }

  /** The operation is counted and the queue unlocked. */
  ghost predicate Count(s: State, s': State, p: Pid) {
    && At(s, p) && s.procs[p].Got? && s.procs[p].goal.Submit? && s.procs[p].q in s.queues
    && var q := s.procs[p].q;
       s' == To(WithQueue(s, q, s.queues[q].(ref := s.queues[q].ref + 1, lock := None)), p, Counted(q, s.procs[p].goal.kind))
  }

  ghost predicate CancelEnd(s: State, s': State, p: Pid) {
    && At(s, p) && s.procs[p].Got? && s.procs[p].goal.Cancel? && s.procs[p].q in s.queues
    && s' == To(Released(s, s.procs[p].q), p, Idle)
  }

  /** pthread_create: the reference passes to the I/O thread `r`. */
  ghost predicate Spawn(s: State, s': State, p: Pid, r: Pid) {
    && At(s, p) && At(s, r) && r != p && s.procs[p].Counted? && s.procs[r].Idle?
    && s' == To(To(s, p, Idle), r, IoStart(s.procs[p].q, s.procs[p].kind))
  }

  ghost predicate SpawnFail(s: State, s': State, p: Pid) {
    && At(s, p) && s.procs[p].Counted?
    && s' == To(s, p, CreateFailed(s.procs[p].q))
  }

  ghost predicate RelockFailed(s: State, s': State, p: Pid) {
    && At(s, p) && s.procs[p].CreateFailed? && LockFree(s, s.procs[p].q)
    && s' == To(Acquired(s, s.procs[p].q, p), p, Unref(s.procs[p].q))
  }

  /** Lock the queue, go to the front of its list and, the first time, find out about the descriptor. */
  ghost predicate Enlist(s: State, s': State, p: Pid) {
    && At(s, p) && s.procs[p].IoStart? && LockFree(s, s.procs[p].q)
    && var q := s.procs[p].q;
       && q in s'.queues && (s.queues[q].init ==> s'.queues[q].append == s.queues[q].append)
       && s' == To(WithQueue(s, q, s.queues[q].(lock := Some(p), list := [p] + s.queues[q].list, init := true,
                                                append := s'.queues[q].append)),
                   p, IoListed(q, s.procs[p].kind))
  }

  /** Must the operation wait for older writes? */
  predicate Orders(k: Kind, append: bool) {
    k == Sync || (k == Write && append)
  }

  function KindOf(x: Proc): Kind {
    match x
    case Counted(_, k) => k
    case IoStart(_, k) => k
    case IoListed(_, k) => k
    case IoWaiting(_, k) => k
    case IoDoing(_, k) => k
    case IoDone(_, k) => k
    case _ => Read
  }

  /** A write stands behind place `i` of the list, that is, was enlisted earlier. */
  ghost predicate WriteBehind(s: State, list: seq<Pid>, i: int) {
    exists j :: 0 <= j < |list| && i < j && IsWrite(s.procs, list[j])
  }

  predicate IsWrite(procs: map<Pid, Proc>, p: Pid) {
    p in procs && KindOf(procs[p]) == Write
  }

  ghost predicate Blocked(s: State, p: Pid)
    requires At(s, p) && s.procs[p].IoListed? && s.procs[p].q in s.queues
  {
    var x := s.queues[s.procs[p].q];
    Orders(s.procs[p].kind, x.append) && exists i :: 0 <= i < |x.list| && x.list[i] == p && WriteBehind(s, x.list, i)
  }

  ghost predicate IoWait(s: State, s': State, p: Pid) {
    && At(s, p) && s.procs[p].IoListed? && s.procs[p].q in s.queues && Blocked(s, p)
    && s' == To(Released(s, s.procs[p].q), p, IoWaiting(s.procs[p].q, s.procs[p].kind))
  }

  ghost predicate IoWake(s: State, s': State, p: Pid) {
    && At(s, p) && s.procs[p].IoWaiting? && LockFree(s, s.procs[p].q)
    && s' == To(Acquired(s, s.procs[p].q, p), p, IoListed(s.procs[p].q, s.procs[p].kind))
  }

  ghost predicate IoEnter(s: State, s': State, p: Pid) {
    && At(s, p) && s.procs[p].IoListed? && s.procs[p].q in s.queues && !Blocked(s, p)
    && s' == To(Released(s, s.procs[p].q), p, IoDoing(s.procs[p].q, s.procs[p].kind))
  }

  /** The I/O returns or is cancelled. */
  ghost predicate IoEnd(s: State, s': State, p: Pid) {
    && At(s, p) && s.procs[p].IoDoing?
    && s' == To(s, p, Proc.IoDone(s.procs[p].q, s.procs[p].kind))
  }

  /** The list without the operation of thread `p`. */
  function Without(list: seq<Pid>, p: Pid): (r: seq<Pid>) {
    if list == [] then [] else if list[0] == p then list[1..] else [list[0]] + Without(list[1..], p)
  }

  ghost predicate Unlist(s: State, s': State, p: Pid) {
    && At(s, p) && s.procs[p].IoDone? && LockFree(s, s.procs[p].q)
    && var q := s.procs[p].q;
       s' == To(WithQueue(s, q, s.queues[q].(lock := Some(p), list := Without(s.queues[q].list, p))), p, Unref(q))
  }

  ghost predicate UnrefFast(s: State, s': State, p: Pid) {
    && At(s, p) && s.procs[p].Unref? && s.procs[p].q in s.queues && s.queues[s.procs[p].q].ref > 1
    && var q := s.procs[p].q;
       s' == To(WithQueue(s, q, s.queues[q].(ref := s.queues[q].ref - 1, lock := None)), p, Idle)
  }

  ghost predicate UnrefSlow(s: State, s': State, p: Pid) {
    && At(s, p) && s.procs[p].Unref? && s.procs[p].q in s.queues && s.queues[s.procs[p].q].ref <= 1
    && s' == To(Released(s, s.procs[p].q), p, UnrefWantMap(s.procs[p].q))
  }

  ghost predicate UnrefLockMap(s: State, s': State, p: Pid) {
    && At(s, p) && s.procs[p].UnrefWantMap? && s.writer == None && s.readers == {}
    && s' == To(s, p, UnrefHaveMap(s.procs[p].q)).(writer := Some(p))
  }

  ghost predicate UnrefLockQueue(s: State, s': State, p: Pid) {
    && At(s, p) && s.procs[p].UnrefHaveMap? && LockFree(s, s.procs[p].q)
    && s' == To(Acquired(s, s.procs[p].q, p), p, UnrefBoth(s.procs[p].q))
  }

  /** Still the last reference: the queue leaves the map. */
  ghost predicate UnrefLast(s: State, s': State, p: Pid) {
    && At(s, p) && s.procs[p].UnrefBoth? && s.procs[p].q in s.queues && s.queues[s.procs[p].q].ref == 1
    && var q := s.procs[p].q;
       s' == To(s, p, Freeing(q)).(fds := s.fds - {s.queues[q].fd}, fdCnt := s.fdCnt - 1, writer := None)
  }

  /** Another operation has come in between. */
  ghost predicate UnrefMore(s: State, s': State, p: Pid) {
    && At(s, p) && s.procs[p].UnrefBoth? && s.procs[p].q in s.queues && s.queues[s.procs[p].q].ref > 1
    && var q := s.procs[p].q;
       s' == To(WithQueue(s, q, s.queues[q].(ref := s.queues[q].ref - 1, lock := None)), p, Idle).(writer := None)
  }

  ghost predicate Free(s: State, s': State, p: Pid) {
    && At(s, p) && s.procs[p].Freeing?
    && s' == To(s, p, Idle).(queues := s.queues - {s.procs[p].q})
  }

  /** One step of thread `p`. */
  ghost predicate StepOf(s: State, s': State, p: Pid) {
    || GetStep(s, s', p) || SubmitStep(s, s', p) || IoStep(s, s', p) || UnrefStep(s, s', p)
  }

  ghost predicate GetStep(s: State, s': State, p: Pid) {
    || Start(s, s', p) || ReadLock(s, s', p) || Hit(s, s', p) || Miss(s, s', p) || WriteLock(s, s', p)
    || HitLate(s, s', p) || Create(s, s', p) || CreateNothing(s, s', p) || LockQueue(s, s', p) || UnlockMap(s, s', p)
  }

  ghost predicate SubmitStep(s: State, s': State, p: Pid) {
    || Count(s, s', p) || CancelEnd(s, s', p) || (exists r :: Spawn(s, s', p, r)) || SpawnFail(s, s', p)
    || RelockFailed(s, s', p)
  }

  ghost predicate IoStep(s: State, s': State, p: Pid) {
    || Enlist(s, s', p) || IoWait(s, s', p) || IoWake(s, s', p) || IoEnter(s, s', p) || IoEnd(s, s', p) || Unlist(s, s', p)
  }

  ghost predicate UnrefStep(s: State, s': State, p: Pid) {
    || UnrefFast(s, s', p) || UnrefSlow(s, s', p) || UnrefLockMap(s, s', p) || UnrefLockQueue(s, s', p)
    || UnrefLast(s, s', p) || UnrefMore(s, s', p) || Free(s, s', p)
  }

  ghost predicate Next(s: State, s': State) {
    exists p :: StepOf(s, s', p)
  }

  ghost predicate IsRun(run: seq<State>) {
    && run != [] && Begins(run[0])
    && forall k :: 0 < k < |run| ==> Next(run[k - 1], run[k])
  }

  // ---- invariant --------------------------------------------------------------------------------

  /** Operations counted by queue `q`. */
  ghost function Owners(procs: map<Pid, Proc>, q: Qid): set<Pid> {
    set p | p in procs && procs[p].Counts(q)
  }

  /** A queue's lock is held by the thread that is where it holds it. */
  ghost predicate LocksOk(queues: map<Qid, Queue>, procs: map<Pid, Proc>) {
    && (forall p, q :: p in procs && procs[p].Locks(q) ==> q in queues && queues[q].lock == Some(p))
    && (forall q :: q in queues && queues[q].lock.Some? ==>
          queues[q].lock.value in procs && procs[queues[q].lock.value].Locks(q))
  }

  /** Pointers to queues point to allocated queues, and ref counts them. */
  ghost predicate RefsOk(queues: map<Qid, Queue>, procs: map<Pid, Proc>) {
    && (forall p, q :: p in procs && procs[p].Refers(q) ==> q in queues)
    && (forall q :: q in queues ==> queues[q].ref == |Owners(procs, q)|)
  }

  /** maplock is held by many readers or one writer. */
  ghost predicate MapLockOk(readers: set<Pid>, writer: Option<Pid>, procs: map<Pid, Proc>) {
    && (forall p :: p in readers <==> p in procs && procs[p].Reads())
    && (forall p :: p in procs && procs[p].Writes() ==> writer == Some(p))
    && (writer.Some? ==> writer.value in procs && procs[writer.value].Writes() && readers == {})
  }

  ghost predicate InMap(fds: map<Fd, Qid>, queues: map<Qid, Queue>, q: Qid) {
    q in queues && queues[q].fd in fds && fds[queues[q].fd] == q
  }

  /** The map holds exactly the allocated queues that are not being freed. */
  ghost predicate MapOk(fds: map<Fd, Qid>, queues: map<Qid, Queue>, procs: map<Pid, Proc>) {
    && (forall fd :: fd in fds ==> fds[fd] in queues && queues[fds[fd]].fd == fd)
    && FoundOk(fds, queues, procs) && UnmappedOk(fds, queues, procs) && FreeingOk(fds, queues, procs)
  }

  ghost predicate FoundOk(fds: map<Fd, Qid>, queues: map<Qid, Queue>, procs: map<Pid, Proc>) {
    forall p, q :: p in procs && procs[p].Found(q) ==> InMap(fds, queues, q)
  }

  ghost predicate UnmappedOk(fds: map<Fd, Qid>, queues: map<Qid, Queue>, procs: map<Pid, Proc>) {
    forall q :: q in queues && !InMap(fds, queues, q) ==> BeingFreed(queues, procs, q)
  }

  ghost predicate FreeingOk(fds: map<Fd, Qid>, queues: map<Qid, Queue>, procs: map<Pid, Proc>) {
    forall p, q :: p in procs && procs[p] == Freeing(q) ==> !InMap(fds, queues, q) && q in queues && queues[q].ref == 1
  }

  ghost predicate BeingFreed(queues: map<Qid, Queue>, procs: map<Pid, Proc>, q: Qid)
    requires q in queues
  {
    queues[q].lock.Some? && queues[q].lock.value in procs && procs[queues[q].lock.value] == Freeing(q)
  }

  ghost predicate NoDup(s: seq<Pid>) {
    forall i, j :: 0 <= i < j < |s| ==> s[i] != s[j]
  }

  /** An operation that orders after writes and has been let through has no write behind it. */
  ghost predicate Ordered(procs: map<Pid, Proc>, x: Queue) {
    forall i, j :: 0 <= i < j < |x.list| && MustOrder(procs, x.list[i], x.append) ==> !IsWrite(procs, x.list[j])
  }

  predicate MustOrder(procs: map<Pid, Proc>, p: Pid, append: bool) {
    p in procs && procs[p].Passed() && Orders(KindOf(procs[p]), append)
  }

  ghost predicate ListOk(procs: map<Pid, Proc>, q: Qid, x: Queue) {
    && NoDup(x.list)
    && (forall p :: p in x.list <==> p in procs && procs[p].Listed(q))
    && (x.list != [] ==> x.init)
    && Ordered(procs, x)
  }

  ghost predicate ListsOk(queues: map<Qid, Queue>, procs: map<Pid, Proc>) {
    forall q :: q in queues ==> ListOk(procs, q, queues[q])
  }

  ghost predicate CountsOk(s: State) {
    s.fdCnt == |s.fds| && forall q :: q in s.queues ==> q < s.nextQ
  }

  ghost predicate Inv(s: State) {
    && LocksOk(s.queues, s.procs) && RefsOk(s.queues, s.procs) && MapLockOk(s.readers, s.writer, s.procs)
    && MapOk(s.fds, s.queues, s.procs) && ListsOk(s.queues, s.procs) && CountsOk(s)
  }

  // ---- moving one thread, and perhaps one queue -------------------------------------------------

  /** Thread `p` goes from `x` to `y` while queue `q` goes from `a` to `b`: the lock follows. */
  ghost predicate LockFollows(p: Pid, x: Proc, y: Proc, q: Qid, a: Queue, b: Queue) {
    && (forall r :: r != q ==> !x.Locks(r) && !y.Locks(r))
    && (x.Locks(q) ==> a.lock == Some(p))
    && (if y.Locks(q) then b.lock == Some(p) && (x.Locks(q) || a.lock == None)
        else if x.Locks(q) then b.lock == None
        else b.lock == a.lock)
  }

  lemma MoveLocks(queues: map<Qid, Queue>, procs: map<Pid, Proc>, p: Pid, y: Proc, q: Qid, b: Queue)
    requires LocksOk(queues, procs) && p in procs && q in queues
    requires LockFollows(p, procs[p], y, q, queues[q], b)
    ensures LocksOk(queues[q := b], procs[p := y])
  {
  }

  /** ... and so does the count. */
  ghost predicate RefFollows(x: Proc, y: Proc, q: Qid, a: Queue, b: Queue) {
    && (forall r :: r != q ==> !x.Counts(r) && !y.Refers(r))
    && b.ref == a.ref + (if y.Counts(q) then 1 else 0) - (if x.Counts(q) then 1 else 0)
  }

  lemma MoveRefs(queues: map<Qid, Queue>, procs: map<Pid, Proc>, p: Pid, y: Proc, q: Qid, b: Queue)
    requires RefsOk(queues, procs) && p in procs && q in queues
    requires RefFollows(procs[p], y, q, queues[q], b)
    ensures RefsOk(queues[q := b], procs[p := y])
  {
    var procs' := procs[p := y];
    forall r | r in queues
      ensures queues[q := b][r].ref == |Owners(procs', r)|
    {
      OwnersMove(procs, p, y, r);
    }
  }

  lemma OwnersMove(procs: map<Pid, Proc>, p: Pid, y: Proc, r: Qid)
    requires p in procs
    ensures |Owners(procs[p := y], r)|
         == |Owners(procs, r)| + (if y.Counts(r) then 1 else 0) - (if procs[p].Counts(r) then 1 else 0)
  {
    var o, o' := Owners(procs, r), Owners(procs[p := y], r);
    var rest := set x | x in procs && x != p && procs[x].Counts(r);
    assert o == (if procs[p].Counts(r) then rest + {p} else rest);
    assert o' == (if y.Counts(r) then rest + {p} else rest);
  }

  /** ... and the map lock. */
  ghost predicate MapLockFollows(readers: set<Pid>, writer: Option<Pid>, readers': set<Pid>, writer': Option<Pid>,
                                 p: Pid, x: Proc, y: Proc) {
    && readers' == (if y.Reads() then readers + {p} else readers - {p})
    && (y.Reads() && !x.Reads() ==> writer == None && !x.Writes())
    && (if y.Writes() then writer' == Some(p) && !y.Reads() && (x.Writes() || (writer == None && readers == {}))
        else if x.Writes() then writer' == None
        else writer' == writer)
  }

  lemma MoveMapLock(readers: set<Pid>, writer: Option<Pid>, readers': set<Pid>, writer': Option<Pid>,
                    procs: map<Pid, Proc>, p: Pid, y: Proc)
    requires MapLockOk(readers, writer, procs) && p in procs
    requires MapLockFollows(readers, writer, readers', writer', p, procs[p], y)
    ensures MapLockOk(readers', writer', procs[p := y])
  {
  }

  /** The map is unchanged: a thread may point to a queue as found only if it is in the map, and only a queue
      in the map has its lock or count changed. */
  ghost predicate MapFollows(fds: map<Fd, Qid>, queues: map<Qid, Queue>, x: Proc, y: Proc, q: Qid, b: Queue)
    requires q in queues
  {
    && !x.Freeing? && !y.Freeing? && b.fd == queues[q].fd
    && (forall r :: y.Found(r) ==> InMap(fds, queues, r))
    && ((b.lock == queues[q].lock && b.ref == queues[q].ref) || InMap(fds, queues, q))
  }

  lemma MoveMap(fds: map<Fd, Qid>, queues: map<Qid, Queue>, procs: map<Pid, Proc>, p: Pid, y: Proc, q: Qid, b: Queue)
    requires MapOk(fds, queues, procs) && p in procs && q in queues
    requires MapFollows(fds, queues, procs[p], y, q, b)
    ensures MapOk(fds, queues[q := b], procs[p := y])
  {
    hide UnmappedOk, FreeingOk, FoundOk;
    assert forall r :: InMap(fds, queues[q := b], r) == InMap(fds, queues, r);
    MoveFound(fds, queues, procs, p, y, q, b);
    MoveUnmapped(fds, queues, procs, p, y, q, b);
    MoveFreeing(fds, queues, procs, p, y, q, b);
  }

  lemma MoveFound(fds: map<Fd, Qid>, queues: map<Qid, Queue>, procs: map<Pid, Proc>, p: Pid, y: Proc, q: Qid, b: Queue)
    requires FoundOk(fds, queues, procs) && p in procs && q in queues
    requires MapFollows(fds, queues, procs[p], y, q, b)
    requires forall r :: InMap(fds, queues[q := b], r) == InMap(fds, queues, r)
    ensures FoundOk(fds, queues[q := b], procs[p := y])
  {
    hide InMap;
    var procs' := procs[p := y];
    forall o, r | o in procs' && procs'[o].Found(r)
      ensures InMap(fds, queues[q := b], r)
    {
      assert InMap(fds, queues, r);
    }
  }

  lemma MoveUnmapped(fds: map<Fd, Qid>, queues: map<Qid, Queue>, procs: map<Pid, Proc>, p: Pid, y: Proc, q: Qid, b: Queue)
    requires UnmappedOk(fds, queues, procs) && p in procs && q in queues
    requires MapFollows(fds, queues, procs[p], y, q, b)
    requires forall r :: InMap(fds, queues[q := b], r) == InMap(fds, queues, r)
    ensures UnmappedOk(fds, queues[q := b], procs[p := y])
  {
    hide InMap;
    var queues' := queues[q := b];
    forall r | r in queues' && !InMap(fds, queues', r)
      ensures BeingFreed(queues', procs[p := y], r)
    {
      assert !InMap(fds, queues, r) && BeingFreed(queues, procs, r);
    }
  }

  lemma MoveFreeing(fds: map<Fd, Qid>, queues: map<Qid, Queue>, procs: map<Pid, Proc>, p: Pid, y: Proc, q: Qid, b: Queue)
    requires FreeingOk(fds, queues, procs) && p in procs && q in queues
    requires MapFollows(fds, queues, procs[p], y, q, b)
    requires forall r :: InMap(fds, queues[q := b], r) == InMap(fds, queues, r)
    ensures FreeingOk(fds, queues[q := b], procs[p := y])
  {
    hide InMap;
  }

  /** The list is unchanged, and an operation is let through only with no write behind it. */
  ghost predicate ListFollows(procs: map<Pid, Proc>, p: Pid, y: Proc, q: Qid, a: Queue, b: Queue)
    requires p in procs
  {
    && b.list == a.list && b.init == a.init && b.append == a.append
    && (forall r :: procs[p].Listed(r) == y.Listed(r))
    && (y.Listed(q) ==> KindOf(y) == KindOf(procs[p]))
    && (y.Passed() && !procs[p].Passed() && Orders(KindOf(y), a.append) ==>
          forall i, j :: 0 <= i < j < |a.list| && a.list[i] == p ==> !IsWrite(procs, a.list[j]))
  }

  lemma MoveList(procs: map<Pid, Proc>, p: Pid, y: Proc, q: Qid, a: Queue, b: Queue)
    requires p in procs && ListOk(procs, q, a) && ListFollows(procs, p, y, q, a, b)
    ensures ListOk(procs[p := y], q, b)
  {
    var procs' := procs[p := y];
    forall i, j | 0 <= i < j < |b.list| && MustOrder(procs', b.list[i], b.append)
      ensures !IsWrite(procs', b.list[j])
    {
      assert b.list[i] in a.list && b.list[j] in a.list;
      assert !IsWrite(procs, b.list[j]) by {
        if b.list[i] != p {
          assert MustOrder(procs, b.list[i], b.append);
        }
      }
    }
  }

  /** Other queues' lists do not notice. */
  lemma OtherList(procs: map<Pid, Proc>, p: Pid, y: Proc, q: Qid, a: Queue)
    requires p in procs && ListOk(procs, q, a) && !procs[p].Listed(q) && !y.Listed(q)
    ensures ListOk(procs[p := y], q, a)
  {
    assert p !in a.list;
    var procs' := procs[p := y];
    forall i, j | 0 <= i < j < |a.list| && MustOrder(procs', a.list[i], a.append)
      ensures !IsWrite(procs', a.list[j])
    {
      assert a.list[i] in a.list && a.list[j] in a.list;
      assert MustOrder(procs, a.list[i], a.append);
    }
  }

  lemma MoveLists(queues: map<Qid, Queue>, procs: map<Pid, Proc>, p: Pid, y: Proc, q: Qid, b: Queue)
    requires ListsOk(queues, procs) && p in procs && q in queues && ListOk(procs[p := y], q, b)
    requires forall r :: r != q ==> !procs[p].Listed(r) && !y.Listed(r)
    ensures ListsOk(queues[q := b], procs[p := y])
  {
    hide ListOk;
    forall r | r in queues
      ensures ListOk(procs[p := y], r, queues[q := b][r])
    {
      assert ListOk(procs, r, queues[r]);
      if r != q {
        OtherList(procs, p, y, r, queues[r]);
      }
    }
  }

  /** Everything together: thread `p` moves to `y`, queue `q` to `b`, and the map stays. */
  lemma MoveAll(s: State, s': State, p: Pid, y: Proc, q: Qid, b: Queue)
    requires Inv(s) && p in s.procs && q in s.queues
    requires s' == To(WithQueue(s, q, b), p, y).(readers := s'.readers, writer := s'.writer)
    requires LockFollows(p, s.procs[p], y, q, s.queues[q], b)
    requires RefFollows(s.procs[p], y, q, s.queues[q], b)
    requires MapLockFollows(s.readers, s.writer, s'.readers, s'.writer, p, s.procs[p], y)
    requires MapFollows(s.fds, s.queues, s.procs[p], y, q, b)
    requires forall r :: r != q ==> !s.procs[p].Listed(r) && !y.Listed(r)
    requires ListOk(s.procs[p := y], q, b)
    ensures Inv(s')
  {
    hide LocksOk, RefsOk, MapLockOk, MapOk, ListsOk, LockFollows, RefFollows, MapLockFollows, MapFollows, ListOk;
    MoveLocks(s.queues, s.procs, p, y, q, b);
    MoveRefs(s.queues, s.procs, p, y, q, b);
    MoveMapLock(s.readers, s.writer, s'.readers, s'.writer, s.procs, p, y);
    MoveMap(s.fds, s.queues, s.procs, p, y, q, b);
    MoveLists(s.queues, s.procs, p, y, q, b);
  }

  /** The same for a thread that has to do with no queue before or after, or only finds one. */
  lemma MoveAlone(s: State, s': State, p: Pid, y: Proc)
    requires Inv(s) && p in s.procs
    requires s' == To(s, p, y).(readers := s'.readers, writer := s'.writer)
    requires forall r :: !s.procs[p].Locks(r) && !s.procs[p].Counts(r) && !s.procs[p].Listed(r)
    requires forall r :: !y.Locks(r) && !y.Counts(r) && !y.Listed(r)
    requires forall r :: y.Refers(r) ==> y.Found(r) && InMap(s.fds, s.queues, r)
    requires MapLockFollows(s.readers, s.writer, s'.readers, s'.writer, p, s.procs[p], y)
    ensures Inv(s')
  {
    hide LocksOk, RefsOk, ListsOk, ListOk, Owners, MapLockFollows, MapLockOk, MapOk, InMap;
    assert !s.procs[p].Freeing? && !y.Freeing? by {
      assert y.Freeing? ==> y.Locks(y.q);
      assert s.procs[p].Freeing? ==> s.procs[p].Locks(s.procs[p].q);
    }
    MoveMapLock(s.readers, s.writer, s'.readers, s'.writer, s.procs, p, y);
    AloneLocks(s.queues, s.procs, p, y);
    AloneRefs(s.fds, s.queues, s.procs, p, y);
    AloneMap(s.fds, s.queues, s.procs, p, y);
  }

  lemma AloneLocks(queues: map<Qid, Queue>, procs: map<Pid, Proc>, p: Pid, y: Proc)
    requires LocksOk(queues, procs) && ListsOk(queues, procs) && p in procs
    requires forall r :: !procs[p].Locks(r) && !procs[p].Listed(r) && !y.Locks(r) && !y.Listed(r)
    ensures LocksOk(queues, procs[p := y]) && ListsOk(queues, procs[p := y])
  {
    hide ListOk;
    forall r | r in queues
      ensures ListOk(procs[p := y], r, queues[r])
    {
      OtherList(procs, p, y, r, queues[r]);
    }
  }

  lemma AloneRefs(fds: map<Fd, Qid>, queues: map<Qid, Queue>, procs: map<Pid, Proc>, p: Pid, y: Proc)
    requires RefsOk(queues, procs) && p in procs
    requires forall r :: !procs[p].Counts(r) && !y.Counts(r) && (y.Refers(r) ==> InMap(fds, queues, r))
    ensures RefsOk(queues, procs[p := y])
  {
    hide Owners;
    forall r | r in queues
      ensures queues[r].ref == |Owners(procs[p := y], r)|
    {
      OwnersMove(procs, p, y, r);
    }
  }

  lemma AloneMap(fds: map<Fd, Qid>, queues: map<Qid, Queue>, procs: map<Pid, Proc>, p: Pid, y: Proc)
    requires MapOk(fds, queues, procs) && p in procs && !procs[p].Freeing? && !y.Freeing?
    requires forall r :: y.Found(r) ==> InMap(fds, queues, r)
    ensures MapOk(fds, queues, procs[p := y])
  {
    hide InMap;
    assert FoundOk(fds, queues, procs[p := y]) && FreeingOk(fds, queues, procs[p := y]);
    hide FoundOk, FreeingOk;
    forall r | r in queues && !InMap(fds, queues, r)
      ensures BeingFreed(queues, procs[p := y], r)
    {
      assert BeingFreed(queues, procs, r);
    }
  }

  /** A thread that stays on its queue and leaves the list as it is. */
  lemma MoveOnQueue(s: State, s': State, p: Pid, y: Proc, q: Qid, b: Queue)
    requires Inv(s) && p in s.procs && q in s.queues && s.procs[p].Refers(q) && (forall r :: y.Refers(r) ==> r == q)
    requires s' == To(WithQueue(s, q, b), p, y).(readers := s'.readers, writer := s'.writer)
    requires LockFollows(p, s.procs[p], y, q, s.queues[q], b)
    requires RefFollows(s.procs[p], y, q, s.queues[q], b)
    requires MapLockFollows(s.readers, s.writer, s'.readers, s'.writer, p, s.procs[p], y)
    requires !s.procs[p].Freeing? && !y.Freeing? && b.fd == s.queues[q].fd
    requires (b.lock == s.queues[q].lock && b.ref == s.queues[q].ref) || InMap(s.fds, s.queues, q)
    requires y.Found(q) ==> s.procs[p].Found(q)
    requires ListFollows(s.procs, p, y, q, s.queues[q], b)
    ensures Inv(s')
  {
    hide LocksOk, RefsOk, MapLockOk, LockFollows, RefFollows, MapLockFollows, ListOk, ListFollows;
    assert ListOk(s.procs, q, s.queues[q]);
    MoveList(s.procs, p, y, q, s.queues[q], b);
    assert MapFollows(s.fds, s.queues, s.procs[p], y, q, b);
    MoveAll(s, s', p, y, q, b);
  }

  /** A queue that is not locked, or locked by a thread not about to free it, is in the map. */
  lemma LiveInMap(s: State, q: Qid)
    requires Inv(s) && q in s.queues
    requires s.queues[q].lock == None || (s.queues[q].lock.value in s.procs && !s.procs[s.queues[q].lock.value].Freeing?)
    ensures InMap(s.fds, s.queues, q)
  {
    assert !BeingFreed(s.queues, s.procs, q);
  }

  /** A thread that points to a queue points to an allocated one, and holds its lock if it is where it does. */
  lemma Pointed(s: State, p: Pid, q: Qid)
    requires Inv(s) && p in s.procs && s.procs[p].Refers(q)
    ensures q in s.queues && (s.procs[p].Locks(q) ==> s.queues[q].lock == Some(p))
  {
  }

  lemma ReadersKeep(s: State, s': State, p: Pid)
    requires Inv(s) && (Start(s, s', p) || ReadLock(s, s', p) || Hit(s, s', p) || Miss(s, s', p))
    ensures Inv(s')
  {
    hide LocksOk, RefsOk, ListsOk, MapLockOk, CountsOk;
    assert forall fd :: fd in s.fds ==> InMap(s.fds, s.queues, s.fds[fd]);
    MapLockHolders(s, p);
    hide MapOk;
    assert MapLockFollows(s.readers, s.writer, s'.readers, s'.writer, p, s.procs[p], s'.procs[p]);
    MoveAlone(s, s', p, s'.procs[p]);
  }

  lemma WritersKeep(s: State, s': State, p: Pid)
    requires Inv(s) && (WriteLock(s, s', p) || HitLate(s, s', p) || CreateNothing(s, s', p))
    ensures Inv(s')
  {
    hide LocksOk, RefsOk, ListsOk, MapLockOk, CountsOk;
    assert forall fd :: fd in s.fds ==> InMap(s.fds, s.queues, s.fds[fd]);
    MapLockHolders(s, p);
    hide MapOk;
    assert MapLockFollows(s.readers, s.writer, s'.readers, s'.writer, p, s.procs[p], s'.procs[p]);
    MoveAlone(s, s', p, s'.procs[p]);
  }

  lemma MapLockHolders(s: State, p: Pid)
    requires Inv(s) && p in s.procs
    ensures p in s.readers <==> s.procs[p].Reads()
    ensures s.procs[p].Writes() ==> s.writer == Some(p) && s.readers == {}
  {
  }

  lemma LockQueueKeeps(s: State, s': State, p: Pid)
    requires Inv(s) && LockQueue(s, s', p)
    ensures Inv(s')
  {
    hide LocksOk, RefsOk, ListsOk, MapLockOk, MapOk, CountsOk, InMap;
    var q := s.procs[p].q;
    LiveInMap(s, q);
    MapLockHolders(s, p);
    MoveOnQueue(s, s', p, s'.procs[p], q, s'.queues[q]);
  }

  lemma UnlockMapKeeps(s: State, s': State, p: Pid)
    requires Inv(s) && UnlockMap(s, s', p)
    ensures Inv(s')
  {
    hide LocksOk, RefsOk, ListsOk, MapLockOk, MapOk, CountsOk, InMap, Blocked;
    var q := s.procs[p].q;
    Pointed(s, p, q);
    MapLockHolders(s, p);
    MoveOnQueue(s, s', p, s'.procs[p], q, s'.queues[q]);
  }

  lemma CountKeeps(s: State, s': State, p: Pid)
    requires Inv(s) && Count(s, s', p)
    ensures Inv(s')
  {
    hide LocksOk, RefsOk, ListsOk, MapLockOk, MapOk, CountsOk, InMap, Blocked;
    var q := s.procs[p].q;
    Pointed(s, p, q);
    LiveInMap(s, q);
    MapLockHolders(s, p);
    MoveOnQueue(s, s', p, s'.procs[p], q, s'.queues[q]);
  }

  lemma CancelEndKeeps(s: State, s': State, p: Pid)
    requires Inv(s) && CancelEnd(s, s', p)
    ensures Inv(s')
  {
    hide LocksOk, RefsOk, ListsOk, MapLockOk, MapOk, CountsOk, InMap, Blocked;
    var q := s.procs[p].q;
    Pointed(s, p, q);
    LiveInMap(s, q);
    MapLockHolders(s, p);
    MoveOnQueue(s, s', p, s'.procs[p], q, s'.queues[q]);
  }

  lemma SpawnFailKeeps(s: State, s': State, p: Pid)
    requires Inv(s) && SpawnFail(s, s', p)
    ensures Inv(s')
  {
    hide LocksOk, RefsOk, ListsOk, MapLockOk, MapOk, CountsOk, InMap, Blocked;
    var q := s.procs[p].q;
    Pointed(s, p, q);
    MapLockHolders(s, p);
    MoveOnQueue(s, s', p, s'.procs[p], q, s'.queues[q]);
  }

  lemma RelockFailedKeeps(s: State, s': State, p: Pid)
    requires Inv(s) && RelockFailed(s, s', p)
    ensures Inv(s')
  {
    hide LocksOk, RefsOk, ListsOk, MapLockOk, MapOk, CountsOk, InMap, Blocked;
    var q := s.procs[p].q;
    Pointed(s, p, q);
    LiveInMap(s, q);
    MapLockHolders(s, p);
    MoveOnQueue(s, s', p, s'.procs[p], q, s'.queues[q]);
  }

  lemma IoWaitKeeps(s: State, s': State, p: Pid)
    requires Inv(s) && IoWait(s, s', p)
    ensures Inv(s')
  {
    hide LocksOk, RefsOk, ListsOk, MapLockOk, MapOk, CountsOk, InMap, Blocked;
    var q := s.procs[p].q;
    Pointed(s, p, q);
    LiveInMap(s, q);
    MapLockHolders(s, p);
    MoveOnQueue(s, s', p, s'.procs[p], q, s'.queues[q]);
  }

  lemma IoWakeKeeps(s: State, s': State, p: Pid)
    requires Inv(s) && IoWake(s, s', p)
    ensures Inv(s')
  {
    hide LocksOk, RefsOk, ListsOk, MapLockOk, MapOk, CountsOk, InMap, Blocked;
    var q := s.procs[p].q;
    Pointed(s, p, q);
    LiveInMap(s, q);
    MapLockHolders(s, p);
    MoveOnQueue(s, s', p, s'.procs[p], q, s'.queues[q]);
  }

  lemma IoEndKeeps(s: State, s': State, p: Pid)
    requires Inv(s) && IoEnd(s, s', p)
    ensures Inv(s')
  {
    hide LocksOk, RefsOk, ListsOk, MapLockOk, MapOk, CountsOk, InMap, Blocked;
    var q := s.procs[p].q;
    Pointed(s, p, q);
    MapLockHolders(s, p);
    MoveOnQueue(s, s', p, s'.procs[p], q, s'.queues[q]);
  }

  lemma UnrefFastKeeps(s: State, s': State, p: Pid)
    requires Inv(s) && UnrefFast(s, s', p)
    ensures Inv(s')
  {
    hide LocksOk, RefsOk, ListsOk, MapLockOk, MapOk, CountsOk, InMap, Blocked;
    var q := s.procs[p].q;
    Pointed(s, p, q);
    LiveInMap(s, q);
    MapLockHolders(s, p);
    MoveOnQueue(s, s', p, s'.procs[p], q, s'.queues[q]);
  }

  lemma UnrefSlowKeeps(s: State, s': State, p: Pid)
    requires Inv(s) && UnrefSlow(s, s', p)
    ensures Inv(s')
  {
    hide LocksOk, RefsOk, ListsOk, MapLockOk, MapOk, CountsOk, InMap, Blocked;
    var q := s.procs[p].q;
    Pointed(s, p, q);
    LiveInMap(s, q);
    MapLockHolders(s, p);
    MoveOnQueue(s, s', p, s'.procs[p], q, s'.queues[q]);
  }

  lemma UnrefLockMapKeeps(s: State, s': State, p: Pid)
    requires Inv(s) && UnrefLockMap(s, s', p)
    ensures Inv(s')
  {
    hide LocksOk, RefsOk, ListsOk, MapLockOk, MapOk, CountsOk, InMap, Blocked;
    var q := s.procs[p].q;
    Pointed(s, p, q);
    MapLockHolders(s, p);
    MoveOnQueue(s, s', p, s'.procs[p], q, s'.queues[q]);
  }

  lemma UnrefLockQueueKeeps(s: State, s': State, p: Pid)
    requires Inv(s) && UnrefLockQueue(s, s', p)
    ensures Inv(s')
  {
    hide LocksOk, RefsOk, ListsOk, MapLockOk, MapOk, CountsOk, InMap, Blocked;
    var q := s.procs[p].q;
    Pointed(s, p, q);
    LiveInMap(s, q);
    MapLockHolders(s, p);
    MoveOnQueue(s, s', p, s'.procs[p], q, s'.queues[q]);
  }

  lemma UnrefMoreKeeps(s: State, s': State, p: Pid)
    requires Inv(s) && UnrefMore(s, s', p)
    ensures Inv(s')
  {
    hide LocksOk, RefsOk, ListsOk, MapLockOk, MapOk, CountsOk, InMap, Blocked;
    var q := s.procs[p].q;
    Pointed(s, p, q);
    LiveInMap(s, q);
    MapLockHolders(s, p);
    MoveOnQueue(s, s', p, s'.procs[p], q, s'.queues[q]);
  }

  lemma IoEnterKeeps(s: State, s': State, p: Pid)
    requires Inv(s) && IoEnter(s, s', p)
    ensures Inv(s')
  {
    hide LocksOk, RefsOk, ListsOk, MapLockOk, MapOk, CountsOk, InMap, Blocked;
    var q := s.procs[p].q;
    Pointed(s, p, q);
    LiveInMap(s, q);
    MapLockHolders(s, p);
    NoWriteBehind(s, p, q);
    MoveOnQueue(s, s', p, s'.procs[p], q, s'.queues[q]);
  }

  lemma NoWriteBehind(s: State, p: Pid, q: Qid)
    requires p in s.procs && s.procs[p].IoListed? && s.procs[p].q == q && q in s.queues && !Blocked(s, p)
    ensures Orders(s.procs[p].kind, s.queues[q].append) ==>
              forall i, j :: 0 <= i < j < |s.queues[q].list| && s.queues[q].list[i] == p ==> !IsWrite(s.procs, s.queues[q].list[j])
  {
    var list := s.queues[q].list;
    if Orders(s.procs[p].kind, s.queues[q].append) {
      forall i, j | 0 <= i < j < |list| && list[i] == p
        ensures !IsWrite(s.procs, list[j])
      {
        assert !WriteBehind(s, list, i);
      }
    }
  }

  lemma CreateKeeps(s: State, s': State, p: Pid)
    requires Inv(s) && Create(s, s', p)
    ensures Inv(s')
  {
    hide LocksOk, RefsOk, ListsOk, MapLockOk, MapOk;
    var fd, q, y := s.procs[p].fd, s.nextQ, s'.procs[p];
    MapLockHolders(s, p);
    MoveMapLock(s.readers, s.writer, s'.readers, s'.writer, s.procs, p, y);
    CreateLocks(s.queues, s.procs, p, q, fd, y);
    CreateRefs(s.queues, s.procs, p, q, fd, y);
    CreateLists(s.queues, s.procs, p, q, fd, y);
    CreateMap(s.fds, s.queues, s.procs, p, q, fd, y);
  }

  function NewQueue(fd: Fd): Queue {
    Queue(fd, 0, None, [], false, false)
  }

  lemma CreateLocks(queues: map<Qid, Queue>, procs: map<Pid, Proc>, p: Pid, q: Qid, fd: Fd, y: Proc)
    requires LocksOk(queues, procs) && p in procs && procs[p].HaveWrite? && y.WantLock? && q !in queues
    ensures LocksOk(queues[q := NewQueue(fd)], procs[p := y])
  {
  }

  lemma CreateRefs(queues: map<Qid, Queue>, procs: map<Pid, Proc>, p: Pid, q: Qid, fd: Fd, y: Proc)
    requires RefsOk(queues, procs) && p in procs && procs[p].HaveWrite? && y.WantLock? && y.q == q && q !in queues
    ensures RefsOk(queues[q := NewQueue(fd)], procs[p := y])
  {
    assert Owners(procs, q) == {};
    forall r | r == q || r in queues
      ensures queues[q := NewQueue(fd)][r].ref == |Owners(procs[p := y], r)|
    {
      OwnersMove(procs, p, y, r);
    }
  }

  lemma CreateLists(queues: map<Qid, Queue>, procs: map<Pid, Proc>, p: Pid, q: Qid, fd: Fd, y: Proc)
    requires ListsOk(queues, procs) && RefsOk(queues, procs)
    requires p in procs && procs[p].HaveWrite? && y.WantLock? && q !in queues
    ensures ListsOk(queues[q := NewQueue(fd)], procs[p := y])
  {
    hide ListOk, Owners;
    forall r | r == q || r in queues
      ensures ListOk(procs[p := y], r, queues[q := NewQueue(fd)][r])
    {
      if r == q {
        EmptyList(procs[p := y], q, NewQueue(fd));
      } else {
        OtherList(procs, p, y, r, queues[r]);
      }
    }
  }

  lemma EmptyList(procs: map<Pid, Proc>, q: Qid, x: Queue)
    requires x.list == [] && forall p :: p in procs ==> !procs[p].Listed(q)
    ensures ListOk(procs, q, x)
  {
  }

  lemma CreateMap(fds: map<Fd, Qid>, queues: map<Qid, Queue>, procs: map<Pid, Proc>, p: Pid, q: Qid, fd: Fd, y: Proc)
    requires MapOk(fds, queues, procs) && p in procs && procs[p].HaveWrite? && y.WantLock? && y.q == q
    requires q !in queues && fd !in fds
    ensures MapOk(fds[fd := q], queues[q := NewQueue(fd)], procs[p := y])
  {
    var fds', queues', procs' := fds[fd := q], queues[q := NewQueue(fd)], procs[p := y];
    assert forall r :: r in queues ==> InMap(fds', queues', r) == InMap(fds, queues, r);
    assert InMap(fds', queues', q);
    assert forall r :: InMap(fds, queues, r) ==> InMap(fds', queues', r);
    assert forall d :: d in fds' ==> fds'[d] in queues' && queues'[fds'[d]].fd == d;
    hide InMap;
    forall r | r in queues' && !InMap(fds', queues', r)
      ensures BeingFreed(queues', procs', r)
    {
      assert BeingFreed(queues, procs, r);
    }
  }

  /** Two operations are counted if one of them is freeing the queue, which only the last one does. */
  lemma CountedInMap(s: State, p: Pid, q: Qid)
    requires Inv(s) && p in s.procs && s.procs[p].Counts(q) && !s.procs[p].Freeing?
    ensures q in s.queues && InMap(s.fds, s.queues, q)
  {
    hide LocksOk, ListsOk, MapLockOk, MapOk, InMap;
    if !InMap(s.fds, s.queues, q) {
      FreedByOne(s.fds, s.queues, s.procs, q);
      var o := s.queues[q].lock.value;
      assert {o, p} <= Owners(s.procs, q);
      Subset({o, p}, Owners(s.procs, q));
    }
  }

  lemma FreedByOne(fds: map<Fd, Qid>, queues: map<Qid, Queue>, procs: map<Pid, Proc>, q: Qid)
    requires MapOk(fds, queues, procs) && q in queues && !InMap(fds, queues, q)
    ensures BeingFreed(queues, procs, q) && queues[q].ref == 1
  {
  }

  lemma Subset(a: set<Pid>, b: set<Pid>)
    requires a <= b
    ensures |a| <= |b|
  {
    assert b == a + (b - a);
  }

  lemma SpawnKeeps(s: State, s': State, p: Pid, r: Pid)
    requires Inv(s) && Spawn(s, s', p, r)
    ensures Inv(s')
  {
    hide LocksOk, RefsOk, ListsOk, MapLockOk, MapOk, CountsOk, InMap, ListOk;
    var q, k := s.procs[p].q, s.procs[p].kind;
    CountedInMap(s, p, q);
    var b := s.queues[q].(ref := s.queues[q].ref + 1);
    var s1 := To(WithQueue(s, q, b), r, IoStart(q, k));
    SpawnChild(s, s1, r, q, k);
    CountedInMap(s1, p, q);
    MapLockHolders(s1, p);
    assert s'.queues == s1.queues[q := s.queues[q]];
    MoveOnQueue(s1, s', p, Idle, q, s.queues[q]);
  }

  lemma SpawnChild(s: State, s1: State, r: Pid, q: Qid, k: Kind)
    requires Inv(s) && r in s.procs && s.procs[r].Idle? && q in s.queues && InMap(s.fds, s.queues, q)
    requires s1 == To(WithQueue(s, q, s.queues[q].(ref := s.queues[q].ref + 1)), r, IoStart(q, k))
    ensures Inv(s1)
  {
    hide LocksOk, RefsOk, MapLockOk, MapOk, CountsOk, InMap, ListOk;
    MapLockHolders(s, r);
    assert ListOk(s.procs, q, s.queues[q]);
    MoveList(s.procs, r, IoStart(q, k), q, s.queues[q], s1.queues[q]);
    MoveAll(s, s1, r, IoStart(q, k), q, s1.queues[q]);
  }

  lemma EnlistKeeps(s: State, s': State, p: Pid)
    requires Inv(s) && Enlist(s, s', p)
    ensures Inv(s')
  {
    hide LocksOk, RefsOk, MapLockOk, MapOk, CountsOk, InMap, ListOk;
    var q := s.procs[p].q;
    Pointed(s, p, q);
    LiveInMap(s, q);
    MapLockHolders(s, p);
    assert ListOk(s.procs, q, s.queues[q]);
    EnlistList(s.procs, p, s'.procs[p], q, s.queues[q], s'.queues[q]);
    MoveAll(s, s', p, s'.procs[p], q, s'.queues[q]);
  }

  lemma EnlistList(procs: map<Pid, Proc>, p: Pid, y: Proc, q: Qid, a: Queue, b: Queue)
    requires p in procs && ListOk(procs, q, a) && procs[p].IoStart? && y == IoListed(q, procs[p].kind)
    requires b.list == [p] + a.list && b.init && (a.init ==> b.append == a.append)
    ensures ListOk(procs[p := y], q, b)
  {
    var procs' := procs[p := y];
    assert p !in a.list;
    forall i, j | 0 <= i < j < |b.list|
      ensures b.list[i] != b.list[j] && (MustOrder(procs', b.list[i], b.append) ==> !IsWrite(procs', b.list[j]))
    {
      if i > 0 {
        assert b.list[i] == a.list[i - 1] && b.list[j] == a.list[j - 1];
        assert a.list[i - 1] in a.list && a.list[j - 1] in a.list;
        assert MustOrder(procs', b.list[i], b.append) ==> MustOrder(procs, a.list[i - 1], a.append);
      } else {
        assert b.list[j] == a.list[j - 1] && a.list[j - 1] in a.list;
      }
    }
  }

  lemma {:induction false} WithoutFacts(list: seq<Pid>, p: Pid)
    requires NoDup(list)
    ensures forall x :: x in Without(list, p) <==> x in list && x != p
    ensures NoDup(Without(list, p))
    ensures forall i, j :: 0 <= i < j < |Without(list, p)| ==> Precedes(list, Without(list, p)[i], Without(list, p)[j])
  {
    if list != [] {
      var t := list[1..];
      var w := Without(t, p);
      assert list == [list[0]] + t;
      WithoutFacts(t, p);
      if list[0] != p {
        var r := Without(list, p);
        assert r == [list[0]] + w;
        forall i, j | 0 <= i < j < |r|
          ensures Precedes(list, r[i], r[j]) && r[i] != r[j]
        {
          if i == 0 {
            assert r[j] == w[j - 1] && r[j] in w;
            var m :| 0 <= m < |t| && t[m] == r[j];
            assert list[m + 1] == r[j];
          } else {
            assert r[i] == w[i - 1] && r[j] == w[j - 1];
            assert Precedes(t, w[i - 1], w[j - 1]);
            var m, n :| 0 <= m < n < |t| && t[m] == r[i] && t[n] == r[j];
            assert list[m + 1] == r[i] && list[n + 1] == r[j];
          }
        }
      } else {
        forall i, j | 0 <= i < j < |t|
          ensures Precedes(list, t[i], t[j])
        {
          assert list[i + 1] == t[i] && list[j + 1] == t[j];
        }
      }
    }
  }

  /** Taking an operation out is cutting its place out, as unlinking does. */
  lemma {:induction false} WithoutCuts(list: seq<Pid>, i: nat)
    requires NoDup(list) && i < |list|
    ensures Without(list, list[i]) == list[..i] + list[i + 1..]
  {
    if i > 0 {
      var t := list[1..];
      assert t[i - 1] == list[i] && list[0] != list[i];
      WithoutCuts(t, i - 1);
      Shifted(list, i);
    }
  }

  lemma Shifted(list: seq<Pid>, i: nat)
    requires 0 < i < |list|
    ensures [list[0]] + (list[1..][..i - 1] + list[1..][i..]) == list[..i] + list[i + 1..]
  {
  }

  ghost predicate Precedes(list: seq<Pid>, x: Pid, y: Pid) {
    exists m, n :: 0 <= m < n < |list| && list[m] == x && list[n] == y
  }

  lemma UnlistKeeps(s: State, s': State, p: Pid)
    requires Inv(s) && Unlist(s, s', p)
    ensures Inv(s')
  {
    hide LocksOk, RefsOk, MapLockOk, MapOk, CountsOk, InMap, ListOk, Without;
    var q := s.procs[p].q;
    Pointed(s, p, q);
    LiveInMap(s, q);
    MapLockHolders(s, p);
    assert ListOk(s.procs, q, s.queues[q]);
    UnlistList(s.procs, p, q, s.queues[q], s'.queues[q]);
    MoveAll(s, s', p, s'.procs[p], q, s'.queues[q]);
  }

  lemma UnlistList(procs: map<Pid, Proc>, p: Pid, q: Qid, a: Queue, b: Queue)
    requires p in procs && ListOk(procs, q, a) && procs[p].IoDone?
    requires b.list == Without(a.list, p) && b.init == a.init && b.append == a.append
    ensures ListOk(procs[p := Unref(q)], q, b)
  {
    hide Without;
    var procs' := procs[p := Unref(q)];
    WithoutFacts(a.list, p);
    forall i, j | 0 <= i < j < |b.list| && MustOrder(procs', b.list[i], b.append)
      ensures !IsWrite(procs', b.list[j])
    {
      assert b.list[i] in b.list && b.list[j] in b.list;
      assert Precedes(a.list, b.list[i], b.list[j]);
      var m, n :| 0 <= m < n < |a.list| && a.list[m] == b.list[i] && a.list[n] == b.list[j];
      assert MustOrder(procs, a.list[m], a.append);
    }
    if b.list != [] {
      assert b.list[0] in a.list;
    }
  }

  /** A queue about to be freed: out of the map, and no other thread points to it. */
  lemma FreedUnreachable(s: State, p: Pid, q: Qid)
    requires Inv(s) && p in s.procs && s.procs[p] == Freeing(q)
    ensures q in s.queues && !InMap(s.fds, s.queues, q) && q !in s.fds.Values
    ensures forall o :: o in s.procs && o != p ==> !s.procs[o].Refers(q)
  {
    hide ListsOk, MapLockOk;
    forall o | o in s.procs && o != p
      ensures !s.procs[o].Refers(q)
    {
      OnlyOwner(s, p, o, q);
    }
  }

  lemma OnlyOwner(s: State, p: Pid, o: Pid, q: Qid)
    requires Inv(s) && p in s.procs && s.procs[p] == Freeing(q) && o in s.procs && o != p
    ensures !s.procs[o].Refers(q)
  {
    hide ListsOk, MapLockOk, InMap;
    assert !s.procs[o].Found(q) && s.queues[q].ref == 1;
    assert s.procs[p].Locks(q) && !s.procs[o].Locks(q);
    if s.procs[o].Counts(q) {
      assert {o, p} <= Owners(s.procs, q);
      Subset({o, p}, Owners(s.procs, q));
    }
  }

  lemma UnrefLastKeeps(s: State, s': State, p: Pid)
    requires Inv(s) && UnrefLast(s, s', p)
    ensures Inv(s')
  {
    hide LocksOk, RefsOk, ListsOk, MapLockOk, MapOk, CountsOk, InMap, ListOk;
    var q := s.procs[p].q;
    Pointed(s, p, q);
    LiveInMap(s, q);
    MapLockHolders(s, p);
    var y := Freeing(q);
    assert s.queues == s.queues[q := s.queues[q]];
    MoveLocks(s.queues, s.procs, p, y, q, s.queues[q]);
    MoveRefs(s.queues, s.procs, p, y, q, s.queues[q]);
    MoveMapLock(s.readers, s.writer, s'.readers, s'.writer, s.procs, p, y);
    LastList(s, p, q, y);
    LastMap(s, s', p, q);
    assert CountsOk(s') by { LastCounts(s, s', p, q); }
  }

  lemma LastCounts(s: State, s': State, p: Pid, q: Qid)
    requires CountsOk(s) && UnrefLast(s, s', p) && s.procs[p].q == q && InMap(s.fds, s.queues, q)
    ensures CountsOk(s')
  {
    assert s.queues[q].fd in s.fds by { InMapFd(s.fds, s.queues, q); }
    assert s.fds == s'.fds[s.queues[q].fd := s.fds[s.queues[q].fd]];
  }

  lemma InMapFd(fds: map<Fd, Qid>, queues: map<Qid, Queue>, q: Qid)
    requires InMap(fds, queues, q)
    ensures queues[q].fd in fds
  {
  }

  lemma LastList(s: State, p: Pid, q: Qid, y: Proc)
    requires ListsOk(s.queues, s.procs) && p in s.procs && s.procs[p].UnrefBoth? && s.procs[p].q == q && q in s.queues && y == Freeing(q)
    ensures ListsOk(s.queues, s.procs[p := y])
  {
    hide ListOk;
    forall r | r in s.queues
      ensures ListOk(s.procs[p := y], r, s.queues[r])
    {
      OtherList(s.procs, p, y, r, s.queues[r]);
    }
  }

  lemma LastMap(s: State, s': State, p: Pid, q: Qid)
    requires MapOk(s.fds, s.queues, s.procs) && MapLockOk(s.readers, s.writer, s.procs)
    requires UnrefLast(s, s', p) && s.procs[p].q == q && InMap(s.fds, s.queues, q) && s.queues[q].lock == Some(p)
    ensures MapOk(s'.fds, s'.queues, s'.procs)
  {
    hide UnmappedOk, FreeingOk;
    assert forall o, r :: o in s'.procs ==> !s'.procs[o].Found(r);
    LastInMap(s, s', p, q);
    LastUnmapped(s, s', p, q);
    LastFreeing(s, s', p, q);
  }

  lemma LastInMap(s: State, s': State, p: Pid, q: Qid)
    requires MapOk(s.fds, s.queues, s.procs)
    requires UnrefLast(s, s', p) && s.procs[p].q == q && InMap(s.fds, s.queues, q)
    ensures LastMapped(s, s', q)
  {
    hide UnmappedOk, FreeingOk, FoundOk;
  }

  ghost predicate LastMapped(s: State, s': State, q: Qid) {
    && !InMap(s'.fds, s'.queues, q)
    && forall r :: r in s.queues && r != q ==> InMap(s'.fds, s'.queues, r) == InMap(s.fds, s.queues, r)
  }

  lemma LastUnmapped(s: State, s': State, p: Pid, q: Qid)
    requires UnmappedOk(s.fds, s.queues, s.procs) && LastMapped(s, s', q)
    requires UnrefLast(s, s', p) && s.procs[p].q == q && s.queues[q].lock == Some(p)
    ensures UnmappedOk(s'.fds, s'.queues, s'.procs)
  {
    hide InMap;
    forall r | r in s'.queues && !InMap(s'.fds, s'.queues, r)
      ensures BeingFreed(s'.queues, s'.procs, r)
    {
      if r != q {
        assert BeingFreed(s.queues, s.procs, r);
      }
    }
  }

  lemma LastFreeing(s: State, s': State, p: Pid, q: Qid)
    requires FreeingOk(s.fds, s.queues, s.procs) && LastMapped(s, s', q)
    requires UnrefLast(s, s', p) && s.procs[p].q == q
    ensures FreeingOk(s'.fds, s'.queues, s'.procs)
  {
    hide InMap;
    forall o, r | o in s'.procs && s'.procs[o] == Freeing(r)
      ensures !InMap(s'.fds, s'.queues, r) && r in s'.queues && s'.queues[r].ref == 1
    {
      if o != p {
        assert s.procs[o] == Freeing(r);
      }
    }
  }

  lemma FreeKeeps(s: State, s': State, p: Pid)
    requires Inv(s) && Free(s, s', p)
    ensures Inv(s')
  {
    hide LocksOk, RefsOk, ListsOk, MapLockOk, MapOk, InMap, ListOk, Owners, MapLockFollows;
    var q := s.procs[p].q;
    FreedUnreachable(s, p, q);
    FreeMapLock(s, p);
    MoveMapLock(s.readers, s.writer, s'.readers, s'.writer, s.procs, p, Idle);
    FreeLocks(s, s', p, q);
    FreeRefs(s, s', p, q);
    FreeMap(s.fds, s.queues, s.procs, p, q);
  }

  lemma FreeMapLock(s: State, p: Pid)
    requires Inv(s) && p in s.procs && s.procs[p].Freeing?
    ensures MapLockFollows(s.readers, s.writer, s.readers, s.writer, p, s.procs[p], Idle)
  {
    hide LocksOk, RefsOk, ListsOk, MapOk, CountsOk;
  }

  lemma FreeLocks(s: State, s': State, p: Pid, q: Qid)
    requires LocksOk(s.queues, s.procs) && ListsOk(s.queues, s.procs) && Free(s, s', p) && s.procs[p].q == q
    requires forall o :: o in s.procs && o != p ==> !s.procs[o].Refers(q)
    ensures LocksOk(s'.queues, s'.procs) && ListsOk(s'.queues, s'.procs)
  {
    hide ListOk;
    forall r | r in s'.queues
      ensures ListOk(s'.procs, r, s'.queues[r])
    {
      OtherList(s.procs, p, Idle, r, s.queues[r]);
    }
  }

  lemma FreeRefs(s: State, s': State, p: Pid, q: Qid)
    requires RefsOk(s.queues, s.procs) && Free(s, s', p) && s.procs[p].q == q
    requires forall o :: o in s.procs && o != p ==> !s.procs[o].Refers(q)
    ensures RefsOk(s'.queues, s'.procs)
  {
    hide Owners;
    forall r | r in s'.queues
      ensures s'.queues[r].ref == |Owners(s'.procs, r)|
    {
      OwnersMove(s.procs, p, Idle, r);
    }
  }

  lemma FreeMap(fds: map<Fd, Qid>, queues: map<Qid, Queue>, procs: map<Pid, Proc>, p: Pid, q: Qid)
    requires MapOk(fds, queues, procs) && p in procs && procs[p] == Freeing(q)
    requires q !in fds.Values && forall o :: o in procs && o != p ==> !procs[o].Refers(q)
    ensures MapOk(fds, queues - {q}, procs[p := Idle])
  {
    hide FoundOk, UnmappedOk, FreeingOk, InMap;
    assert forall fd :: fd in fds ==> fds[fd] in fds.Values;
    forall r | r != q
      ensures InMap(fds, queues - {q}, r) == InMap(fds, queues, r)
    {
      OtherInMap(fds, queues, q, r);
    }
    FreeFound(fds, queues, procs, p, q);
    FreeUnmapped(fds, queues, procs, p, q);
    FreeFreeing(fds, queues, procs, p, q);
  }

  lemma OtherInMap(fds: map<Fd, Qid>, queues: map<Qid, Queue>, q: Qid, r: Qid)
    requires r != q
    ensures InMap(fds, queues - {q}, r) == InMap(fds, queues, r)
  {
  }

  ghost predicate SameInMap(fds: map<Fd, Qid>, queues: map<Qid, Queue>, q: Qid) {
    forall r :: r != q ==> InMap(fds, queues - {q}, r) == InMap(fds, queues, r)
  }

  lemma FreeFound(fds: map<Fd, Qid>, queues: map<Qid, Queue>, procs: map<Pid, Proc>, p: Pid, q: Qid)
    requires FoundOk(fds, queues, procs) && p in procs && SameInMap(fds, queues, q)
    requires forall o :: o in procs && o != p ==> !procs[o].Refers(q)
    ensures FoundOk(fds, queues - {q}, procs[p := Idle])
  {
    hide InMap;
  }

  lemma FreeUnmapped(fds: map<Fd, Qid>, queues: map<Qid, Queue>, procs: map<Pid, Proc>, p: Pid, q: Qid)
    requires UnmappedOk(fds, queues, procs) && p in procs && procs[p] == Freeing(q) && SameInMap(fds, queues, q)
    ensures UnmappedOk(fds, queues - {q}, procs[p := Idle])
  {
    hide InMap;
  }

  lemma FreeFreeing(fds: map<Fd, Qid>, queues: map<Qid, Queue>, procs: map<Pid, Proc>, p: Pid, q: Qid)
    requires FreeingOk(fds, queues, procs) && p in procs && SameInMap(fds, queues, q)
    requires forall o :: o in procs && o != p ==> !procs[o].Refers(q)
    ensures FreeingOk(fds, queues - {q}, procs[p := Idle])
  {
    hide InMap;
  }

  lemma GetKeeps(s: State, s': State, p: Pid)
    requires Inv(s) && GetStep(s, s', p)
    ensures Inv(s')
  {
    hide Inv, Start, ReadLock, Hit, Miss, WriteLock, HitLate, Create, CreateNothing, LockQueue, UnlockMap;
    if Start(s, s', p) || ReadLock(s, s', p) || Hit(s, s', p) || Miss(s, s', p) { ReadersKeep(s, s', p); }
    else if Create(s, s', p) { CreateKeeps(s, s', p); }
    else if LockQueue(s, s', p) { LockQueueKeeps(s, s', p); }
    else if UnlockMap(s, s', p) { UnlockMapKeeps(s, s', p); }
    else { WritersKeep(s, s', p); }
  }

  lemma SubmitKeeps(s: State, s': State, p: Pid)
    requires Inv(s) && SubmitStep(s, s', p)
    ensures Inv(s')
  {
    hide Inv, Count, CancelEnd, Spawn, SpawnFail, RelockFailed;
    if Count(s, s', p) { CountKeeps(s, s', p); }
    else if CancelEnd(s, s', p) { CancelEndKeeps(s, s', p); }
    else if SpawnFail(s, s', p) { SpawnFailKeeps(s, s', p); }
    else if RelockFailed(s, s', p) { RelockFailedKeeps(s, s', p); }
    else {
      var r :| Spawn(s, s', p, r);
      SpawnKeeps(s, s', p, r);
    }
  }

  lemma IoKeeps(s: State, s': State, p: Pid)
    requires Inv(s) && IoStep(s, s', p)
    ensures Inv(s')
  {
    hide Inv, Enlist, IoWait, IoWake, IoEnter, IoEnd, Unlist;
    if Enlist(s, s', p) { EnlistKeeps(s, s', p); }
    else if IoWait(s, s', p) { IoWaitKeeps(s, s', p); }
    else if IoWake(s, s', p) { IoWakeKeeps(s, s', p); }
    else if IoEnter(s, s', p) { IoEnterKeeps(s, s', p); }
    else if IoEnd(s, s', p) { IoEndKeeps(s, s', p); }
    else { UnlistKeeps(s, s', p); }
  }

  lemma UnrefKeeps(s: State, s': State, p: Pid)
    requires Inv(s) && UnrefStep(s, s', p)
    ensures Inv(s')
  {
    hide Inv, UnrefFast, UnrefSlow, UnrefLockMap, UnrefLockQueue, UnrefLast, UnrefMore, Free;
    if UnrefFast(s, s', p) { UnrefFastKeeps(s, s', p); }
    else if UnrefSlow(s, s', p) { UnrefSlowKeeps(s, s', p); }
    else if UnrefLockMap(s, s', p) { UnrefLockMapKeeps(s, s', p); }
    else if UnrefLockQueue(s, s', p) { UnrefLockQueueKeeps(s, s', p); }
    else if UnrefLast(s, s', p) { UnrefLastKeeps(s, s', p); }
    else if UnrefMore(s, s', p) { UnrefMoreKeeps(s, s', p); }
    else { FreeKeeps(s, s', p); }
  }

  lemma NextKeeps(s: State, s': State)
    requires Inv(s) && Next(s, s')
    ensures Inv(s')
  {
    hide Inv, GetStep, SubmitStep, IoStep, UnrefStep;
    var p :| StepOf(s, s', p);
    if GetStep(s, s', p) { GetKeeps(s, s', p); }
    else if SubmitStep(s, s', p) { SubmitKeeps(s, s', p); }
    else if IoStep(s, s', p) { IoKeeps(s, s', p); }
    else { UnrefKeeps(s, s', p); }
  }

  /** The invariant holds in every state of every run. */
  lemma {:induction false} RunKeeps(run: seq<State>, k: nat)
    requires IsRun(run) && k < |run|
    ensures Inv(run[k])
  {
    hide Next;
    if k == 0 {
      BeginsOk(run[0]);
    } else {
      hide Inv;
      RunKeeps(run, k - 1);
      assert Next(run[k - 1], run[k]);
      NextKeeps(run[k - 1], run[k]);
    }
  }

  lemma BeginsOk(s: State)
    requires Begins(s)
    ensures Inv(s)
  {
    hide RefsOk, MapOk, ListsOk;
    assert RefsOk(s.queues, s.procs) && MapOk(s.fds, s.queues, s.procs) && ListsOk(s.queues, s.procs) by {
      IdleRefers(s);
    }
  }

  lemma IdleRefers(s: State)
    requires Begins(s)
    ensures RefsOk(s.queues, s.procs) && MapOk(s.fds, s.queues, s.procs) && ListsOk(s.queues, s.procs)
  {
  }

  // ---- what every run guarantees ------------------------------------------------------------------

  /** The operation has been counted by submit and not yet dropped by __aio_unref_queue. */
  predicate TookReference(x: Proc, q: Qid) {
    match x
    case Counted(r, _) => r == q
    case CreateFailed(r) => r == q
    case IoStart(r, _) => r == q
    case IoListed(r, _) => r == q
    case IoWaiting(r, _) => r == q
    case IoDoing(r, _) => r == q
    case IoDone(r, _) => r == q
    case Unref(r) => r == q
    case UnrefWantMap(r) => r == q
    case UnrefHaveMap(r) => r == q
    case UnrefBoth(r) => r == q
    case Freeing(r) => r == q
    case _ => false
  }

  /** The thread has a pointer to the queue: counted, or found in the map. */
  predicate PointsTo(x: Proc, q: Qid) {
    match x
    case WantLock(r, _, _) => r == q
    case HaveBoth(r, _, _) => r == q
    case Got(r, _) => r == q
    case _ => TookReference(x, q)
  }

  /** The thread is where it holds the queue's lock. */
  predicate InsideQueue(x: Proc, q: Qid) {
    match x
    case HaveBoth(r, _, _) => r == q
    case Got(r, _) => r == q
    case IoListed(r, _) => r == q
    case Unref(r) => r == q
    case UnrefBoth(r) => r == q
    case Freeing(r) => r == q
    case _ => false
  }

  /** The thread is where it holds the map's lock for reading, or for writing. */
  predicate InsideMap(x: Proc, m: Mode) {
    match x
    case HaveRead(_, _) => m == Shared
    case HaveWrite(_, _) => m == Exclusive
    case WantLock(_, n, _) => m == n
    case HaveBoth(_, n, _) => m == n
    case UnrefHaveMap(_) => m == Exclusive
    case UnrefBoth(_) => m == Exclusive
    case _ => false
  }

  lemma Roles(x: Proc, q: Qid)
    ensures x.Counts(q) == TookReference(x, q) && x.Refers(q) == PointsTo(x, q) && x.Locks(q) == InsideQueue(x, q)
    ensures x.Reads() == InsideMap(x, Shared) && x.Writes() == InsideMap(x, Exclusive)
  {
  }

  /** A queue's lock is held by exactly the thread that is where it holds it. */
  lemma QueueLockHeld(run: seq<State>, k: nat, q: Qid, p: Pid)
    requires IsRun(run) && k < |run|
    ensures p in run[k].procs && InsideQueue(run[k].procs[p], q) ==> q in run[k].queues && run[k].queues[q].lock == Some(p)
    ensures q in run[k].queues && run[k].queues[q].lock == Some(p) ==> p in run[k].procs && InsideQueue(run[k].procs[p], q)
  {
    hide RefsOk, MapLockOk, MapOk, ListsOk, CountsOk;
    RunKeeps(run, k);
    if p in run[k].procs {
      Roles(run[k].procs[p], q);
    }
  }

  /** The map is locked by any number of readers or by one writer, each where it holds that lock. */
  lemma MapLockHeld(run: seq<State>, k: nat, p: Pid)
    requires IsRun(run) && k < |run|
    ensures p in run[k].readers <==> p in run[k].procs && InsideMap(run[k].procs[p], Shared)
    ensures run[k].writer == Some(p) <==> p in run[k].procs && InsideMap(run[k].procs[p], Exclusive)
    ensures run[k].writer.Some? ==> run[k].readers == {}
  {
    hide RefsOk, LocksOk, MapOk, ListsOk, CountsOk;
    RunKeeps(run, k);
    if p in run[k].procs {
      Roles(run[k].procs[p], 0);
    }
  }

  /** ref is the number of operations that took a reference and have not dropped it, the map holds exactly
      the queues that are allocated and not being freed, aio_fd_cnt counts them, and no thread points to a
      freed queue. */
  lemma ReferencesCounted(run: seq<State>, k: nat, q: Qid)
    requires IsRun(run) && k < |run|
    ensures var s := run[k];
            && (q in s.queues ==> s.queues[q].ref == |set p | p in s.procs && TookReference(s.procs[p], q)|)
            && (q in s.queues ==> q in s.fds.Values || BeingFreed(s.queues, s.procs, q))
            && (q in s.fds.Values ==> q in s.queues && !BeingFreed(s.queues, s.procs, q))
            && s.fdCnt == |s.fds|
            && (forall p :: p in s.procs && PointsTo(s.procs[p], q) ==> q in s.queues)
  {
    var s := run[k];
    RunKeeps(run, k);
    forall p | p in s.procs
      ensures s.procs[p].Counts(q) == TookReference(s.procs[p], q) && s.procs[p].Refers(q) == PointsTo(s.procs[p], q)
    {
      Roles(s.procs[p], q);
    }
    assert Owners(s.procs, q) == set p | p in s.procs && TookReference(s.procs[p], q);
    if q in s.queues && InMap(s.fds, s.queues, q) {
      assert s.fds[s.queues[q].fd] in s.fds.Values;
    }
    if q in s.fds.Values {
      var fd :| fd in s.fds && s.fds[fd] == q;
      assert InMap(s.fds, s.queues, q);
    }
  }

  /** A queue is freed only by a thread that is alone in pointing to it, after it has left the map. */
  lemma FreedAlone(run: seq<State>, k: nat, q: Qid) returns (p: Pid)
    requires IsRun(run) && k + 1 < |run| && q in run[k].queues && q !in run[k + 1].queues
    ensures p in run[k].procs && run[k].procs[p] == Freeing(q) && q !in run[k].fds.Values
    ensures forall o :: o in run[k].procs && o != p ==> !PointsTo(run[k].procs[o], q)
  {
    forall o | o in run[k].procs
      ensures run[k].procs[o].Refers(q) == PointsTo(run[k].procs[o], q)
    {
      Roles(run[k].procs[o], q);
    }
    RunKeeps(run, k);
    assert Next(run[k + 1 - 1], run[k + 1]);
    p := OnlyFreeRemoves(run[k], run[k + 1], q);
    FreedUnreachable(run[k], p, q);
  }

  lemma OnlyFreeRemoves(s: State, s': State, q: Qid) returns (p: Pid)
    requires Next(s, s') && q in s.queues && q !in s'.queues
    ensures p in s.procs && s.procs[p] == Freeing(q)
  {
    hide GetStep, SubmitStep, IoStep, UnrefStep;
    p :| StepOf(s, s', p);
    if GetStep(s, s', p) { GetLists(s, s', p, q); }
    else if SubmitStep(s, s', p) { SubmitLists(s, s', p, q); }
    else if IoStep(s, s', p) { IoLists(s, s', p, q); }
    else { UnrefLists(s, s', p, q); }
  }

  /** On an append-mode queue at most one write is in its I/O phase. */
  lemma AppendWritesExclusive(run: seq<State>, k: nat, q: Qid, p: Pid, o: Pid)
    requires IsRun(run) && k < |run| && q in run[k].queues && run[k].queues[q].append
    requires p in run[k].procs && run[k].procs[p] == IoDoing(q, Write)
    requires o in run[k].procs && run[k].procs[o] == IoDoing(q, Write)
    ensures p == o
  {
    hide Inv;
    RunKeeps(run, k);
    OneAppendWrite(run[k], q, p, o);
  }

  lemma OneAppendWrite(s: State, q: Qid, p: Pid, o: Pid)
    requires Inv(s) && q in s.queues && s.queues[q].append
    requires p in s.procs && s.procs[p] == IoDoing(q, Write)
    requires o in s.procs && s.procs[o] == IoDoing(q, Write)
    ensures p == o
  {
    hide LocksOk, RefsOk, MapLockOk, MapOk, CountsOk;
    var x := s.queues[q];
    assert ListOk(s.procs, q, x);
    assert s.procs[p].Listed(q) && s.procs[o].Listed(q);
    var i :| 0 <= i < |x.list| && x.list[i] == p;
    var j :| 0 <= j < |x.list| && x.list[j] == o;
    assert MustOrder(s.procs, x.list[i], x.append) && MustOrder(s.procs, x.list[j], x.append);
  }

  /** `p` is not on the list, or stands before `o`: it was enlisted later. */
  ghost predicate NotOlder(list: seq<Pid>, p: Pid, o: Pid) {
    o in list && (p in list ==> Precedes(list, p, o))
  }

  lemma WithoutKeepsOrder(list: seq<Pid>, r: Pid, p: Pid, o: Pid)
    requires NoDup(list) && NotOlder(list, p, o) && o in Without(list, r)
    ensures NotOlder(Without(list, r), p, o)
  {
    hide Without;
    WithoutFacts(list, r);
    var w := Without(list, r);
    if p in w {
      OneWay(list, p, o);
      var i :| 0 <= i < |w| && w[i] == p;
      var j :| 0 <= j < |w| && w[j] == o;
      assert Precedes(w, p, o) || Precedes(w, o, p);
      NoReverse(list, w, p, o);
    }
  }

  lemma NoReverse(list: seq<Pid>, w: seq<Pid>, p: Pid, o: Pid)
    requires !Precedes(list, o, p) && forall i, j :: 0 <= i < j < |w| ==> Precedes(list, w[i], w[j])
    ensures !Precedes(w, o, p)
  {
  }

  lemma OneWay(list: seq<Pid>, p: Pid, o: Pid)
    requires NoDup(list) && Precedes(list, p, o)
    ensures p != o && !Precedes(list, o, p)
  {
    var m, n :| 0 <= m < n < |list| && list[m] == p && list[n] == o;
  }

  /** Being enlisted later is kept by every step, as long as `o` stays on the list. */
  lemma NotOlderKept(s: State, s': State, q: Qid, p: Pid, o: Pid)
    requires Inv(s) && Next(s, s') && q in s.queues && q in s'.queues
    requires NotOlder(s.queues[q].list, p, o) && o in s'.queues[q].list
    ensures NotOlder(s'.queues[q].list, p, o)
  {
    hide NotOlder, StepOf, LocksOk, RefsOk, MapLockOk, MapOk, ListsOk, CountsOk;
    var r :| StepOf(s, s', r);
    ListSteps(s, s', r, q);
    var list, list' := s.queues[q].list, s'.queues[q].list;
    if list' == [r] + list {
      PrependKeepsOrder(list, r, p, o);
    } else if list' == Without(list, r) {
      ListHolds(s, q);
      WithoutKeepsOrder(list, r, p, o);
    }
  }

  /** Order is kept as long as `o` stays on the list. */
  lemma {:induction false} NotOlderThrough(run: seq<State>, j: nat, k: nat, q: Qid, p: Pid, o: Pid)
    requires IsRun(run) && j <= k < |run|
    requires StaysListed(run, j, k, q, o) && p !in run[j].queues[q].list
    ensures NotOlder(run[k].queues[q].list, p, o)
  {
    hide Inv, Next, NotOlder, IsRun;
    if j == k {
      Absent(run[j].queues[q].list, p, o);
    } else {
      var before := k - 1;
      RunStep(run, k);
      NotOlderThrough(run, j, before, q, p, o);
      RunKeeps(run, before);
      NotOlderKept(run[before], run[k], q, p, o);
    }
  }

  lemma RunStep(run: seq<State>, k: nat)
    requires IsRun(run) && 0 < k < |run|
    ensures Next(run[k - 1], run[k])
  {
  }

  lemma Absent(list: seq<Pid>, p: Pid, o: Pid)
    requires o in list && p !in list
    ensures NotOlder(list, p, o)
  {
  }

  ghost predicate StaysListed(run: seq<State>, j: nat, k: nat, q: Qid, o: Pid)
    requires j <= k < |run|
  {
    forall i :: j <= i <= k ==> q in run[i].queues && o in run[i].queues[q].list
  }

  /** The thread's write is on the list of queue `q`. */
  predicate WriteListed(x: Proc, q: Qid) {
    x == IoListed(q, Write) || x == IoWaiting(q, Write) || x == IoDoing(q, Write) || x == IoDone(q, Write)
  }

  /** A sync, or a write in append mode, that joins the list while a write is on it is not let through before
      that write has left the list, whatever the other threads do meanwhile. */
  lemma WaitsForEarlierWrites(run: seq<State>, j: nat, k: nat, q: Qid, p: Pid, o: Pid)
    requires IsRun(run) && j <= k < |run|
    requires StaysListed(run, j, k, q, o) && p !in run[j].queues[q].list
    requires o in run[k].procs && WriteListed(run[k].procs[o], q) && p in run[k].procs
    ensures run[k].procs[p] != IoDoing(q, Sync) && run[k].procs[p] != IoDone(q, Sync)
    ensures run[k].queues[q].append ==> run[k].procs[p] != IoDoing(q, Write) && run[k].procs[p] != IoDone(q, Write)
  {
    hide IsRun, Inv, NotOlder;
    NotOlderThrough(run, j, k, q, p, o);
    RunKeeps(run, k);
    assert q in run[k].queues;
    HeldBack(run[k], q, p, o);
  }

  lemma HeldBack(s: State, q: Qid, p: Pid, o: Pid)
    requires Inv(s) && q in s.queues && NotOlder(s.queues[q].list, p, o) && p in s.procs
    requires o in s.procs && WriteListed(s.procs[o], q)
    ensures s.procs[p] != IoDoing(q, Sync) && s.procs[p] != IoDone(q, Sync)
    ensures s.queues[q].append ==> s.procs[p] != IoDoing(q, Write) && s.procs[p] != IoDone(q, Write)
  {
    hide Inv, NotOlder;
    if s.procs[p].Refers(q) && Orders(KindOf(s.procs[p]), s.queues[q].append) {
      OrderHolds(s, q, p, o);
    }
  }

  /** Nobody else waits. */
  ghost predicate WaitersOk(s: State) {
    forall p :: p in s.procs && s.procs[p].IoWaiting? && s.procs[p].q in s.queues ==>
      s.procs[p].kind == Sync || (s.procs[p].kind == Write && s.queues[s.procs[p].q].append)
  }

  /** What a descriptor is opened for is found out once. */
  ghost predicate AppendKept(s: State, s': State) {
    forall q :: q in s.queues && q in s'.queues && s.queues[q].init ==> s'.queues[q].append == s.queues[q].append
  }

  /** Only a step that waits makes a thread wait. */
  ghost predicate NewWaiter(s: State, s': State, p: Pid) {
    && (forall o :: o in s'.procs && s'.procs[o].IoWaiting? ==> o == p || (o in s.procs && s'.procs[o] == s.procs[o]))
    && (p in s'.procs && s'.procs[p].IoWaiting? ==> IoWait(s, s', p))
  }

  lemma GetWaiters(s: State, s': State, p: Pid)
    requires GetStep(s, s', p) && CountsOk(s)
    ensures AppendKept(s, s') && NewWaiter(s, s', p)
  {
  }

  lemma SubmitWaiters(s: State, s': State, p: Pid)
    requires SubmitStep(s, s', p)
    ensures AppendKept(s, s') && NewWaiter(s, s', p)
  {
  }

  lemma IoWaiters(s: State, s': State, p: Pid)
    requires IoStep(s, s', p)
    ensures AppendKept(s, s') && NewWaiter(s, s', p)
  {
    hide Without, Blocked;
  }

  lemma UnrefWaiters(s: State, s': State, p: Pid)
    requires UnrefStep(s, s', p)
    ensures AppendKept(s, s') && NewWaiter(s, s', p)
  {
  }

  lemma StepWaiters(s: State, s': State)
    requires CountsOk(s) && RefsOk(s.queues, s.procs) && ListsOk(s.queues, s.procs) && WaitersOk(s) && Next(s, s')
    ensures WaitersOk(s')
  {
    hide GetStep, SubmitStep, IoStep, UnrefStep, CountsOk, Without;
    var p :| StepOf(s, s', p);
    if GetStep(s, s', p) { GetWaiters(s, s', p); }
    else if SubmitStep(s, s', p) { SubmitWaiters(s, s', p); }
    else if IoStep(s, s', p) { IoWaiters(s, s', p); }
    else { UnrefWaiters(s, s', p); }
    forall o | o in s'.procs && s'.procs[o].IoWaiting? && s'.procs[o].q in s'.queues
      ensures s'.procs[o].kind == Sync || (s'.procs[o].kind == Write && s'.queues[s'.procs[o].q].append)
    {
      if o != p || !IoWait(s, s', p) {
        assert s'.procs[o] == s.procs[o] && s.procs[o].Refers(s.procs[o].q) && s.procs[o].Listed(s.procs[o].q);
        assert ListOk(s.procs, s.procs[o].q, s.queues[s.procs[o].q]);
      }
    }
  }

  lemma {:induction false} RunWaiters(run: seq<State>, k: nat)
    requires IsRun(run) && k < |run|
    ensures WaitersOk(run[k])
  {
    hide WaitersOk, Next, LocksOk, RefsOk, MapLockOk, MapOk, ListsOk, CountsOk;
    if k == 0 {
      NoneWait(run[0]);
    } else {
      RunWaiters(run, k - 1);
      RunKeeps(run, k - 1);
      RunStep(run, k);
      StepWaiters(run[k - 1], run[k]);
    }
  }

  lemma NoneWait(s: State)
    requires Begins(s)
    ensures WaitersOk(s)
  {
  }

  /** An operation that waits for earlier ones is a sync, or a write on a descriptor in append mode. */
  lemma OnlyOrderedWait(run: seq<State>, k: nat, q: Qid, kind: Kind, p: Pid)
    requires IsRun(run) && k < |run| && p in run[k].procs && run[k].procs[p] == IoWaiting(q, kind)
    ensures q in run[k].queues && (kind == Sync || (kind == Write && run[k].queues[q].append))
  {
    hide LocksOk, MapLockOk, MapOk, ListsOk, CountsOk;
    RunWaiters(run, k);
    RunKeeps(run, k);
    assert run[k].procs[p].Refers(q);
  }

  lemma OrderHolds(s: State, q: Qid, p: Pid, o: Pid)
    requires Inv(s) && q in s.queues && NotOlder(s.queues[q].list, p, o) && IsWrite(s.procs, o)
    requires p in s.procs && s.procs[p].Refers(q) && Orders(KindOf(s.procs[p]), s.queues[q].append)
    ensures !s.procs[p].Passed()
  {
    hide LocksOk, RefsOk, MapLockOk, MapOk, CountsOk;
    var x := s.queues[q];
    assert ListOk(s.procs, q, x);
    if p in x.list {
      var m, n :| 0 <= m < n < |x.list| && x.list[m] == p && x.list[n] == o;
      assert !MustOrder(s.procs, x.list[m], x.append);
    }
  }

  lemma ListHolds(s: State, q: Qid)
    requires Inv(s) && q in s.queues
    ensures NoDup(s.queues[q].list)
  {
    assert ListOk(s.procs, q, s.queues[q]);
  }

  lemma PrependKeepsOrder(list: seq<Pid>, r: Pid, p: Pid, o: Pid)
    requires NotOlder(list, p, o)
    ensures NotOlder([r] + list, p, o)
  {
    var l := [r] + list;
    var j :| 0 <= j < |list| && list[j] == o;
    assert l[j + 1] == o;
    if p in list {
      var m, n :| 0 <= m < n < |list| && list[m] == p && list[n] == o;
      assert l[m + 1] == p && l[n + 1] == o;
    } else if p == r {
      assert l[0] == p;
    }
  }

  /** A step leaves a list alone, puts its thread in front, or takes it out. */
  lemma ListSteps(s: State, s': State, r: Pid, q: Qid)
    requires CountsOk(s) && StepOf(s, s', r) && q in s.queues && q in s'.queues
    ensures s'.queues[q].list == s.queues[q].list || s'.queues[q].list == [r] + s.queues[q].list
         || s'.queues[q].list == Without(s.queues[q].list, r)
  {
    hide Without, Blocked;
    if GetStep(s, s', r) { GetLists(s, s', r, q); }
    else if SubmitStep(s, s', r) { SubmitLists(s, s', r, q); }
    else if UnrefStep(s, s', r) { UnrefLists(s, s', r, q); }
  }

  lemma GetLists(s: State, s': State, r: Pid, q: Qid)
    requires GetStep(s, s', r) && q in s.queues
    ensures q in s'.queues && (q != s.nextQ ==> s'.queues[q].list == s.queues[q].list)
  {
  }

  lemma SubmitLists(s: State, s': State, r: Pid, q: Qid)
    requires SubmitStep(s, s', r) && q in s.queues
    ensures q in s'.queues && s'.queues[q].list == s.queues[q].list
  {
  }

  lemma UnrefLists(s: State, s': State, r: Pid, q: Qid)
    requires UnrefStep(s, s', r) && q in s.queues
    ensures q in s'.queues ==> s'.queues[q].list == s.queues[q].list
    ensures q !in s'.queues ==> r in s.procs && s.procs[r] == Freeing(q)
  {
  }

  lemma IoLists(s: State, s': State, r: Pid, q: Qid)
    requires IoStep(s, s', r) && q in s.queues
    ensures q in s'.queues
  {
    hide Without, Blocked;
  }

  // ---- nothing gets stuck -------------------------------------------------------------------------

  ghost predicate CanStep(s: State, p: Pid) {
    exists s' :: StepOf(s, s', p)
  }

  lemma Steps(s: State, s': State, p: Pid)
    requires StepOf(s, s', p)
    ensures CanStep(s, p)
  {
  }

  /** Whoever holds a queue's lock can go on. */
  lemma QueueHolderSteps(s: State, q: Qid, p: Pid)
    requires Inv(s) && p in s.procs && InsideQueue(s.procs[p], q)
    ensures CanStep(s, p)
  {
    hide CanStep, LocksOk, MapLockOk, MapOk, ListsOk, CountsOk;
    var x := s.procs[p];
    Roles(x, q);
    assert q in s.queues;
    match x {
      case HaveBoth(_, mode, goal) => Steps(s, MapReleased(To(s, p, Got(q, goal)), p, mode), p);
      case Got(_, goal) => GotSteps(s, q, p);
      case IoListed(_, kind) =>
        if Blocked(s, p) {
          Steps(s, To(Released(s, q), p, IoWaiting(q, kind)), p);
        } else {
          Steps(s, To(Released(s, q), p, IoDoing(q, kind)), p);
        }
      case Unref(_) => UnrefSteps(s, q, p);
      case UnrefBoth(_) =>
        assert p in Owners(s.procs, q);
        if s.queues[q].ref == 1 {
          Steps(s, To(s, p, Freeing(q)).(fds := s.fds - {s.queues[q].fd}, fdCnt := s.fdCnt - 1, writer := None), p);
        } else {
          assert s.queues[q].ref != 0;
          Steps(s, To(WithQueue(s, q, s.queues[q].(ref := s.queues[q].ref - 1, lock := None)), p, Idle).(writer := None), p);
        }
      case Freeing(_) => Steps(s, To(s, p, Idle).(queues := s.queues - {q}), p);
      case _ =>
    }
  }

  lemma GotSteps(s: State, q: Qid, p: Pid)
    requires p in s.procs && s.procs[p].Got? && s.procs[p].q == q && q in s.queues
    ensures CanStep(s, p)
  {
    hide CanStep;
    match s.procs[p].goal {
      case Submit(kind) =>
        Steps(s, To(WithQueue(s, q, s.queues[q].(ref := s.queues[q].ref + 1, lock := None)), p, Counted(q, kind)), p);
      case Cancel => Steps(s, To(Released(s, q), p, Idle), p);
    }
  }

  lemma UnrefSteps(s: State, q: Qid, p: Pid)
    requires p in s.procs && s.procs[p] == Unref(q) && q in s.queues
    ensures CanStep(s, p)
  {
    hide CanStep;
    if s.queues[q].ref > 1 {
      Steps(s, To(WithQueue(s, q, s.queues[q].(ref := s.queues[q].ref - 1, lock := None)), p, Idle), p);
    } else {
      Steps(s, To(Released(s, q), p, UnrefWantMap(q)), p);
    }
  }

  /** The lock a thread is about to take, if any. */
  predicate WantsQueue(x: Proc, q: Qid) {
    match x
    case WantLock(r, _, _) => r == q
    case CreateFailed(r) => r == q
    case IoStart(r, _) => r == q
    case IoWaiting(r, _) => r == q
    case IoDone(r, _) => r == q
    case UnrefHaveMap(r) => r == q
    case _ => false
  }

  predicate WantsMap(x: Proc) {
    x.WantRead? || x.WantWrite? || x.UnrefWantMap?
  }

  /** A free queue is taken. */
  lemma FreeQueueSteps(s: State, q: Qid, p: Pid)
    requires p in s.procs && WantsQueue(s.procs[p], q) && q in s.queues && s.queues[q].lock == None
    ensures CanStep(s, p)
  {
    hide CanStep, Without;
    match s.procs[p] {
      case WantLock(_, mode, goal) => Steps(s, To(Acquired(s, q, p), p, HaveBoth(q, mode, goal)), p);
      case CreateFailed(_) => Steps(s, To(Acquired(s, q, p), p, Unref(q)), p);
      case IoStart(_, kind) =>
        Steps(s, To(WithQueue(s, q, s.queues[q].(lock := Some(p), list := [p] + s.queues[q].list, init := true,
                                                 append := s.queues[q].append)), p, IoListed(q, kind)), p);
      case IoWaiting(_, kind) => Steps(s, To(Acquired(s, q, p), p, IoListed(q, kind)), p);
      case IoDone(_, _) =>
        Steps(s, To(WithQueue(s, q, s.queues[q].(lock := Some(p), list := Without(s.queues[q].list, p))), p, Unref(q)), p);
      case UnrefHaveMap(_) => Steps(s, To(Acquired(s, q, p), p, UnrefBoth(q)), p);
      case _ =>
    }
  }

  /** A free map is taken. */
  lemma FreeMapSteps(s: State, p: Pid)
    requires p in s.procs && WantsMap(s.procs[p]) && s.writer == None && s.readers == {}
    ensures CanStep(s, p)
  {
    hide CanStep;
    match s.procs[p] {
      case WantRead(fd, goal) => Steps(s, To(s, p, HaveRead(fd, goal)).(readers := s.readers + {p}), p);
      case WantWrite(fd, goal) => Steps(s, To(s, p, HaveWrite(fd, goal)).(writer := Some(p)), p);
      case UnrefWantMap(q) => Steps(s, To(s, p, UnrefHaveMap(q)).(writer := Some(p)), p);
      case _ =>
    }
  }

  /** Anything else needs no lock. */
  lemma OtherSteps(s: State, p: Pid)
    requires p in s.procs && var x := s.procs[p]; x.HaveRead? || x.HaveWrite? || x.Counted? || x.IoDoing?
    ensures CanStep(s, p)
  {
    hide CanStep;
    match s.procs[p] {
      case HaveRead(fd, goal) =>
        if fd in s.fds {
          Steps(s, To(s, p, WantLock(s.fds[fd], Shared, goal)), p);
        } else {
          Steps(s, To(s, p, Idle).(readers := s.readers - {p}), p);
        }
      case HaveWrite(fd, goal) =>
        if fd in s.fds {
          Steps(s, To(s, p, WantLock(s.fds[fd], Exclusive, goal)), p);
        } else {
          Steps(s, To(s, p, Idle).(writer := None), p);
        }
      case Counted(q, _) => Steps(s, To(s, p, CreateFailed(q)), p);
      case IoDoing(q, kind) => Steps(s, To(s, p, Proc.IoDone(q, kind)), p);
      case _ =>
    }
  }

  /** A thread that wants a queue can take it, or the queue's holder can go on. */
  lemma QueueSteps(s: State, q: Qid, p: Pid) returns (o: Pid)
    requires Inv(s) && p in s.procs && WantsQueue(s.procs[p], q)
    ensures o in s.procs && s.procs[o] != Idle && CanStep(s, o) && (o == p || s.queues[q].lock == Some(o))
  {
    hide CanStep, MapLockOk, MapOk, ListsOk, CountsOk;
    Roles(s.procs[p], q);
    assert q in s.queues;
    o := p;
    if s.queues[q].lock == None {
      FreeQueueSteps(s, q, p);
    } else {
      o := s.queues[q].lock.value;
      Roles(s.procs[o], q);
      QueueHolderSteps(s, q, o);
    }
  }

  /** Whoever holds the map can go on, or waits for a queue whose holder can. */
  lemma MapHolderSteps(s: State, p: Pid, m: Mode) returns (o: Pid)
    requires Inv(s) && p in s.procs && InsideMap(s.procs[p], m)
    ensures o in s.procs && s.procs[o] != Idle && CanStep(s, o)
  {
    hide CanStep, Inv;
    o := p;
    match s.procs[p] {
      case HaveRead(_, _) => OtherSteps(s, p);
      case HaveWrite(_, _) => OtherSteps(s, p);
      case WantLock(q, _, _) => o := QueueSteps(s, q, p);
      case HaveBoth(q, _, _) => QueueHolderSteps(s, q, p);
      case UnrefHaveMap(q) => o := QueueSteps(s, q, p);
      case UnrefBoth(q) => QueueHolderSteps(s, q, p);
      case _ =>
    }
  }

  lemma MapHolder(s: State) returns (p: Pid)
    requires Inv(s) && (s.writer.Some? || s.readers != {})
    ensures p in s.procs && (InsideMap(s.procs[p], Shared) || InsideMap(s.procs[p], Exclusive))
  {
    hide LocksOk, RefsOk, MapOk, ListsOk, CountsOk;
    if s.writer.Some? {
      p := s.writer.value;
    } else {
      p :| p in s.readers;
    }
    Roles(s.procs[p], 0);
  }

  /** There is no deadlock: in every state of every run in which a thread is at work, some thread at work can take a
      step. */
  lemma NeverStuck(run: seq<State>, k: nat, p: Pid) returns (o: Pid)
    requires IsRun(run) && k < |run| && p in run[k].procs && run[k].procs[p] != Idle
    ensures o in run[k].procs && run[k].procs[o] != Idle && CanStep(run[k], o)
  {
    hide CanStep, Inv;
    var s := run[k];
    RunKeeps(run, k);
    o := p;
    var x := s.procs[p];
    if WantsMap(x) {
      if s.writer == None && s.readers == {} {
        FreeMapSteps(s, p);
      } else {
        var h := MapHolder(s);
        o := MapHolderSteps(s, h, if InsideMap(s.procs[h], Shared) then Shared else Exclusive);
      }
    } else if x.HaveRead? || x.HaveWrite? || x.Counted? || x.IoDoing? {
      OtherSteps(s, p);
    } else if InsideQueue(x, x.q) {
      QueueHolderSteps(s, x.q, p);
    } else {
      o := QueueSteps(s, x.q, p);
    }
  }
}
