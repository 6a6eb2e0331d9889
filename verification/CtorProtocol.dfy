/**
 The multi-thread protocol of constructors and destructors: do_init_fini, which
 any number of threads may be running at once and which nests when a constructor
 calls dlopen, and __libc_exit_fini, which one thread enters from exit().

 init_fini_lock is the lock whose holder the state records.  Reads and writes of
 the protocol's fields happen only while it is held, so everything a thread does
 between taking and releasing it is one step or a few, and a constructor runs
 without it.
 */
module CtorProtocol {
  import DepGraph

  type Dso = nat
  type Tid = nat

  datatype Option<+T> = None | Some(value: T)

  /** Where an activation of do_init_fini is: about to take the lock, testing entry `i` under it, in
      pthread_cond_wait, or running entry `i`'s constructors. */
  datatype Pc = Enter | Check | Waiting | Running

  datatype Frame =
    | InitFrame(queue: seq<Dso>, i: nat, pc: Pc)
    | ExitFrame(pending: seq<Dso>, at: Pc)

  datatype State = State(
    visitor: map<Dso, Tid>,      // ctor_visitor, where it is not null
    constructed: set<Dso>,
    finiList: seq<Dso>,          // the fini_next chain from fini_head
    shutting: bool,              // shutting_down
    holder: Option<Tid>,         // of init_fini_lock
    exiter: Option<Tid>,         // the thread that got exit_lock
    threads: map<Tid, seq<Frame>>, // activations, innermost first
    started: seq<Dso>,           // constructors in the order they began
    destroyed: seq<Dso>)         // destructors in the order they ran

  ghost predicate Begins(s: State) {
    && s.visitor == map[] && s.constructed == {} && s.finiList == [] && !s.shutting
    && s.holder == None && s.exiter == None && s.started == [] && s.destroyed == []
    && forall t :: t in s.threads ==> s.threads[t] == []
  }

  /** Thread `t` is in an activation; `Now` is its innermost one. */
  predicate Active(s: State, t: Tid) {
    t in s.threads && s.threads[t] != []
  }

  function Now(s: State, t: Tid): Frame
    requires Active(s, t)
  {
    s.threads[t][0]
  }

  function Moved(s: State, t: Tid, f: Frame): State
    requires Active(s, t)
  {
    s.(threads := s.threads[t := [f] + s.threads[t][1..]])
  }

  function Pushed(s: State, t: Tid, f: Frame): State
    requires t in s.threads
  {
    s.(threads := s.threads[t := [f] + s.threads[t]])
  }

  // ---- do_init_fini ----------------------------------------------------------------------------

  predicate InInit(s: State, t: Tid, pc: Pc) {
    Active(s, t) && Now(s, t).InitFrame? && Now(s, t).pc == pc
  }

  /** Under the lock, with entry `p` of the queue to deal with. */
  predicate AtEntry(s: State, t: Tid) {
    InInit(s, t, Check) && s.holder == Some(t) && Now(s, t).i < |Now(s, t).queue|
  }

  function Entry(s: State, t: Tid): Dso
    requires Active(s, t) && Now(s, t).InitFrame? && Now(s, t).i < |Now(s, t).queue|
  {
    Now(s, t).queue[Now(s, t).i]
  }

  /** A thread waits while another thread constructs the DSO, and for ever once shutting_down is set. */
  predicate MustWait(s: State, t: Tid, p: Dso) {
    (p in s.visitor && s.visitor[p] != t) || s.shutting
  }

  /** A thread may call into the loader from outside any activation or from a running constructor. */
  predicate MayCall(s: State, t: Tid) {
    t in s.threads && (s.threads[t] == [] || InInit(s, t, Running))
  }

  /** do_init_fini is called with some queue. */
  ghost predicate Call(s: State, s': State, t: Tid) {
    && MayCall(s, t) && InInit(s', t, Enter)
    && s' == Pushed(s, t, InitFrame(Now(s', t).queue, 0, Enter))
  }

  ghost predicate Lock(s: State, s': State, t: Tid) {
    && (InInit(s, t, Enter) || InInit(s, t, Waiting)) && s.holder == None
    && s' == Moved(s, t, Now(s, t).(pc := Check)).(holder := Some(t))
  }

  ghost predicate Wait(s: State, s': State, t: Tid) {
    && AtEntry(s, t) && MustWait(s, t, Entry(s, t))
    && s' == Moved(s, t, Now(s, t).(pc := Waiting)).(holder := None)
  }

  ghost predicate Skip(s: State, s': State, t: Tid) {
    && AtEntry(s, t) && !MustWait(s, t, Entry(s, t))
    && (Entry(s, t) in s.visitor || Entry(s, t) in s.constructed)
    && s' == Moved(s, t, Now(s, t).(i := Now(s, t).i + 1))
  }

  ghost predicate Begin(fini: set<Dso>, s: State, s': State, t: Tid) {
    && AtEntry(s, t) && !MustWait(s, t, Entry(s, t))
    && Entry(s, t) !in s.visitor && Entry(s, t) !in s.constructed
    && var p := Entry(s, t);
       s' == Moved(s, t, Now(s, t).(pc := Running)).(
               visitor := s.visitor[p := t],
               finiList := if p in fini then [p] + s.finiList else s.finiList,
               holder := None,
               started := s.started + [p])
  }

  ghost predicate Return(s: State, s': State, t: Tid) {
    && InInit(s, t, Running) && Now(s, t).i < |Now(s, t).queue| && s.holder == None
    && var p := Entry(s, t);
       s' == Moved(s, t, Now(s, t).(i := Now(s, t).i + 1, pc := Check)).(
               visitor := s.visitor - {p},
               constructed := s.constructed + {p},
               holder := Some(t))
  }

  ghost predicate Leave(s: State, s': State, t: Tid) {
    && InInit(s, t, Check) && s.holder == Some(t) && Now(s, t).i >= |Now(s, t).queue|
    && s' == s.(threads := s.threads[t := s.threads[t][1..]], holder := None)
  }

  // ---- __libc_exit_fini -------------------------------------------------------------------------

  predicate InExit(s: State, t: Tid, pc: Pc) {
    Active(s, t) && Now(s, t).ExitFrame? && Now(s, t).at == pc
  }

  predicate AtPending(s: State, t: Tid) {
    InExit(s, t, Check) && s.holder == Some(t) && Now(s, t).pending != []
  }

  /** exit() lets one thread through; it may come from a constructor. */
  ghost predicate CallExit(s: State, s': State, t: Tid) {
    && MayCall(s, t) && s.exiter == None
    && s' == Pushed(s, t, ExitFrame([], Enter)).(exiter := Some(t))
  }

  ghost predicate LockExit(s: State, s': State, t: Tid) {
    && InExit(s, t, Enter) && s.holder == None
    && s' == Moved(s, t, ExitFrame(s.finiList, Check)).(holder := Some(t), shutting := true)
  }

  ghost predicate WaitExit(s: State, s': State, t: Tid) {
    && AtPending(s, t) && Now(s, t).pending[0] in s.visitor && s.visitor[Now(s, t).pending[0]] != t
    && s' == Moved(s, t, Now(s, t).(at := Waiting)).(holder := None)
  }

  ghost predicate WakeExit(s: State, s': State, t: Tid) {
    && InExit(s, t, Waiting) && s.holder == None
    && s' == Moved(s, t, Now(s, t).(at := Check)).(holder := Some(t))
  }

  /** No other thread is constructing the DSO: destroy it if it is constructed, else go on. */
  ghost predicate Destroy(s: State, s': State, t: Tid) {
    && AtPending(s, t)
    && var p := Now(s, t).pending[0];
       && (p in s.visitor ==> s.visitor[p] == t)
       && s' == Moved(s, t, ExitFrame(Now(s, t).pending[1..], Check)).(
                  destroyed := if p in s.constructed then s.destroyed + [p] else s.destroyed)
  }

  /** One step of thread `t`; `fini` is the set of DSOs that have destructors. */
  ghost predicate StepOf(fini: set<Dso>, s: State, s': State, t: Tid) {
    || Call(s, s', t) || Lock(s, s', t) || Wait(s, s', t) || Skip(s, s', t) || Begin(fini, s, s', t)
    || Return(s, s', t) || Leave(s, s', t)
    || CallExit(s, s', t) || LockExit(s, s', t) || WaitExit(s, s', t) || WakeExit(s, s', t) || Destroy(s, s', t)
  }

  ghost predicate Next(fini: set<Dso>, s: State, s': State) {
    exists t :: StepOf(fini, s, s', t)
  }

  /** A run: any interleaving of the threads' steps. */
  ghost predicate IsRun(fini: set<Dso>, run: seq<State>) {
    && run != [] && Begins(run[0])
    && forall k :: 0 < k < |run| ==> Next(fini, run[k - 1], run[k])
  }

  // ---- invariant ----------------------------------------------------------------------------------

  ghost predicate NoDup(s: seq<Dso>) {
    forall i, j :: 0 <= i < j < |s| ==> s[i] != s[j]
  }

  /** Started DSOs that have destructors, latest first. */
  function FiniOrder(fini: set<Dso>, started: seq<Dso>): (r: seq<Dso>) {
    if started == [] then []
    else
      var p := started[|started| - 1];
      (if p in fini then [p] else []) + FiniOrder(fini, started[..|started| - 1])
  }

  /** Constructors started are exactly those running or finished, each started once. */
  ghost predicate StartedOnce(s: State) {
    && NoDup(s.started)
    && (forall p :: p in s.started <==> p in s.visitor || p in s.constructed)
    && s.visitor.Keys !! s.constructed
  }

  /** `p` is constructed, or thread `t` is constructing it. */
  predicate Ready(visitor: map<Dso, Tid>, constructed: set<Dso>, t: Tid, p: Dso) {
    p in constructed || (p in visitor && visitor[p] == t)
  }

  predicate Runs(f: Frame) {
    f.InitFrame? && f.pc == Running
  }

  /** What holds of activation number `k` of thread `t`, counted from the innermost.  Outer activations are
      running a constructor; whatever precedes a frame's place in its queue is ready for its thread; a
      running constructor's DSO is visited by that thread; only the exiting thread is in exit. */
  ghost predicate FrameOk(visitor: map<Dso, Tid>, constructed: set<Dso>, exiter: Option<Tid>, t: Tid, k: int, f: Frame) {
    && (k > 0 ==> Runs(f))
    && (f.ExitFrame? ==> exiter == Some(t))
    && (f.InitFrame? ==>
          && f.i <= |f.queue|
          && (forall j :: 0 <= j < f.i ==> Ready(visitor, constructed, t, f.queue[j]))
          && (f.pc == Running ==> f.i < |f.queue| && f.queue[f.i] in visitor && visitor[f.queue[f.i]] == t))
  }

  /** No DSO is being constructed by two activations of one thread. */
  ghost predicate RunDistinct(frames: seq<Frame>) {
    forall j, k :: 0 <= j < k < |frames| ==> Apart(frames[j], frames[k])
  }

  predicate Apart(f: Frame, g: Frame) {
    Runs(f) && Runs(g) && f.i < |f.queue| && g.i < |g.queue| ==> f.queue[f.i] != g.queue[g.i]
  }

  ghost predicate StackOk(visitor: map<Dso, Tid>, constructed: set<Dso>, exiter: Option<Tid>, t: Tid, frames: seq<Frame>) {
    && (forall k :: 0 <= k < |frames| ==> FrameOk(visitor, constructed, exiter, t, k, frames[k]))
    && RunDistinct(frames)
  }

  ghost predicate ThreadsOk(s: State) {
    forall t :: t in s.threads ==> StackOk(s.visitor, s.constructed, s.exiter, t, s.threads[t])
  }

  /** The exiting thread works through the destructor list: what it has passed was destroyed, unless it is a
      DSO that very thread was constructing. */
  ghost predicate ExitOk(s: State) {
    match s.exiter
    case None => !s.shutting && s.destroyed == []
    case Some(t) =>
      && Active(s, t) && Now(s, t).ExitFrame?
      && (if s.shutting then (Now(s, t).at == Check || Now(s, t).at == Waiting) && Passed(s, t, Now(s, t).pending)
          else Now(s, t).at == Enter && s.destroyed == [])
  }

  /** The part of the list already passed, and what became of it. */
  ghost predicate Passed(s: State, t: Tid, pending: seq<Dso>) {
    && |pending| <= |s.finiList| && pending == s.finiList[|s.finiList| - |pending|..]
    && PassedOk(s.visitor, s.constructed, t, s.finiList[..|s.finiList| - |pending|], s.destroyed)
  }

  ghost predicate PassedOk(visitor: map<Dso, Tid>, constructed: set<Dso>, t: Tid, passed: seq<Dso>, destroyed: seq<Dso>) {
    && Within(destroyed, passed)
    && (forall p :: p in destroyed ==> p in constructed)
    && (forall p :: p in passed && p !in destroyed ==> p in visitor && visitor[p] == t)
  }

  /** `sub` is a subsequence of `list`. */
  ghost predicate Within(sub: seq<Dso>, list: seq<Dso>) {
    if sub == [] then true
    else if list == [] then false
    else
      var init := list[..|list| - 1];
      Within(sub, init) || (sub[|sub| - 1] == list[|list| - 1] && Within(sub[..|sub| - 1], init))
  }

  ghost predicate Inv(fini: set<Dso>, s: State) {
    StartedOnce(s) && ThreadsOk(s) && s.finiList == FiniOrder(fini, s.started) && ExitOk(s)
  }

  // ---- stacks of activations --------------------------------------------------------------------

  lemma ReplaceTop(v: map<Dso, Tid>, c: set<Dso>, e: Option<Tid>, t: Tid, frames: seq<Frame>, f: Frame)
    requires StackOk(v, c, e, t, frames) && frames != [] && FrameOk(v, c, e, t, 0, f)
    requires forall k :: 0 < k < |frames| ==> Apart(f, frames[k])
    ensures StackOk(v, c, e, t, [f] + frames[1..])
  {
    var r := [f] + frames[1..];
    assert forall k :: 0 < k < |r| ==> r[k] == frames[k];
  }

  lemma PushTop(v: map<Dso, Tid>, c: set<Dso>, e: Option<Tid>, t: Tid, frames: seq<Frame>, f: Frame)
    requires StackOk(v, c, e, t, frames) && (frames != [] ==> Runs(frames[0]))
    requires FrameOk(v, c, e, t, 0, f) && !Runs(f)
    ensures StackOk(v, c, e, t, [f] + frames)
  {
    var r := [f] + frames;
    forall k | 0 <= k < |r|
      ensures FrameOk(v, c, e, t, k, r[k])
    {
      if k > 0 {
        assert r[k] == frames[k - 1] && FrameOk(v, c, e, t, k - 1, frames[k - 1]);
      }
    }
    forall j, k | 0 <= j < k < |r|
      ensures Apart(r[j], r[k])
    {
      if j > 0 {
        assert r[j] == frames[j - 1] && r[k] == frames[k - 1];
      }
    }
  }

  lemma PopTop(v: map<Dso, Tid>, c: set<Dso>, e: Option<Tid>, t: Tid, frames: seq<Frame>)
    requires StackOk(v, c, e, t, frames) && frames != []
    ensures StackOk(v, c, e, t, frames[1..])
  {
    var r := frames[1..];
    forall k | 0 <= k < |r|
      ensures FrameOk(v, c, e, t, k, r[k])
    {
      assert r[k] == frames[k + 1] && FrameOk(v, c, e, t, k + 1, frames[k + 1]);
    }
    forall j, k | 0 <= j < k < |r|
      ensures Apart(r[j], r[k])
    {
      assert r[j] == frames[j + 1] && r[k] == frames[k + 1];
    }
  }

  /** A constructor starting elsewhere, or exit being entered, disturbs no stack. */
  lemma StackGrows(v: map<Dso, Tid>, c: set<Dso>, e: Option<Tid>, t: Tid, frames: seq<Frame>, p: Dso, u: Tid, e': Option<Tid>)
    requires StackOk(v, c, e, t, frames) && (p in v ==> v[p] == u) && (e == None || e == e')
    ensures StackOk(v[p := u], c, e', t, frames)
  {
    forall k | 0 <= k < |frames|
      ensures FrameOk(v[p := u], c, e', t, k, frames[k])
    {
      assert FrameOk(v, c, e, t, k, frames[k]);
    }
  }

  /** Nor does a constructor that ends, for stacks that were not running it. */
  lemma StackSettles(v: map<Dso, Tid>, c: set<Dso>, e: Option<Tid>, t: Tid, frames: seq<Frame>, p: Dso)
    requires StackOk(v, c, e, t, frames)
    requires forall k :: 0 <= k < |frames| && Runs(frames[k]) && frames[k].i < |frames[k].queue|
               ==> frames[k].queue[frames[k].i] != p
    ensures StackOk(v - {p}, c + {p}, e, t, frames)
  {
    forall k | 0 <= k < |frames|
      ensures FrameOk(v - {p}, c + {p}, e, t, k, frames[k])
    {
      assert FrameOk(v, c, e, t, k, frames[k]);
    }
  }

  // ---- every step keeps the invariant --------------------------------------------------------------

  /** A step of do_init_fini that touches only its own innermost frame and the lock. */
  lemma QuietKeeps(fini: set<Dso>, s: State, s': State, t: Tid, f: Frame)
    requires Inv(fini, s) && Active(s, t) && Now(s, t).InitFrame? && f.InitFrame? && f.pc != Running
    requires FrameOk(s.visitor, s.constructed, s.exiter, t, 0, f)
    requires s' == Moved(s, t, f).(holder := s'.holder)
    ensures Inv(fini, s')
  {
    ReplaceTop(s.visitor, s.constructed, s.exiter, t, s.threads[t], f);
  }

  lemma LockKeeps(fini: set<Dso>, s: State, s': State, t: Tid)
    requires Inv(fini, s) && Lock(s, s', t)
    ensures Inv(fini, s')
  {
    assert FrameOk(s.visitor, s.constructed, s.exiter, t, 0, s.threads[t][0]);
    QuietKeeps(fini, s, s', t, Now(s, t).(pc := Check));
  }

  lemma WaitKeeps(fini: set<Dso>, s: State, s': State, t: Tid)
    requires Inv(fini, s) && Wait(s, s', t)
    ensures Inv(fini, s')
  {
    assert FrameOk(s.visitor, s.constructed, s.exiter, t, 0, s.threads[t][0]);
    QuietKeeps(fini, s, s', t, Now(s, t).(pc := Waiting));
  }

  lemma SkipKeeps(fini: set<Dso>, s: State, s': State, t: Tid)
    requires Inv(fini, s) && Skip(s, s', t)
    ensures Inv(fini, s')
  {
    assert FrameOk(s.visitor, s.constructed, s.exiter, t, 0, s.threads[t][0]);
    QuietKeeps(fini, s, s', t, Now(s, t).(i := Now(s, t).i + 1));
  }

  lemma CallKeeps(fini: set<Dso>, s: State, s': State, t: Tid)
    requires Inv(fini, s) && Call(s, s', t)
    ensures Inv(fini, s')
  {
    CallStack(s, t, Now(s', t).queue);
    CallThreads(s, s', t);
    CallExitOk(s, s', t);
  }

  lemma CallThreads(s: State, s': State, t: Tid)
    requires ThreadsOk(s) && Call(s, s', t)
    requires StackOk(s.visitor, s.constructed, s.exiter, t, s'.threads[t])
    ensures ThreadsOk(s')
  {
    hide StackOk;
    forall u | u in s'.threads
      ensures StackOk(s'.visitor, s'.constructed, s'.exiter, u, s'.threads[u])
    {
      assert u == t || s'.threads[u] == s.threads[u];
    }
  }

  lemma CallExitOk(s: State, s': State, t: Tid)
    requires ExitOk(s) && Call(s, s', t)
    ensures ExitOk(s')
  {
    hide PassedOk;
    if s.exiter.Some? {
      assert s.exiter.value != t;
      assert Now(s', s.exiter.value) == Now(s, s.exiter.value);
    }
  }

  lemma CallStack(s: State, t: Tid, queue: seq<Dso>)
    requires ThreadsOk(s) && MayCall(s, t)
    ensures StackOk(s.visitor, s.constructed, s.exiter, t, [InitFrame(queue, 0, Enter)] + s.threads[t])
  {
    PushTop(s.visitor, s.constructed, s.exiter, t, s.threads[t], InitFrame(queue, 0, Enter));
  }

  lemma LeaveKeeps(fini: set<Dso>, s: State, s': State, t: Tid)
    requires Inv(fini, s) && Leave(s, s', t)
    ensures Inv(fini, s')
  {
    PopTop(s.visitor, s.constructed, s.exiter, t, s.threads[t]);
  }

  lemma FiniGrows(fini: set<Dso>, started: seq<Dso>, p: Dso)
    ensures FiniOrder(fini, started + [p]) == (if p in fini then [p] else []) + FiniOrder(fini, started)
  {
    assert (started + [p])[..|started|] == started;
  }

  lemma BeginKeeps(fini: set<Dso>, s: State, s': State, t: Tid)
    requires Inv(fini, s) && Begin(fini, s, s', t)
    ensures Inv(fini, s')
  {
    var p, f := Entry(s, t), Now(s, t).(pc := Running);
    FiniGrows(fini, s.started, p);
    assert ThreadsOk(s') by {
      forall u | u in s.threads
        ensures StackOk(s'.visitor, s.constructed, s.exiter, u, s.threads[u])
      {
        StackGrows(s.visitor, s.constructed, s.exiter, u, s.threads[u], p, t, s.exiter);
      }
      BeginTop(s, t, p, f);
      ReplaceTop(s'.visitor, s.constructed, s.exiter, t, s.threads[t], f);
    }
  }

  lemma BeginTop(s: State, t: Tid, p: Dso, f: Frame)
    requires ThreadsOk(s) && AtEntry(s, t) && p == Entry(s, t) && p !in s.visitor && f == Now(s, t).(pc := Running)
    ensures FrameOk(s.visitor[p := t], s.constructed, s.exiter, t, 0, f)
    ensures forall k :: 0 < k < |s.threads[t]| ==> Apart(f, s.threads[t][k])
  {
    assert FrameOk(s.visitor, s.constructed, s.exiter, t, 0, s.threads[t][0]);
    forall k | 0 < k < |s.threads[t]|
      ensures Apart(f, s.threads[t][k])
    {
      assert FrameOk(s.visitor, s.constructed, s.exiter, t, k, s.threads[t][k]);
    }
  }

  lemma ReturnKeeps(fini: set<Dso>, s: State, s': State, t: Tid)
    requires Inv(fini, s) && Return(s, s', t)
    ensures Inv(fini, s')
  {
    var p, f := Entry(s, t), Now(s, t).(i := Now(s, t).i + 1, pc := Check);
    assert FrameOk(s.visitor, s.constructed, s.exiter, t, 0, s.threads[t][0]);
    assert ThreadsOk(s') by {
      forall u | u in s'.threads
        ensures StackOk(s'.visitor, s'.constructed, s'.exiter, u, s'.threads[u])
      {
        ReturnStack(s, t, u);
      }
    }
  }

  lemma ReturnStack(s: State, t: Tid, u: Tid)
    requires ThreadsOk(s) && InInit(s, t, Running) && Now(s, t).i < |Now(s, t).queue| && u in s.threads
    ensures var p := Entry(s, t);
            var f := Now(s, t).(i := Now(s, t).i + 1, pc := Check);
            StackOk(s.visitor - {p}, s.constructed + {p}, s.exiter, u, if u == t then [f] + s.threads[t][1..] else s.threads[u])
  {
    var p, fs := Entry(s, t), s.threads[u];
    assert FrameOk(s.visitor, s.constructed, s.exiter, t, 0, s.threads[t][0]);
    if u == t {
      var f := Now(s, t).(i := Now(s, t).i + 1, pc := Check);
      PopTop(s.visitor, s.constructed, s.exiter, t, fs);
      forall k | 0 <= k < |fs[1..]| && Runs(fs[1..][k]) && fs[1..][k].i < |fs[1..][k].queue|
        ensures fs[1..][k].queue[fs[1..][k].i] != p
      {
        assert Apart(fs[0], fs[k + 1]);
      }
      StackSettles(s.visitor, s.constructed, s.exiter, t, fs[1..], p);
      assert fs[1..] != [] ==> Runs(fs[1..][0]) by {
        if |fs| > 1 {
          assert FrameOk(s.visitor, s.constructed, s.exiter, t, 1, fs[1]);
        }
      }
      PushTop(s.visitor - {p}, s.constructed + {p}, s.exiter, t, fs[1..], f);
    } else {
      forall k | 0 <= k < |fs| && Runs(fs[k]) && fs[k].i < |fs[k].queue|
        ensures fs[k].queue[fs[k].i] != p
      {
        assert FrameOk(s.visitor, s.constructed, s.exiter, u, k, fs[k]);
      }
      StackSettles(s.visitor, s.constructed, s.exiter, u, fs, p);
    }
  }

  lemma CallExitKeeps(fini: set<Dso>, s: State, s': State, t: Tid)
    requires Inv(fini, s) && CallExit(s, s', t)
    ensures Inv(fini, s')
  {
    var f := ExitFrame([], Enter);
    forall u | u in s.threads
      ensures StackOk(s.visitor, s.constructed, Some(t), u, s.threads[u])
    {
      StackExits(s.visitor, s.constructed, u, s.threads[u], t);
    }
    PushTop(s.visitor, s.constructed, Some(t), t, s.threads[t], f);
  }

  lemma StackExits(v: map<Dso, Tid>, c: set<Dso>, t: Tid, frames: seq<Frame>, u: Tid)
    requires StackOk(v, c, None, t, frames)
    ensures StackOk(v, c, Some(u), t, frames)
  {
    forall k | 0 <= k < |frames|
      ensures FrameOk(v, c, Some(u), t, k, frames[k])
    {
      assert FrameOk(v, c, None, t, k, frames[k]);
    }
  }

  /** A step of the exiting thread changes its own frame, the lock and the list of what was destroyed. */
  lemma ExitMoves(fini: set<Dso>, s: State, s': State, t: Tid, f: Frame)
    requires Inv(fini, s) && Active(s, t) && Now(s, t).ExitFrame? && f.ExitFrame?
    requires s' == Moved(s, t, f).(holder := s'.holder, shutting := s'.shutting, destroyed := s'.destroyed)
    requires ExitOk(s')
    ensures Inv(fini, s')
  {
    assert FrameOk(s.visitor, s.constructed, s.exiter, t, 0, s.threads[t][0]);
    ReplaceTop(s.visitor, s.constructed, s.exiter, t, s.threads[t], f);
  }

  /** The exiting thread's innermost frame is its exit frame, and no other thread has one. */
  lemma ExiterIs(fini: set<Dso>, s: State, t: Tid)
    requires Inv(fini, s) && Active(s, t) && Now(s, t).ExitFrame?
    ensures s.exiter == Some(t)
  {
    assert FrameOk(s.visitor, s.constructed, s.exiter, t, 0, s.threads[t][0]);
  }

  lemma LockExitKeeps(fini: set<Dso>, s: State, s': State, t: Tid)
    requires Inv(fini, s) && LockExit(s, s', t)
    ensures Inv(fini, s')
  {
    ExiterIs(fini, s, t);
    assert s.finiList == s.finiList[|s.finiList| - |s.finiList|..];
    ExitMoves(fini, s, s', t, ExitFrame(s.finiList, Check));
  }

  lemma WaitExitKeeps(fini: set<Dso>, s: State, s': State, t: Tid)
    requires Inv(fini, s) && WaitExit(s, s', t)
    ensures Inv(fini, s')
  {
    ExiterIs(fini, s, t);
    ExitMoves(fini, s, s', t, Now(s, t).(at := Waiting));
  }

  lemma WakeExitKeeps(fini: set<Dso>, s: State, s': State, t: Tid)
    requires Inv(fini, s) && WakeExit(s, s', t)
    ensures Inv(fini, s')
  {
    ExiterIs(fini, s, t);
    ExitMoves(fini, s, s', t, Now(s, t).(at := Check));
  }

  lemma {:induction false} FiniStarted(fini: set<Dso>, started: seq<Dso>, p: Dso)
    requires p in FiniOrder(fini, started)
    ensures p in started
  {
    var n := |started| - 1;
    if p in FiniOrder(fini, started[..n]) {
      FiniStarted(fini, started[..n], p);
    }
  }

  lemma WithinGrows(sub: seq<Dso>, list: seq<Dso>, p: Dso)
    requires Within(sub, list)
    ensures Within(sub, list + [p]) && Within(sub + [p], list + [p])
  {
    assert (list + [p])[..|list|] == list && (sub + [p])[..|sub|] == sub;
  }

  lemma DestroyKeeps(fini: set<Dso>, s: State, s': State, t: Tid)
    requires Inv(fini, s) && Destroy(s, s', t)
    ensures Inv(fini, s')
  {
    hide PassedOk, FiniOrder, StackOk;
    ExiterIs(fini, s, t);
    var pending := Now(s, t).pending;
    var p, n := pending[0], |s.finiList| - |pending|;
    assert p in s.finiList;
    FiniStarted(fini, s.started, p);
    PassOne(s.visitor, s.constructed, t, s.finiList[..n], s.destroyed, p);
    assert pending[1..] == s.finiList[n + 1..] && s.finiList[..n + 1] == s.finiList[..n] + [p];
    ExitMoves(fini, s, s', t, ExitFrame(pending[1..], Check));
  }

  lemma PassOne(v: map<Dso, Tid>, c: set<Dso>, t: Tid, passed: seq<Dso>, destroyed: seq<Dso>, p: Dso)
    requires PassedOk(v, c, t, passed, destroyed) && (p in v || p in c) && (p in v ==> v[p] == t)
    ensures PassedOk(v, c, t, passed + [p], if p in c then destroyed + [p] else destroyed)
  {
    WithinGrows(destroyed, passed, p);
  }

  lemma StepKeeps(fini: set<Dso>, s: State, s': State, t: Tid)
    requires Inv(fini, s) && StepOf(fini, s, s', t)
    ensures Inv(fini, s')
  {
    hide Inv, Call, Lock, Wait, Skip, Begin, Return, Leave, CallExit, LockExit, WaitExit, WakeExit, Destroy;
    if Call(s, s', t) { CallKeeps(fini, s, s', t); }
    else if Lock(s, s', t) { LockKeeps(fini, s, s', t); }
    else if Wait(s, s', t) { WaitKeeps(fini, s, s', t); }
    else if Skip(s, s', t) { SkipKeeps(fini, s, s', t); }
    else if Begin(fini, s, s', t) { BeginKeeps(fini, s, s', t); }
    else if Return(s, s', t) { ReturnKeeps(fini, s, s', t); }
    else if Leave(s, s', t) { LeaveKeeps(fini, s, s', t); }
    else if CallExit(s, s', t) { CallExitKeeps(fini, s, s', t); }
    else if LockExit(s, s', t) { LockExitKeeps(fini, s, s', t); }
    else if WaitExit(s, s', t) { WaitExitKeeps(fini, s, s', t); }
    else if WakeExit(s, s', t) { WakeExitKeeps(fini, s, s', t); }
    else { DestroyKeeps(fini, s, s', t); }
  }

  /** The invariant holds in every state of every run. */
  lemma {:induction false} RunKeeps(fini: set<Dso>, run: seq<State>, k: nat)
    requires IsRun(fini, run) && k < |run|
    ensures Inv(fini, run[k])
  {
    hide Next;
    if k > 0 {
      RunKeeps(fini, run, k - 1);
      assert Next(fini, run[k - 1], run[k]);
      NextKeeps(fini, run[k - 1], run[k]);
    }
  }

  lemma NextKeeps(fini: set<Dso>, s: State, s': State)
    requires Inv(fini, s) && Next(fini, s, s')
    ensures Inv(fini, s')
  {
    hide StepOf, Inv;
    var t :| StepOf(fini, s, s', t);
    StepKeeps(fini, s, s', t);
  }

  // ---- the lock -----------------------------------------------------------------------------------

  /** The innermost activation of `t` is between taking and releasing init_fini_lock. */
  predicate UnderLock(s: State, t: Tid) {
    && t in s.threads && s.threads[t] != []
    && match s.threads[t][0]
       case InitFrame(_, _, pc) => pc == Check
       case ExitFrame(_, at) => at == Check
  }

  ghost predicate HolderOk(s: State) {
    forall t: Tid :: s.holder == Some(t) <==> UnderLock(s, t)
  }

  lemma OthersUnderLock(s: State, s': State, t: Tid, frames: seq<Frame>)
    requires t in s.threads && s'.threads == s.threads[t := frames]
    ensures forall u :: u != t ==> UnderLock(s', u) == UnderLock(s, u)
  {
  }

  /** A thread that leaves an activation is back in a running constructor or in none. */
  lemma LeavesUnderNone(fini: set<Dso>, s: State, t: Tid)
    requires Inv(fini, s) && Active(s, t)
    ensures var rest := s.threads[t][1..]; rest == [] || Runs(rest[0])
  {
    if |s.threads[t]| > 1 {
      assert FrameOk(s.visitor, s.constructed, s.exiter, t, 1, s.threads[t][1]);
    }
  }

  lemma InitHolder(fini: set<Dso>, s: State, s': State, t: Tid)
    requires Inv(fini, s) && HolderOk(s)
    requires Call(s, s', t) || Lock(s, s', t) || Wait(s, s', t) || Skip(s, s', t) || Begin(fini, s, s', t) || Return(s, s', t)
             || Leave(s, s', t)
    ensures HolderOk(s')
  {
    hide Inv;
    if Active(s, t) {
      LeavesUnderNone(fini, s, t);
    }
    OthersUnderLock(s, s', t, s'.threads[t]);
  }

  lemma ExitHolder(fini: set<Dso>, s: State, s': State, t: Tid)
    requires HolderOk(s)
    requires CallExit(s, s', t) || LockExit(s, s', t) || WaitExit(s, s', t) || WakeExit(s, s', t) || Destroy(s, s', t)
    ensures HolderOk(s')
  {
    OthersUnderLock(s, s', t, s'.threads[t]);
  }

  lemma {:induction false} RunHolder(fini: set<Dso>, run: seq<State>, k: nat)
    requires IsRun(fini, run) && k < |run|
    ensures HolderOk(run[k])
  {
    hide Inv, HolderOk, Call, Lock, Wait, Skip, Begin, Return, Leave, CallExit, LockExit, WaitExit, WakeExit, Destroy, Next;
    if k == 0 {
      BeginsUnlocked(run[0]);
    } else {
      RunHolder(fini, run, k - 1);
      RunKeeps(fini, run, k - 1);
      assert Next(fini, run[k - 1], run[k]);
      NextHolder(fini, run[k - 1], run[k]);
    }
  }

  lemma BeginsUnlocked(s: State)
    requires Begins(s)
    ensures HolderOk(s)
  {
  }

  lemma NextHolder(fini: set<Dso>, s: State, s': State)
    requires Inv(fini, s) && HolderOk(s) && Next(fini, s, s')
    ensures HolderOk(s')
  {
    hide Inv, HolderOk, Call, Lock, Wait, Skip, Begin, Return, Leave, CallExit, LockExit, WaitExit, WakeExit, Destroy;
    var t :| StepOf(fini, s, s', t);
    if CallExit(s, s', t) || LockExit(s, s', t) || WaitExit(s, s', t) || WakeExit(s, s', t) || Destroy(s, s', t) {
      ExitHolder(fini, s, s', t);
    } else {
      InitHolder(fini, s, s', t);
    }
  }

  /** A thread holds init_fini_lock if and only if its innermost activation, of do_init_fini or of exit, is between taking
      and releasing it; so two threads never are. */
  lemma LockHeld(fini: set<Dso>, run: seq<State>, k: nat, t: Tid, u: Tid)
    requires IsRun(fini, run) && k < |run|
    ensures run[k].holder == Some(t) <==> UnderLock(run[k], t)
    ensures UnderLock(run[k], t) && UnderLock(run[k], u) ==> t == u
  {
    RunHolder(fini, run, k);
  }

  /** The exiting thread has worked through its list; it keeps the lock. */
  predicate ExitDone(s: State, t: Tid) {
    InExit(s, t, Check) && Now(s, t).pending == []
  }

  ghost predicate CanStep(fini: set<Dso>, s: State, t: Tid) {
    exists s' :: StepOf(fini, s, s', t)
  }

  lemma Steps(fini: set<Dso>, s: State, s': State, t: Tid)
    requires StepOf(fini, s, s', t)
    ensures CanStep(fini, s, t)
  {
  }

  /** The lock is never lost: its holder can go on, and when nobody holds it every thread in an activation can. */
  lemma NeverStuck(fini: set<Dso>, run: seq<State>, k: nat, t: Tid)
    requires IsRun(fini, run) && k < |run|
    ensures run[k].holder == Some(t) ==> ExitDone(run[k], t) || CanStep(fini, run[k], t)
    ensures run[k].holder == None && Active(run[k], t) ==> CanStep(fini, run[k], t)
  {
    hide CanStep, Inv;
    RunHolder(fini, run, k);
    RunKeeps(fini, run, k);
    var s := run[k];
    if s.holder == Some(t) && !ExitDone(s, t) {
      if InInit(s, t, Check) {
        InitGoesOn(fini, s, t);
      } else {
        ExitGoesOn(fini, s, t);
      }
    } else if s.holder == None && Active(s, t) {
      Locks(fini, s, t);
    }
  }

  lemma InitGoesOn(fini: set<Dso>, s: State, t: Tid)
    requires InInit(s, t, Check) && s.holder == Some(t)
    ensures CanStep(fini, s, t)
  {
    hide CanStep;
    var f := Now(s, t);
    if f.i >= |f.queue| {
      Steps(fini, s, s.(threads := s.threads[t := s.threads[t][1..]], holder := None), t);
    } else if MustWait(s, t, Entry(s, t)) {
      Steps(fini, s, Moved(s, t, f.(pc := Waiting)).(holder := None), t);
    } else if Entry(s, t) in s.visitor || Entry(s, t) in s.constructed {
      Steps(fini, s, Moved(s, t, f.(i := f.i + 1)), t);
    } else {
      var p := Entry(s, t);
      Steps(fini, s, Moved(s, t, f.(pc := Running)).(visitor := s.visitor[p := t],
                      finiList := if p in fini then [p] + s.finiList else s.finiList, holder := None,
                      started := s.started + [p]), t);
    }
  }

  lemma ExitGoesOn(fini: set<Dso>, s: State, t: Tid)
    requires AtPending(s, t)
    ensures CanStep(fini, s, t)
  {
    hide CanStep;
    var f := Now(s, t);
    var p := f.pending[0];
    if p in s.visitor && s.visitor[p] != t {
      Steps(fini, s, Moved(s, t, f.(at := Waiting)).(holder := None), t);
    } else {
      Steps(fini, s, Moved(s, t, ExitFrame(f.pending[1..], Check)).(
                       destroyed := if p in s.constructed then s.destroyed + [p] else s.destroyed), t);
    }
  }

  lemma Locks(fini: set<Dso>, s: State, t: Tid)
    requires Inv(fini, s) && HolderOk(s) && s.holder == None && Active(s, t)
    ensures CanStep(fini, s, t)
  {
    hide CanStep;
    var f := Now(s, t);
    assert FrameOk(s.visitor, s.constructed, s.exiter, t, 0, s.threads[t][0]);
    assert !UnderLock(s, t);
    if f.InitFrame? {
      if f.pc == Running {
        var p := Entry(s, t);
        Steps(fini, s, Moved(s, t, f.(i := f.i + 1, pc := Check)).(visitor := s.visitor - {p},
                         constructed := s.constructed + {p}, holder := Some(t)), t);
      } else {
        assert f.pc != Check;
        Steps(fini, s, Moved(s, t, f.(pc := Check)).(holder := Some(t)), t);
      }
    } else if f.at == Enter {
      Steps(fini, s, Moved(s, t, ExitFrame(s.finiList, Check)).(holder := Some(t), shutting := true), t);
    } else {
      ExiterIs(fini, s, t);
      assert f.at == Waiting;
      Steps(fini, s, Moved(s, t, f.(at := Check)).(holder := Some(t)), t);
    }
  }

  // ---- what every run guarantees ------------------------------------------------------------------

  lemma {:induction false} Monotone(fini: set<Dso>, run: seq<State>, j: nat, k: nat)
    requires IsRun(fini, run) && j <= k < |run|
    ensures run[j].started <= run[k].started && (run[j].shutting ==> run[k].shutting && run[k].started == run[j].started)
  {
    hide Next;
    if j < k {
      Monotone(fini, run, j, k - 1);
      assert Next(fini, run[k - 1], run[k]);
      NextGrows(fini, run[k - 1], run[k]);
    }
  }

  lemma NextGrows(fini: set<Dso>, s: State, s': State)
    requires Next(fini, s, s')
    ensures s.started <= s'.started && (s.shutting ==> s'.shutting && s'.started == s.started)
  {
  }

  /** Each DSO's constructors start at most once, and none starts after shutting_down is set. */
  lemma ConstructorsStartOnce(fini: set<Dso>, run: seq<State>, j: nat, k: nat)
    requires IsRun(fini, run) && j <= k < |run|
    ensures run[j].started <= run[k].started && NoDup(run[k].started)
    ensures run[j].shutting ==> run[k].started == run[j].started
  {
    Monotone(fini, run, j, k);
    RunKeeps(fini, run, k);
  }

  /** When a constructor starts, every DSO before it in that thread's queue is constructed, or under
      construction by the same thread. */
  lemma StartsAfterDependencies(fini: set<Dso>, run: seq<State>, k: nat) returns (t: Tid)
    requires IsRun(fini, run) && k + 1 < |run| && run[k + 1].started != run[k].started
    ensures !run[k].shutting && AtEntry(run[k], t) && run[k + 1].started == run[k].started + [Entry(run[k], t)]
    ensures forall j :: 0 <= j < Now(run[k], t).i ==>
              Ready(run[k].visitor, run[k].constructed, t, Now(run[k], t).queue[j])
  {
    hide Inv, StepOf;
    var s, s' := run[k], run[k + 1];
    RunKeeps(fini, run, k);
    FrameHolds(fini, s);
    assert Next(fini, run[k + 1 - 1], run[k + 1]);
    t :| StepOf(fini, s, s', t);
    OnlyBeginStarts(fini, s, s', t);
    assert FrameOk(s.visitor, s.constructed, s.exiter, t, 0, s.threads[t][0]);
  }

  lemma FrameHolds(fini: set<Dso>, s: State)
    requires Inv(fini, s)
    ensures ThreadsOk(s)
  {
  }

  lemma OnlyBeginStarts(fini: set<Dso>, s: State, s': State, t: Tid)
    requires StepOf(fini, s, s', t) && s'.started != s.started
    ensures Begin(fini, s, s', t)
  {
  }

  /** If the queue is a constructor order of the dependency graph, a constructor starts only when each direct
      dependency that does not depend back on it is constructed, or under construction by the same thread. */
  lemma DependenciesReady(fini: set<Dso>, run: seq<State>, k: nat, g: DepGraph.Graph<Dso>, root: Dso) returns (t: Tid)
    requires IsRun(fini, run) && k + 1 < |run| && run[k + 1].started != run[k].started
    ensures AtEntry(run[k], t) && run[k + 1].started == run[k].started + [Entry(run[k], t)]
    ensures var p := Entry(run[k], t);
            DepGraph.ConstructorOrder(g, root, Now(run[k], t).queue) && p in g ==>
              forall v :: v in g[p] && !DepGraph.Reachable(g, v, p) ==> Ready(run[k].visitor, run[k].constructed, t, v)
  {
    t := StartsAfterDependencies(fini, run, k);
    var f, p := Now(run[k], t), Entry(run[k], t);
    if DepGraph.ConstructorOrder(g, root, f.queue) && p in g {
      forall v | v in g[p] && !DepGraph.Reachable(g, v, p)
        ensures Ready(run[k].visitor, run[k].constructed, t, v)
      {
        assert v in f.queue[..f.i];
      }
    }
  }

  lemma {:induction false} WithinOne(sub: seq<Dso>, list: seq<Dso>, i: nat) returns (a: nat)
    requires Within(sub, list) && i < |sub|
    ensures a < |list| && list[a] == sub[i]
    decreases |list|
  {
    var init := list[..|list| - 1];
    if Within(sub, init) {
      a := WithinOne(sub, init, i);
    } else if i == |sub| - 1 {
      a := |list| - 1;
    } else {
      a := WithinOne(sub[..|sub| - 1], init, i);
    }
  }

  lemma {:induction false} WithinPair(sub: seq<Dso>, list: seq<Dso>, i: nat, j: nat) returns (a: nat, b: nat)
    requires Within(sub, list) && i < j < |sub|
    ensures a < b < |list| && list[a] == sub[i] && list[b] == sub[j]
    decreases |list|
  {
    var init := list[..|list| - 1];
    if Within(sub, init) {
      a, b := WithinPair(sub, init, i, j);
    } else if j == |sub| - 1 {
      b := |list| - 1;
      a := WithinOne(sub[..|sub| - 1], init, i);
    } else {
      a, b := WithinPair(sub[..|sub| - 1], init, i, j);
    }
  }

  lemma {:induction false} FiniIndex(fini: set<Dso>, started: seq<Dso>, a: nat) returns (x: nat)
    requires a < |FiniOrder(fini, started)|
    ensures x < |started| && started[x] == FiniOrder(fini, started)[a]
  {
    var n := |started| - 1;
    if started[n] in fini {
      if a == 0 {
        x := n;
      } else {
        x := FiniIndex(fini, started[..n], a - 1);
      }
    } else {
      x := FiniIndex(fini, started[..n], a);
    }
  }

  lemma {:induction false} FiniPair(fini: set<Dso>, started: seq<Dso>, a: nat, b: nat) returns (x: nat, y: nat)
    requires a < b < |FiniOrder(fini, started)|
    ensures y < x < |started| && started[x] == FiniOrder(fini, started)[a] && started[y] == FiniOrder(fini, started)[b]
  {
    var n := |started| - 1;
    if started[n] in fini {
      if a == 0 {
        x := n;
        y := FiniIndex(fini, started[..n], b - 1);
      } else {
        x, y := FiniPair(fini, started[..n], a - 1, b - 1);
      }
    } else {
      x, y := FiniPair(fini, started[..n], a, b);
    }
  }

  lemma {:induction false} WithinPrefix(sub: seq<Dso>, list: seq<Dso>, n: nat)
    requires n <= |list| && Within(sub, list[..n])
    ensures Within(sub, list)
    decreases |list|
  {
    if n == |list| {
      assert list[..n] == list;
    } else {
      assert list[..|list| - 1][..n] == list[..n];
      WithinPrefix(sub, list[..|list| - 1], n);
    }
  }

  lemma {:induction false} FiniOnly(fini: set<Dso>, started: seq<Dso>, p: Dso)
    requires p in FiniOrder(fini, started)
    ensures p in fini && p in started
  {
    var n := |started| - 1;
    if p in FiniOrder(fini, started[..n]) {
      FiniOnly(fini, started[..n], p);
    }
  }

  /** Destructors run only for constructed DSOs that have them. */
  lemma DestroyedOnlyConstructed(fini: set<Dso>, run: seq<State>, k: nat, i: nat)
    requires IsRun(fini, run) && k < |run| && i < |run[k].destroyed|
    ensures var p := run[k].destroyed[i]; p in fini && p in run[k].started && p in run[k].constructed
  {
    var s := run[k];
    RunKeeps(fini, run, k);
    DestroyedWithin(fini, s);
    var a := WithinOne(s.destroyed, s.finiList, i);
    FiniOnly(fini, s.started, s.finiList[a]);
  }

  /** They run in reverse order of construction start. */
  lemma DestroyedInReverse(fini: set<Dso>, run: seq<State>, k: nat, i: nat, j: nat) returns (x: nat, y: nat)
    requires IsRun(fini, run) && k < |run| && i < j < |run[k].destroyed|
    ensures run[k].destroyed[i] in run[k].constructed && run[k].destroyed[j] in run[k].constructed
    ensures y < x < |run[k].started| && run[k].started[x] == run[k].destroyed[i] && run[k].started[y] == run[k].destroyed[j]
    ensures run[k].destroyed[i] != run[k].destroyed[j]
  {
    var s := run[k];
    RunKeeps(fini, run, k);
    DestroyedWithin(fini, s);
    var a, b := WithinPair(s.destroyed, s.finiList, i, j);
    x, y := FiniPair(fini, s.started, a, b);
  }

  lemma DestroyedWithin(fini: set<Dso>, s: State)
    requires Inv(fini, s)
    ensures Within(s.destroyed, s.finiList) && forall p :: p in s.destroyed ==> p in s.constructed
  {
    if s.shutting {
      var pending := Now(s, s.exiter.value).pending;
      WithinPrefix(s.destroyed, s.finiList, |s.finiList| - |pending|);
    }
  }

  lemma {:induction false} FiniComplete(fini: set<Dso>, started: seq<Dso>, p: Dso)
    requires p in started && p in fini
    ensures p in FiniOrder(fini, started)
  {
    var n := |started| - 1;
    if started[n] != p {
      FiniComplete(fini, started[..n], p);
    }
  }

  /** When the exiting thread has worked through its list, every constructed DSO that has destructors has
      had them run. */
  lemma DestroyedAll(fini: set<Dso>, run: seq<State>, k: nat, t: Tid, p: Dso)
    requires IsRun(fini, run) && k < |run| && InExit(run[k], t, Check) && Now(run[k], t).pending == []
    requires p in run[k].constructed && p in fini
    ensures p in run[k].destroyed
  {
    var s := run[k];
    RunKeeps(fini, run, k);
    ExiterIs(fini, s, t);
    FiniComplete(fini, s.started, p);
    assert s.finiList[..|s.finiList| - 0] == s.finiList;
  }
}
