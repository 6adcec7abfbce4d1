/** The pool of GCE works: one getter that waits for a free work and queues it, the runner thread
    that runs queued works and puts each one back, and the pool's own reference dropped by
    `gce_work_pool_uninit` once the runner has been stopped.

    `put_gce_work` drops its reference with the pool lock held, and `pool_release` takes that
    lock, so a put must never drop the last reference.  Stopping the runner first sees to that,
    at the price of a pool that is never freed when works are left queued. */
module WorkPool {
  import opened Options
  import opened Tally
  import opened Traces

  const WORKS: nat := 128      // GCE_WORK_NR

  datatype Core = Core(free: seq<nat>, used: seq<nat>, kref: int)

  // The three lock sections, and the drop of the pool's own reference.

  function TakeWork(c: Core): Core
    requires c.free != []
  {
    Core(c.free[1..], c.used + [c.free[0]], c.kref + 1)
  }

  function PutWork(c: Core, w: nat): Core { Core(c.free + [w], Remove(c.used, w), c.kref - 1) }

  function DropOwn(c: Core): Core { if c.kref == 1 then Core([], [], 0) else c.(kref := c.kref - 1) }

  function Fresh(): Core { Core(UpTo(WORKS), [], 1) }

  /** What has become of the pool: in service, freed, or its lock held for ever. */
  datatype Fate = Alive | Released | Stuck

  /** All the works are free or used, and the count is the used ones plus `own`, the pool's own. */
  predicate Counts(c: Core, own: nat) {
    && multiset(c.free) + multiset(c.used) == multiset(UpTo(WORKS)) && |c.free| + |c.used| == WORKS
    && c.kref == |c.used| + own
  }

  lemma TakeCounts(c: Core, own: nat)
    requires Counts(c, own) && c.free != []
    ensures Counts(TakeWork(c), own)
  {
    hide UpTo;
    assert c.free == [c.free[0]] + c.free[1..];
  }

  lemma PutCounts(c: Core, w: nat, own: nat)
    requires Counts(c, own) && w in c.used
    ensures Counts(PutWork(c, w), own) && PutWork(c, w).kref == c.kref - 1
  {
    hide Remove, UpTo;
    RemoveOne(c.used, w);
  }

  class Pool {
    var free: seq<nat>
    var used: seq<nat>
    var num: int
    var kref: int
    var cookie: bool       // the works are allocated
    var fate: Fate

    ghost function Contents(): Core
      reads this
    {
      Core(free, used, kref)
    }

    ghost predicate Valid(own: nat)
      reads this
    {
      fate == Alive && cookie && Counts(Contents(), own) && num == WORKS && kref > 0
    }

    /** `gce_work_pool_init` */
    constructor ()
      ensures Valid(1) && Contents() == Fresh()
    {
      free, used, num, kref, cookie, fate := [], [], 0, 1, true, Alive;
      new;
      for i := 0 to WORKS
        invariant free == UpTo(i) && used == [] && kref == 1 && cookie && fate == Alive
      {
        free := free + [i];
        assert free == UpTo(i + 1);
      }
      num := WORKS;
    }

    /** The section of `get_gce_work` that takes the first free work. */
    method Take(ghost own: nat) returns (w: nat)
      requires Valid(own) && free != []
      modifies this
      ensures Valid(own) && w == old(free)[0] && Contents() == TakeWork(old(Contents()))
      ensures free == old(free)[1..] && used == old(used) + [w] && kref == old(kref) + 1
    {
      hide Counts;
      TakeCounts(Contents(), own);
      w := free[0];
      free, used, kref := free[1..], used + [w], kref + 1;
    }

    /** `put_gce_work`: it would hang exactly when it drops the last reference. */
    method Put(w: nat, ghost own: nat)
      requires Valid(own) && w in used
      modifies this
      ensures Contents() == PutWork(old(Contents()), w)
      ensures free == old(free) + [w] && used == Remove(old(used), w) && kref == old(kref) - 1
      ensures if own == 0 && used == [] then fate == Stuck && cookie else Valid(own)
    {
      hide Remove;
      PutCounts(Contents(), w, own);
      used, free := Remove(used, w), free + [w];
      kref := kref - 1;
      if kref == 0 { fate := Stuck; }
    }

    /** `gce_work_pool_uninit`: the pool goes at once when no work is out. */
    method Uninit()
      requires Valid(1)
      modifies this
      ensures Contents() == DropOwn(old(Contents()))
      ensures if old(used) == [] then fate == Released && !cookie && num == 0 else Valid(0)
    {
      kref := kref - 1;
      if kref == 0 { Release(); }
    }

    /** `pool_release`, the lock being free. */
    method Release()
      requires num == |free| + |used|
      modifies this`free, this`used, this`num, this`cookie, this`fate
      ensures free == [] && used == [] && num == 0 && !cookie && fate == Released
    {
      while free != []
        invariant num == |free| + |used|
        decreases |free|
      {
        free, num := free[1..], num - 1;
      }
      while used != []
        invariant num == |used| && free == []
        decreases |used|
      {
        used, num := used[1..], num - 1;
      }
      cookie := false;
      fate := Released;
    }
  }

  // ---------------------------------------------------------------------- interleavings

  /** `ready`: the getter has seen a free work; `held`: the work it has taken and not queued;
      `queued` and `running`: the runner's queue and the work it runs. */
  datatype State = State(core: Core, ready: bool, held: seq<nat>, queued: seq<nat>, running: seq<nat>,
                         enabled: bool, uninit: bool, fate: Fate, emptyTake: bool)

  datatype Action = Check | Take | Enqueue | Run | Put | Disable | Uninit

  predicate Init(s: State) { s == State(Fresh(), false, [], [], [], true, false, Alive, false) }

  /** `imgsys_queue_disable` waits for the runner to leave its current work; uninit follows it,
      and the getter is done by then. */
  predicate Enabled(s: State, a: Action) {
    && s.fate == Alive
    && match a
       case Check => !s.ready && s.held == [] && !s.uninit
       case Take => s.ready
       case Enqueue => s.held != []
       case Run => s.enabled && s.running == [] && s.queued != []
       case Put => s.running != []
       case Disable => s.enabled && s.running == []
       case Uninit => !s.enabled && !s.uninit && !s.ready && s.held == []
  }

  function Apply(s: State, a: Action): State
    requires Enabled(s, a)
  {
    match a
    case Check => s.(ready := s.core.free != [])        // or the wait times out
    case Take =>
      if s.core.free == [] then s.(emptyTake := true, ready := false)
      else s.(core := TakeWork(s.core), ready := false, held := [s.core.free[0]])
    case Enqueue =>                                     // without a runner the work is refused, and lost
      s.(held := [], queued := if s.enabled then s.queued + s.held else s.queued)
    case Run => s.(running := [s.queued[0]], queued := s.queued[1..])
    case Put =>
      s.(core := PutWork(s.core, s.running[0]), running := [], fate := if s.core.kref == 1 then Stuck else Alive)
    case Disable => s.(enabled := false)
    case Uninit =>
      s.(core := DropOwn(s.core), uninit := true, fate := if s.core.kref == 1 then Released else Alive)
  }

  function Stepper(): (State, Action) -> Option<State> {
    (s: State, a: Action) => if Enabled(s, a) then Some(Apply(s, a)) else None
  }

  ghost predicate IsRun(ss: seq<State>, acts: seq<Action>) {
    Passes(Stepper(), ss, acts) && Init(ss[0])
  }

  function One(b: bool): nat { if b then 1 else 0 }

  /** The works on their way to being put are used ones. */
  function Out(s: State): multiset<nat> { multiset(s.held) + multiset(s.queued) + multiset(s.running) }

  predicate Inv(s: State) {
    && !s.emptyTake && (s.ready ==> s.core.free != []) && s.fate != Stuck
    && (s.fate == Released ==> s.uninit && s.core == Core([], [], 0))
    && (s.fate == Alive ==> Counts(s.core, One(!s.uninit)) && s.core.kref > 0 && Out(s) <= multiset(s.core.used))
    && (s.uninit ==> !s.enabled && s.held == [] && !s.ready) && (s.running != [] ==> s.enabled)
  }

  lemma PutKeeps(s: State)
    requires Inv(s) && Enabled(s, Put)
    ensures Inv(Apply(s, Put))
  {
    hide Remove, Counts, Out;
    var w := s.running[0];
    OneBack(s, w);
    PutCounts(s.core, w, 1);
    CountsKref(s.core, 1);
  }

  /** The runner's work is a used one; without it the rest still are. */
  lemma OneBack(s: State, w: nat)
    requires Out(s) <= multiset(s.core.used) && s.running != [] && w == s.running[0]
    ensures w in s.core.used
    ensures Out(s.(core := PutWork(s.core, w), running := [])) <= multiset(PutWork(s.core, w).used)
  {
    assert w in s.running && w in Out(s) && w in multiset(s.core.used);
    RemoveOne(s.core.used, w);
    hide Remove;
    BackArith(multiset(s.held), multiset(s.queued), multiset(s.running), multiset(s.core.used), w);
  }

  lemma BackArith(h: multiset<nat>, q: multiset<nat>, r: multiset<nat>, u: multiset<nat>, w: nat)
    requires h + q + r <= u && w in r
    ensures h + q + multiset{} <= u - multiset{w}
  {
  }

  lemma CountsKref(c: Core, own: nat)
    requires Counts(c, own)
    ensures c.kref == |c.used| + own && (c.used != [] ==> c.kref > own)
  {
  }

  lemma TakeKeeps(s: State)
    requires Inv(s) && Enabled(s, Take)
    ensures Inv(Apply(s, Take))
  {
    hide Counts;
    TakeCounts(s.core, One(!s.uninit));
  }

  lemma StepKeeps(s: State, a: Action)
    requires Inv(s) && Enabled(s, a)
    ensures Inv(Apply(s, a))
  {
    hide UpTo, Remove;
    match a
    case Take => TakeKeeps(s);
    case Put => PutKeeps(s);
    case Run => assert s.queued == [s.queued[0]] + s.queued[1..];
    case _ =>
  }

  lemma {:induction false} RunKeeps(ss: seq<State>, acts: seq<Action>, k: nat)
    requires IsRun(ss, acts) && k < |ss|
    ensures Inv(ss[k])
  {
    if k > 0 {
      RunKeeps(ss, acts, k - 1);
      StepAt(Stepper(), ss, acts, k - 1);
      StepKeeps(ss[k - 1], acts[k - 1]);
    }
  }

  /** The runner runs works in the order they were queued. */
  lemma FirstQueuedFirst(s: State)
    requires s.fate == Alive && s.enabled && s.running == [] && |s.held| == 1 && s.queued != []
    ensures Enabled(s, Enqueue) && Enabled(Apply(s, Enqueue), Run)
    ensures var t := Apply(Apply(s, Enqueue), Run);
      t.running == [s.queued[0]] && t.queued == s.queued[1..] + s.held && t.core == s.core
  {
  }

  // --------------------------------------------------------------------- main results

  /** In every interleaving no take meets an empty list, all 128 works are free or used until the
      release, and the count is the works in use plus the pool's own reference: it reaches zero
      only after uninit, with no work in use. */
  lemma PoolConserved(ss: seq<State>, acts: seq<Action>, k: nat)
    requires IsRun(ss, acts) && k < |ss|
    ensures !ss[k].emptyTake
    ensures ss[k].fate != Released ==> |ss[k].core.free| + |ss[k].core.used| == WORKS
    ensures ss[k].core.kref == |ss[k].core.used| + One(!ss[k].uninit)
    ensures ss[k].core.kref == 0 <==> ss[k].uninit && ss[k].core.used == []
  {
    RunKeeps(ss, acts, k);
  }

  /** No put ever drops the last reference, so none hangs: the runner is stopped before uninit. */
  lemma NeverStuck(ss: seq<State>, acts: seq<Action>, k: nat)
    requires IsRun(ss, acts) && k < |ss|
    ensures ss[k].fate != Stuck
    ensures k < |acts| && acts[k].Put? ==> ss[k].core.kref > 1
  {
    RunKeeps(ss, acts, k);
    if k < |acts| && acts[k].Put? {
      StepAt(Stepper(), ss, acts, k);
      assert ss[k].running[0] in Out(ss[k]);
      assert ss[k].core.used != [];
    }
  }

  /** Without a runner, which never comes back, a work out is out for good, and with it the pool. */
  lemma {:induction false} LeftBehind(ss: seq<State>, acts: seq<Action>, j: nat, k: nat)
    requires IsRun(ss, acts) && j <= k < |ss| && !ss[j].enabled
    ensures !ss[k].enabled
    ensures ss[j].core.used != [] ==> ss[k].core.used != [] && ss[k].fate == Alive && ss[k].core.kref > 0
    decreases k
  {
    RunKeeps(ss, acts, k);
    if j < k {
      LeftBehind(ss, acts, j, k - 1);
      RunKeeps(ss, acts, k - 1);
      StepAt(Stepper(), ss, acts, k - 1);
    }
  }

  /** With nothing out and nothing taken, nothing comes out. */
  lemma {:induction false} NothingOut(ss: seq<State>, acts: seq<Action>, j: nat, k: nat)
    requires IsRun(ss, acts) && j <= k < |ss| && ss[j].core.used == []
    requires forall i :: j <= i < k ==> !acts[i].Take?
    ensures ss[k].core.used == []
    decreases k
  {
    if j < k {
      NothingOut(ss, acts, j, k - 1);
      RunKeeps(ss, acts, k - 1);
      StepAt(Stepper(), ss, acts, k - 1);
      NeverStuck(ss, acts, k - 1);
    }
  }

  /** Uninit frees the pool if and only if no work was out when the runner was stopped and the
      getter has taken none since; otherwise the pool and its works are never freed. */
  lemma ReleasedIff(ss: seq<State>, acts: seq<Action>, d: nat, m: nat)
    requires IsRun(ss, acts) && d < m < |acts| && acts[d].Disable? && acts[m].Uninit?
    ensures ss[m + 1].fate == Released <==>
      ss[d].core.used == [] && forall i :: d <= i < m ==> !acts[i].Take?
    ensures ss[m + 1].fate != Released ==> forall k :: m < k < |ss| ==> ss[k].fate == Alive
  {
    StepAt(Stepper(), ss, acts, d);
    StepAt(Stepper(), ss, acts, m);
    RunKeeps(ss, acts, m);
    var j := d + 1;
    if ss[d].core.used == [] {
      if i :| d <= i < m && acts[i].Take? {
        j := i + 1;
        StepAt(Stepper(), ss, acts, i);
        LeftBehind(ss, acts, d + 1, j);
        PoolConserved(ss, acts, j);
      } else {
        NothingOut(ss, acts, d, m);
      }
    }
    forall k | m <= k < |ss| && ss[j].core.used != [] ensures ss[k].fate == Alive && ss[k].core.used != [] {
      LeftBehind(ss, acts, j, k);
    }
  }

  /** A run in which a work is queued when the runner is stopped: uninit leaves the pool alive, with
      the work out. */
  lemma PinnedRun() returns (ss: seq<State>)
    ensures IsRun(ss, [Check, Take, Enqueue, Disable, Uninit])
    ensures ss[5] == State(Core(UpTo(WORKS)[1..], [0], 1), false, [], [0], [], false, true, Alive, false)
  {
    var s0 := State(Fresh(), false, [], [], [], true, false, Alive, false);
    assert Fresh().free[0] == 0;
    var s1 := Apply(s0, Check);
    var s2 := Apply(s1, Take);
    var s3 := Apply(s2, Enqueue);
    var s4 := Apply(s3, Disable);
    var s5 := Apply(s4, Uninit);
    ss := [s0, s1, s2, s3, s4, s5];
  }
}
