/** The runner queue: adders append works and count them under a spinlock, one worker thread
    takes and runs them, and a disable stops the worker without taking the lock. */
module RunnerQueue {
  import opened Options
  import opened Traces

  type Work = nat

  // ------------------------------------------------------------ one operation at a time

  datatype Core = Core(queue: seq<Work>, nr: int, peak: int, disabled: bool)

  /** The locked section of `imgsys_queue_add`. */
  function Added(c: Core, w: Work): Core {
    Core(c.queue + [w], c.nr + 1, if c.nr + 1 > c.peak then c.nr + 1 else c.peak, c.disabled)
  }

  /** The locked section of `worker_func`, when there is a work to take. */
  function Taken(c: Core): Core
    requires c.queue != []
  {
    c.(queue := c.queue[1..], nr := c.nr - 1)
  }

  class Queue {
    var queue: seq<Work>
    var nr: int
    var peak: int
    var disabled: bool

    ghost function Contents(): Core
      reads this
    {
      Core(queue, nr, peak, disabled)
    }

    ghost predicate Valid()
      reads this
    {
      nr == |queue| && peak >= nr
    }

    /** The locked section of `imgsys_queue_add`. */
    method Add(w: Work)
      requires Valid()
      modifies this
      ensures Valid() && Contents() == Added(old(Contents()), w)
    {
      queue := queue + [w];
      nr := nr + 1;
      var size := nr;
      if size > peak { peak := size; }
    }

    /** The locked section of `worker_func`. */
    method TakeNext() returns (got: bool, w: Work)
      requires Valid()
      modifies this
      ensures Valid() && (got <==> !disabled && old(queue) != [])
      ensures got ==> w == old(queue)[0] && Contents() == Taken(old(Contents()))
      ensures !got ==> Contents() == old(Contents())
    {
      if disabled || nr == 0 { return false, 0; }
      got, w := true, queue[0];
      queue := queue[1..];
      nr := nr - 1;
    }
  }

  // ---------------------------------------------------------------------- interleavings

  datatype Adder = AIdle | AWant(w: Work) | AIn(w: Work) | APushed | ACounted(size: int) | APeaked

  datatype Worker = WSleep | WWant | WIn | WChecked | WTook(w: Work) | WCounted(w: Work) | WRun(w: Work) | WOut

  datatype Holder = Free | ByAdder(i: nat) | ByWorker

  /** `longest` is the greatest length the queue has had. */
  datatype State = State(lock: Holder, queue: seq<Work>, nr: int, peak: int, disabled: bool,
                         adders: seq<Adder>, worker: Worker,
                         added: seq<Work>, ran: seq<Work>, longest: nat)

  datatype Action = Start(i: nat, w: Work) | AStep(i: nat) | WStep | Disable

  predicate Enabled(s: State, a: Action) {
    match a
    case Start(i, _) => i < |s.adders| && s.adders[i] == AIdle
    case AStep(i) => i < |s.adders| && s.adders[i] != AIdle && (s.adders[i].AWant? ==> s.lock == Free)
    case WStep => (s.worker == WWant ==> s.lock == Free) && (s.worker == WChecked ==> s.queue != [])
    case Disable => true
  }

  function AdderStep(s: State, i: nat): State
    requires i < |s.adders|
  {
    match s.adders[i]
    case AIdle => s
    case AWant(w) => s.(lock := ByAdder(i), adders := s.adders[i := AIn(w)])
    case AIn(w) =>
      s.(queue := s.queue + [w], added := s.added + [w], adders := s.adders[i := APushed],
         longest := if |s.queue| + 1 > s.longest then |s.queue| + 1 else s.longest)
    case APushed => s.(nr := s.nr + 1, adders := s.adders[i := ACounted(s.nr + 1)])
    case ACounted(size) => s.(peak := if size > s.peak then size else s.peak, adders := s.adders[i := APeaked])
    case APeaked => s.(lock := Free, adders := s.adders[i := AIdle])
  }

  /** The wait may also end on a signal. */
  function WorkerStep(s: State): State
    requires s.worker == WChecked ==> s.queue != []
  {
    match s.worker
    case WSleep => s.(worker := WWant)
    case WWant => s.(lock := ByWorker, worker := WIn)
    case WIn => s.(worker := if s.disabled || s.nr == 0 then WOut else WChecked)
    case WOut => s.(lock := Free, worker := WSleep)
    case WChecked => s.(queue := s.queue[1..], worker := WTook(s.queue[0]))
    case WTook(w) => s.(nr := s.nr - 1, worker := WCounted(w))
    case WCounted(w) => s.(lock := Free, worker := WRun(w))
    case WRun(w) => s.(ran := s.ran + [w], worker := WSleep)
  }

  function Apply(s: State, a: Action): State
    requires Enabled(s, a)
  {
    match a
    case Start(i, w) => s.(adders := s.adders[i := AWant(w)])
    case AStep(i) => AdderStep(s, i)
    case WStep => WorkerStep(s)
    case Disable => s.(disabled := true)
  }

  predicate Init(s: State) {
    && s.lock == Free && s.queue == s.added == s.ran == [] && s.nr == s.peak == s.longest == 0
    && !s.disabled && s.worker == WSleep && forall i :: 0 <= i < |s.adders| ==> s.adders[i] == AIdle
  }

  predicate Run(ss: seq<State>, acts: seq<Action>) {
    && |ss| == |acts| + 1 && Init(ss[0])
    && forall k :: 0 <= k < |acts| ==> Enabled(ss[k], acts[k]) && ss[k + 1] == Apply(ss[k], acts[k])
  }

  // --------------------------------------------------------------------- whole operations

  function Stepper(): (State, Action) -> Option<State> {
    (s: State, a: Action) => if Enabled(s, a) then Some(Apply(s, a)) else None
  }

  function CoreOf(s: State): Core { Core(s.queue, s.nr, s.peak, s.disabled) }

  /** An add, undisturbed, is the one of `Queue`. */
  lemma AddWhole(s: State, i: nat, w: Work) returns (acts: seq<Action>, t: State)
    requires i < |s.adders| && s.adders[i] == AIdle && s.lock == Free
    ensures Leads(Stepper(), s, acts, t) && CoreOf(t) == Added(CoreOf(s), w)
    ensures t.lock == Free && t.adders == s.adders && t.worker == s.worker
  {
    var s1 := Apply(s, Start(i, w));
    var s2 := Apply(s1, AStep(i));
    var s3 := Apply(s2, AStep(i));
    var s4 := Apply(s3, AStep(i));
    var s5 := Apply(s4, AStep(i));
    t := Apply(s5, AStep(i));
    assert t.adders == s.adders;
    hide Leads;
    OneStep(Stepper(), s, Start(i, w), s1);
    LeadsStep(Stepper(), s, [Start(i, w)], s1, AStep(i), s2);
    LeadsStep(Stepper(), s, [Start(i, w)] + [AStep(i)], s2, AStep(i), s3);
    LeadsStep(Stepper(), s, [Start(i, w)] + [AStep(i)] + [AStep(i)], s3, AStep(i), s4);
    LeadsStep(Stepper(), s, [Start(i, w)] + [AStep(i)] + [AStep(i)] + [AStep(i)], s4, AStep(i), s5);
    acts := [Start(i, w)] + [AStep(i)] + [AStep(i)] + [AStep(i)] + [AStep(i)] + [AStep(i)];
    LeadsStep(Stepper(), s, [Start(i, w)] + [AStep(i)] + [AStep(i)] + [AStep(i)] + [AStep(i)], s5, AStep(i), t);
  }

  /** A take, undisturbed, is the one of `Queue`: with a work to take and not disabled it takes
      the first, and otherwise nothing. */
  lemma TakeWhole(s: State) returns (acts: seq<Action>, t: State)
    requires s.worker == WWant && s.lock == Free && s.nr == |s.queue|
    ensures Leads(Stepper(), s, acts, t) && t.lock == Free
    ensures if !s.disabled && s.queue != []
      then t.worker == WRun(s.queue[0]) && CoreOf(t) == Taken(CoreOf(s))
      else t.worker == WSleep && CoreOf(t) == CoreOf(s)
  {
    var s1 := Apply(s, WStep);
    var s2 := Apply(s1, WStep);
    var s3 := Apply(s2, WStep);
    hide Leads;
    OneStep(Stepper(), s, WStep, s1);
    LeadsStep(Stepper(), s, [WStep], s1, WStep, s2);
    LeadsStep(Stepper(), s, [WStep] + [WStep], s2, WStep, s3);
    if s.disabled || s.queue == [] {
      acts, t := [WStep] + [WStep] + [WStep], s3;
    } else {
      var s4 := Apply(s3, WStep);
      t := Apply(s4, WStep);
      LeadsStep(Stepper(), s, [WStep] + [WStep] + [WStep], s3, WStep, s4);
      LeadsStep(Stepper(), s, [WStep] + [WStep] + [WStep] + [WStep], s4, WStep, t);
      acts := [WStep] + [WStep] + [WStep] + [WStep] + [WStep];
    }
  }

  // -------------------------------------------------------------------- the invariant

  function InHand(w: Worker): seq<Work> { if w.WTook? || w.WCounted? || w.WRun? then [w.w] else [] }

  predicate AInside(a: Adder) { !a.AIdle? && !a.AWant? }

  predicate WInside(w: Worker) { w == WIn || w == WChecked || w.WTook? || w.WCounted? || w == WOut }

  predicate LockOk(s: State) {
    && (forall i :: 0 <= i < |s.adders| ==> (AInside(s.adders[i]) <==> s.lock == ByAdder(i)))
    && (s.lock.ByAdder? ==> s.lock.i < |s.adders|)
    && (WInside(s.worker) <==> s.lock == ByWorker)
  }

  predicate CountOk(s: State) {
    && s.ran + InHand(s.worker) + s.queue == s.added
    && s.nr == (if s.lock.ByAdder? && s.lock.i < |s.adders| && s.adders[s.lock.i] == APushed then |s.queue| - 1
                else if s.worker.WTook? then |s.queue| + 1
                else |s.queue|)
    && (s.worker == WChecked ==> s.nr > 0)
  }

  predicate PeakOk(s: State) {
    && (s.lock.ByAdder? && s.lock.i < |s.adders| && (s.adders[s.lock.i] == APushed || s.adders[s.lock.i].ACounted?)
        ==> s.longest == if |s.queue| > s.peak then |s.queue| else s.peak)
    && (s.lock.ByAdder? && s.lock.i < |s.adders| && s.adders[s.lock.i].ACounted?
        ==> s.adders[s.lock.i].size == |s.queue|)
    && (!(s.lock.ByAdder? && s.lock.i < |s.adders| && (s.adders[s.lock.i] == APushed || s.adders[s.lock.i].ACounted?))
        ==> s.longest == s.peak)
    && |s.queue| <= s.longest
  }

  predicate Inv(s: State) { LockOk(s) && CountOk(s) && PeakOk(s) }

  lemma AdderKeeps(s: State, i: nat)
    requires Inv(s) && Enabled(s, AStep(i))
    ensures Inv(Apply(s, AStep(i)))
  {
    var t := Apply(s, AStep(i));
    assert forall j :: 0 <= j < |s.adders| && j != i ==> t.adders[j] == s.adders[j];
    if s.adders[i].AIn? {
      assert t.ran + InHand(t.worker) + t.queue == (s.ran + InHand(s.worker) + s.queue) + [s.adders[i].w];
    }
  }

  lemma StartKeeps(s: State, i: nat, w: Work)
    requires Inv(s) && Enabled(s, Start(i, w))
    ensures Inv(Apply(s, Start(i, w)))
  {
    var t := Apply(s, Start(i, w));
    assert forall j :: 0 <= j < |s.adders| && j != i ==> t.adders[j] == s.adders[j];
  }

  lemma WorkerKeeps(s: State)
    requires Inv(s) && Enabled(s, WStep)
    ensures Inv(Apply(s, WStep))
  {
    if s.worker == WChecked {
      assert s.ran + [] + s.queue == s.ran + [s.queue[0]] + s.queue[1..];
    } else if s.worker.WRun? {
      assert s.ran + [s.worker.w] + s.queue == (s.ran + [s.worker.w]) + [] + s.queue;
    }
  }

  lemma {:induction false} RunKeeps(ss: seq<State>, acts: seq<Action>, k: nat)
    requires Run(ss, acts) && k < |ss|
    ensures Inv(ss[k])
  {
    if k > 0 {
      RunKeeps(ss, acts, k - 1);
      match acts[k - 1]
      case Start(i, w) => StartKeeps(ss[k - 1], i, w);
      case AStep(i) => AdderKeeps(ss[k - 1], i);
      case WStep => WorkerKeeps(ss[k - 1]);
      case Disable =>
    }
  }

  // --------------------------------------------------------------------- main results

  /** In every interleaving: the works run, the one in hand, and the works queued are the works
      added, in order; with the lock free the count is the queue's length and the peak the
      greatest length it ever had; and the worker never takes from an empty queue. */
  lemma QueueConserved(ss: seq<State>, acts: seq<Action>, k: nat)
    requires Run(ss, acts) && k < |ss|
    ensures var s := ss[k];
      && s.ran + InHand(s.worker) + s.queue == s.added
      && (s.lock == Free ==> s.nr == |s.queue| && s.peak == s.longest)
      && (s.worker == WChecked ==> s.queue != [])
  {
    RunKeeps(ss, acts, k);
  }

  lemma LongestStep(s: State, a: Action)
    requires Enabled(s, a) && |s.queue| <= s.longest
    ensures var t := Apply(s, a);
      s.longest <= t.longest && |t.queue| <= t.longest && (t.longest == s.longest || |t.queue| == t.longest)
  {
  }

  lemma {:induction false} LongestIsGreatest(ss: seq<State>, acts: seq<Action>, k: nat) returns (j: nat)
    requires Run(ss, acts) && k < |ss|
    ensures forall i :: 0 <= i <= k ==> |ss[i].queue| <= ss[k].longest
    ensures j <= k && |ss[j].queue| == ss[k].longest
    decreases k
  {
    if k == 0 {
      j := 0;
    } else {
      StepOf(ss, acts, k - 1);
      hide Enabled, Apply, Run;
      j := LongestIsGreatest(ss, acts, k - 1);
      LongestStep(ss[k - 1], acts[k - 1]);
      if ss[k].longest != ss[k - 1].longest { j := k; }
    }
  }

  lemma StepOf(ss: seq<State>, acts: seq<Action>, k: nat)
    requires Run(ss, acts) && k < |acts|
    ensures Enabled(ss[k], acts[k]) && ss[k + 1] == Apply(ss[k], acts[k])
  {
  }

  /** A work taken from the queue, or about to be, and not run yet. */
  function Committed(s: State): nat { |s.ran| + |InHand(s.worker)| + (if s.worker == WChecked then 1 else 0) }

  /** Once disabled, at most the work already taken still runs. */
  lemma {:induction false} DisableStops(ss: seq<State>, acts: seq<Action>, j: nat, k: nat)
    requires Run(ss, acts) && j <= k < |ss| && ss[j].disabled
    ensures ss[k].disabled && Committed(ss[k]) <= Committed(ss[j]) <= |ss[j].ran| + 1
    ensures |ss[k].ran| <= |ss[j].ran| + 1
    decreases k
  {
    if j < k {
      DisableStops(ss, acts, j, k - 1);
      StepOf(ss, acts, k - 1);
    }
  }
}
