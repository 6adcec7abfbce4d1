/** Who keeps a CCD endpoint, and the device behind it, alive: any number of `ccd_worker_read`
    and `ccd_worker_write` calls against one destruction. */
module CcdLifetime {
  /** A call: wanting `endpoints_lock`; holding it before the lookup, after a miss, with a device
      reference, with the endpoint not ready, with both references; then, unlocked, with both
      references, and with the device's only. */
  datatype Call = CIdle | CWant | CLocked | CMiss | CDev | CNotReady | CGot | CHold | CPutDev

  /** `mtk_rpmsg_destroy_rpmsgdev`: the device found, unregistered, the queue drained, the lock
      taken, the idr entry removed, the lock released, the endpoint's first reference dropped,
      the device put. */
  datatype Destroy = DIdle | DFound | DUnregistered | DDrained | DLocked | DRemoved | DUnlocked | DDropped | DDone

  datatype Holder = Free | ByCall(i: nat) | ByDestroy

  datatype State = State(
    lock: Holder,
    inIdr: bool,
    ready: bool,         // rpdev.ept is set
    refs: int,           // ept->refcount
    released: nat,       // runs of __ept_release
    devRefs: int,        // references to the device
    devReleased: nat,    // times the device was freed
    calls: seq<Call>,
    destroy: Destroy)

  datatype Action = Create | Step(i: nat) | DStep

  predicate Enabled(s: State, a: Action) {
    match a
    case Create => !s.ready && s.inIdr
    case Step(i) => i < |s.calls| && (s.calls[i] == CWant ==> s.lock == Free)
    case DStep => s.ready && s.destroy != DDone && (s.destroy == DDrained ==> s.lock == Free)
  }

  /** `put_device` */
  function PutDev(s: State): State {
    s.(devRefs := s.devRefs - 1, devReleased := if s.devRefs == 1 then s.devReleased + 1 else s.devReleased)
  }

  /** `kref_put(&ept->refcount, __ept_release)`: the release frees the endpoint and puts the
      device. */
  function PutEpt(s: State): State {
    var t := s.(refs := s.refs - 1);
    if t.refs == 0 then PutDev(t.(released := t.released + 1)) else t
  }

  function CallStep(s: State, i: nat): State
    requires i < |s.calls|
  {
    match s.calls[i]
    case CIdle => s.(calls := s.calls[i := CWant])
    case CWant => s.(lock := ByCall(i), calls := s.calls[i := CLocked])
    case CLocked =>
      if s.inIdr then s.(devRefs := s.devRefs + 1, calls := s.calls[i := CDev])
      else s.(calls := s.calls[i := CMiss])
    case CMiss => s.(lock := Free, calls := s.calls[i := CIdle])
    case CDev =>
      if s.ready then s.(refs := s.refs + 1, calls := s.calls[i := CGot])
      else s.(calls := s.calls[i := CNotReady])
    case CNotReady => s.(lock := Free, calls := s.calls[i := CPutDev])
    case CGot => s.(lock := Free, calls := s.calls[i := CHold])
    case CHold => PutEpt(s).(calls := s.calls[i := CPutDev])
    case CPutDev => PutDev(s).(calls := s.calls[i := CIdle])
  }

  function DestroyStep(s: State): State {
    match s.destroy
    case DIdle => s.(devRefs := s.devRefs + 1, destroy := DFound)
    case DFound => PutDev(s).(destroy := DUnregistered)
    case DUnregistered => s.(destroy := DDrained)
    case DDrained => s.(lock := ByDestroy, destroy := DLocked)
    case DLocked => s.(inIdr := false, destroy := DRemoved)
    case DRemoved => s.(lock := Free, destroy := DUnlocked)
    case DUnlocked => PutEpt(s).(destroy := DDropped)
    case DDropped => PutDev(s).(destroy := DDone)
    case DDone => s
  }

  function Apply(s: State, a: Action): State
    requires Enabled(s, a)
  {
    match a
    case Create => s.(ready := true, refs := 1, devRefs := s.devRefs + 1)
    case Step(i) => CallStep(s, i)
    case DStep => DestroyStep(s)
  }

  /** A device in the table, its endpoint not created yet. */
  predicate Init(s: State) {
    && s.lock == Free && s.inIdr && !s.ready && s.refs == 0 && s.released == 0
    && s.devRefs == 1 && s.devReleased == 0 && s.destroy == DIdle
    && forall i :: 0 <= i < |s.calls| ==> s.calls[i] == CIdle
  }

  predicate Run(ss: seq<State>, acts: seq<Action>) {
    && |ss| == |acts| + 1 && Init(ss[0])
    && forall k :: 0 <= k < |acts| ==> Enabled(ss[k], acts[k]) && ss[k + 1] == Apply(ss[k], acts[k])
  }

  // -------------------------------------------------------------------- the invariant

  predicate Dropped(d: Destroy) { d == DDropped || d == DDone }

  /** The calls that hold a reference to the endpoint, and to the device. */
  function EptHolders(calls: seq<Call>): set<nat> {
    set i | 0 <= i < |calls| && (calls[i] == CGot || calls[i] == CHold)
  }

  function DevHolders(calls: seq<Call>): set<nat> {
    set i | 0 <= i < |calls| &&
      (calls[i] == CDev || calls[i] == CNotReady || calls[i] == CGot || calls[i] == CHold || calls[i] == CPutDev)
  }

  function One(b: bool): nat { if b then 1 else 0 }

  predicate Inside(c: Call) { c == CLocked || c == CMiss || c == CDev || c == CNotReady || c == CGot }

  predicate LockOk(s: State) {
    && (forall i :: 0 <= i < |s.calls| ==> (Inside(s.calls[i]) <==> s.lock == ByCall(i)))
    && (s.destroy == DLocked || s.destroy == DRemoved <==> s.lock == ByDestroy)
    && (forall i :: 0 <= i < |s.calls| && s.calls[i] == CDev ==> s.inIdr)
    && (s.inIdr <==> s.destroy == DIdle || s.destroy == DFound || s.destroy == DUnregistered
                     || s.destroy == DDrained || s.destroy == DLocked)
    && (!s.ready ==> s.destroy == DIdle && forall i :: 0 <= i < |s.calls| ==> s.calls[i] != CGot && s.calls[i] != CHold)
  }

  /** The counts are the holders: the destroyer's first reference until it drops it, and one for
      each call; for the device, its registration, the finder, the endpoint, and each call. */
  predicate RefsOk(s: State) {
    && s.refs == One(s.ready && !Dropped(s.destroy)) + |EptHolders(s.calls)|
    && s.released == One(s.ready && s.refs == 0)
    && s.devRefs == One(s.destroy == DIdle || s.destroy == DFound) + One(s.destroy != DIdle && s.destroy != DDone)
                    + One(s.ready && s.refs > 0) + |DevHolders(s.calls)|
    && s.devReleased == One(s.devRefs == 0)
  }

  predicate Inv(s: State) { LockOk(s) && RefsOk(s) }

  lemma CreateKeeps(s: State)
    requires Inv(s) && Enabled(s, Create)
    ensures Inv(Apply(s, Create))
  {
  }

  lemma CallLock(s: State, i: nat)
    requires Inv(s) && Enabled(s, Step(i))
    ensures LockOk(Apply(s, Step(i)))
  {
    hide RefsOk;
    var t := Apply(s, Step(i));
    assert forall j :: 0 <= j < |s.calls| && j != i ==> t.calls[j] == s.calls[j];
  }

  lemma CallRefs(s: State, i: nat)
    requires Inv(s) && Enabled(s, Step(i))
    ensures RefsOk(Apply(s, Step(i)))
  {
    hide EptHolders, DevHolders;
    var t := Apply(s, Step(i));
    HoldersStep(s.calls, i, t.calls[i]);
    HolderCounts(s.calls, i);
    if s.calls[i] == CDev {
      assert s.lock == ByCall(i);
    }
  }

  lemma HoldersStep(calls: seq<Call>, i: nat, c: Call)
    requires i < |calls|
    ensures |EptHolders(calls[i := c])| == |EptHolders(calls)|
      + One(c == CGot || c == CHold) - One(calls[i] == CGot || calls[i] == CHold)
    ensures |DevHolders(calls[i := c])| == |DevHolders(calls)|
      + One(c == CDev || c == CNotReady || c == CGot || c == CHold || c == CPutDev)
      - One(calls[i] == CDev || calls[i] == CNotReady || calls[i] == CGot || calls[i] == CHold || calls[i] == CPutDev)
  {
    assert EptHolders(calls[i := c]) - {i} == EptHolders(calls) - {i};
    assert DevHolders(calls[i := c]) - {i} == DevHolders(calls) - {i};
    SetStep(EptHolders(calls), EptHolders(calls[i := c]), i);
    SetStep(DevHolders(calls), DevHolders(calls[i := c]), i);
  }

  lemma HolderCounts(calls: seq<Call>, i: nat)
    requires i < |calls|
    ensures calls[i] == CHold ==> |EptHolders(calls)| > 0
    ensures calls[i] == CHold || calls[i] == CPutDev ==> |DevHolders(calls)| > 0
  {
    if calls[i] == CHold { assert i in EptHolders(calls); }
    if calls[i] == CHold || calls[i] == CPutDev { assert i in DevHolders(calls); }
  }

  lemma SetStep(a: set<nat>, b: set<nat>, i: nat)
    requires a - {i} == b - {i}
    ensures |b| == |a| + One(i in b) - One(i in a)
  {
    assert |a - {i}| == |a| - One(i in a) && |b - {i}| == |b| - One(i in b);
  }

  lemma DestroyKeeps(s: State)
    requires Inv(s) && Enabled(s, DStep)
    ensures Inv(Apply(s, DStep))
  {
  }

  lemma {:induction false} RunKeeps(ss: seq<State>, acts: seq<Action>, k: nat)
    requires Run(ss, acts) && k < |ss|
    ensures Inv(ss[k])
  {
    if k == 0 {
      assert EptHolders(ss[0].calls) == {} && DevHolders(ss[0].calls) == {};
    } else {
      RunKeeps(ss, acts, k - 1);
      match acts[k - 1]
      case Create => CreateKeeps(ss[k - 1]);
      case Step(i) => CallLock(ss[k - 1], i); CallRefs(ss[k - 1], i);
      case DStep => DestroyKeeps(ss[k - 1]);
    }
  }

  /** A call, undisturbed, finds the endpoint, holds a reference to it and one to the device while it
      works, and gives both back. */
  lemma CallWhole(s: State, i: nat)
    requires Inv(s) && i < |s.calls| && s.calls[i] == CIdle && s.lock == Free && s.inIdr && s.ready
    ensures var t := CallStep(CallStep(CallStep(CallStep(CallStep(s, i), i), i), i), i);
      && t == s.(refs := s.refs + 1, devRefs := s.devRefs + 1, calls := s.calls[i := CHold])
      && CallStep(CallStep(t, i), i) == s
  {
    assert s.refs >= 1 && s.devRefs >= 1;
    assert s.calls[i := CIdle] == s.calls;
  }

  // --------------------------------------------------------------------- main results

  /** In every interleaving the endpoint's count is its first reference, until the destroyer
      drops it, plus the calls that hold one; and an endpoint the idr still leads to is alive. */
  lemma RefcountIsHolders(ss: seq<State>, acts: seq<Action>, k: nat)
    requires Run(ss, acts) && k < |ss|
    ensures ss[k].refs == One(ss[k].ready && !Dropped(ss[k].destroy)) + |EptHolders(ss[k].calls)|
    ensures ss[k].inIdr && ss[k].ready ==> ss[k].refs >= 1 && ss[k].released == 0 && ss[k].devRefs >= 1
  {
    RunKeeps(ss, acts, k);
  }

  /** The endpoint is released at most once; when it has been, it is out of the idr, the first
      reference is dropped, and no call holds it; and it has been once all of that is so. */
  lemma ReleasedOnceAndLast(ss: seq<State>, acts: seq<Action>, k: nat)
    requires Run(ss, acts) && k < |ss|
    ensures ss[k].released <= 1 && ss[k].devReleased <= 1
    ensures ss[k].released == 1 <==> Dropped(ss[k].destroy) && EptHolders(ss[k].calls) == {}
    ensures ss[k].released == 1 ==> !ss[k].inIdr
    ensures ss[k].devReleased == 1 <==> ss[k].destroy == DDone && DevHolders(ss[k].calls) == {}
    ensures ss[k].devReleased == 1 ==> ss[k].released == 1
  {
    RunKeeps(ss, acts, k);
    EptInDev(ss[k].calls);
  }

  lemma EptInDev(calls: seq<Call>)
    ensures EptHolders(calls) <= DevHolders(calls)
  {
  }

  /** No call ever takes a reference to something that is already gone, or gives one back. */
  lemma NeverFromZero(ss: seq<State>, acts: seq<Action>, k: nat, i: nat)
    requires Run(ss, acts) && k < |ss| && i < |ss[k].calls|
    ensures ss[k].calls[i] == CLocked && ss[k].inIdr ==> ss[k].devRefs >= 1
    ensures ss[k].calls[i] == CDev && ss[k].ready ==> ss[k].refs >= 1
    ensures ss[k].calls[i] == CGot || ss[k].calls[i] == CHold ==> ss[k].refs >= 1 && ss[k].released == 0
    ensures ss[k].calls[i] == CPutDev ==> ss[k].devRefs >= 1
  {
    RunKeeps(ss, acts, k);
    if ss[k].calls[i] == CGot || ss[k].calls[i] == CHold { assert i in EptHolders(ss[k].calls); }
    if ss[k].calls[i] == CPutDev { assert i in DevHolders(ss[k].calls); }
  }
}
