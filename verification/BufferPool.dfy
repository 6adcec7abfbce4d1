/** The pool of request working buffers: two lists under two locks, so that a buffer on its way
    from one to the other is for a moment in neither. */
module BufferPool {
  import opened Options
  import opened Tally

  const BUFS: nat := 24      // DIP_SUB_FRM_DATA_NUM

  datatype Lists = Lists(free: seq<nat>, freeCnt: int, used: seq<nat>, usedCnt: int)

  // The four lock sections.

  function TakeFree(l: Lists): Lists
    requires l.free != []
  {
    l.(free := l.free[1..], freeCnt := l.freeCnt - 1)
  }

  function PutUsed(l: Lists, b: nat): Lists { l.(used := l.used + [b], usedCnt := l.usedCnt + 1) }

  function DropUsed(l: Lists, b: nat): Lists { l.(used := Remove(l.used, b), usedCnt := l.usedCnt - 1) }

  function PutFree(l: Lists, b: nat): Lists { l.(free := l.free + [b], freeCnt := l.freeCnt + 1) }

  function Fresh(): Lists { Lists(UpTo(BUFS), BUFS, [], 0) }

  class Pool {
    var free: seq<nat>
    var freeCnt: int
    var used: seq<nat>
    var usedCnt: int

    ghost function Contents(): Lists
      reads this
    {
      Lists(free, freeCnt, used, usedCnt)
    }

    /** `mtk_imgsys_hw_working_buf_pool_reinit` */
    method Reinit()
      modifies this
      ensures Contents() == Fresh()
    {
      used, usedCnt := [], 0;
      free, freeCnt := [], 0;
      for i := 0 to BUFS
        invariant Contents() == Lists(UpTo(i), i, [], 0)
      {
        free := free + [i];
        freeCnt := freeCnt + 1;
        assert free == UpTo(i + 1);
      }
    }

    /** `mtk_imgsys_hw_working_buf_alloc` */
    method Alloc() returns (b: Option<nat>)
      modifies this
      ensures old(free) == [] ==> b.None? && Contents() == old(Contents())
      ensures old(free) != [] ==> b == Some(old(free)[0]) && Contents() == PutUsed(TakeFree(old(Contents())), b.value)
      ensures b.Some? ==> free == old(free)[1..] && used == old(used) + [b.value]
      ensures b.Some? ==> freeCnt == old(freeCnt) - 1 && usedCnt == old(usedCnt) + 1
    {
      if free == [] { return None; }
      var first := free[0];
      free, freeCnt := free[1..], freeCnt - 1;
      used, usedCnt := used + [first], usedCnt + 1;
      return Some(first);
    }

    /** `mtk_imgsys_hw_working_buf_free` */
    method Free(b: nat)
      modifies this
      ensures Contents() == PutFree(DropUsed(old(Contents()), b), b)
      ensures free == old(free) + [b] && used == Remove(old(used), b)
      ensures freeCnt == old(freeCnt) + 1 && usedCnt == old(usedCnt) - 1
    {
      used, usedCnt := Remove(used, b), usedCnt - 1;
      free, freeCnt := free + [b], freeCnt + 1;
    }
  }

  // ---------------------------------------------------------------------- interleavings

  /** A request: without a buffer, between the sections of an alloc, with a buffer, and between
      the sections of a free. */
  datatype User = Nothing | Taking(b: nat) | Holding(b: nat) | Giving(b: nat)

  datatype State = State(lists: Lists, users: seq<User>)

  predicate Init(s: State) {
    s.lists == Fresh() && forall i :: 0 <= i < |s.users| ==> s.users[i] == Nothing
  }

  /** The next lock section of request `i`. */
  function Step(s: State, i: nat): State
    requires i < |s.users|
  {
    match s.users[i]
    case Nothing =>
      if s.lists.free == [] then s
      else State(TakeFree(s.lists), s.users[i := Taking(s.lists.free[0])])
    case Taking(b) => State(PutUsed(s.lists, b), s.users[i := Holding(b)])
    case Holding(b) => State(DropUsed(s.lists, b), s.users[i := Giving(b)])
    case Giving(b) => State(PutFree(s.lists, b), s.users[i := Nothing])
  }

  /** Both sections of an alloc, undisturbed, are the `Alloc` of the class. */
  lemma AllocWhole(s: State, i: nat)
    requires i < |s.users| && s.users[i] == Nothing && s.lists.free != []
    ensures var t := Step(Step(s, i), i); var b := s.lists.free[0];
      t == State(PutUsed(TakeFree(s.lists), b), s.users[i := Holding(b)])
  {
    var b := s.lists.free[0];
    assert s.users[i := Taking(b)][i := Holding(b)] == s.users[i := Holding(b)];
  }

  /** Both sections of a free, undisturbed, are the `Free` of the class. */
  lemma FreeWhole(s: State, i: nat)
    requires i < |s.users| && s.users[i].Holding?
    ensures var t := Step(Step(s, i), i); var b := s.users[i].b;
      t == State(PutFree(DropUsed(s.lists, b), b), s.users[i := Nothing])
  {
    var b := s.users[i].b;
    assert s.users[i := Giving(b)][i := Nothing] == s.users[i := Nothing];
  }

  predicate Run(ss: seq<State>, who: seq<nat>) {
    && |ss| == |who| + 1 && Init(ss[0])
    && forall k :: 0 <= k < |who| ==> who[k] < |ss[k].users| && ss[k + 1] == Step(ss[k], who[k])
  }

  function InTransit(): User -> multiset<nat> {
    (u: User) => if u.Taking? || u.Giving? then multiset{u.b} else multiset{}
  }

  function InUse(): User -> multiset<nat> { (u: User) => if u.Holding? then multiset{u.b} else multiset{} }

  function Transit(s: State): multiset<nat> { Gather(InTransit(), s.users) }

  predicate Inv(s: State) {
    && multiset(s.lists.free) + multiset(s.lists.used) + Transit(s) == multiset(UpTo(BUFS))
    && multiset(s.lists.used) == Gather(InUse(), s.users)
    && s.lists.freeCnt == |s.lists.free| && s.lists.usedCnt == |s.lists.used|
  }

  lemma StepKeeps(s: State, i: nat)
    requires Inv(s) && i < |s.users|
    ensures Inv(Step(s, i))
  {
    match s.users[i]
    case Nothing => if s.lists.free != [] { TakeKeeps(s, i); }
    case Taking(b) => UseKeeps(s, i);
    case Holding(b) => DropKeeps(s, i);
    case Giving(b) => GiveKeeps(s, i);
  }

  lemma TakeKeeps(s: State, i: nat)
    requires Inv(s) && i < |s.users| && s.users[i] == Nothing && s.lists.free != []
    ensures Inv(Step(s, i))
  {
    hide Gather, UpTo;
    GatherUpdate(InTransit(), s.users, i, Taking(s.lists.free[0]));
    GatherUpdate(InUse(), s.users, i, Taking(s.lists.free[0]));
    assert s.lists.free == [s.lists.free[0]] + s.lists.free[1..];
  }

  lemma UseKeeps(s: State, i: nat)
    requires Inv(s) && i < |s.users| && s.users[i].Taking?
    ensures Inv(Step(s, i))
  {
    hide Gather, UpTo;
    GatherUpdate(InTransit(), s.users, i, Holding(s.users[i].b));
    GatherUpdate(InUse(), s.users, i, Holding(s.users[i].b));
  }

  lemma DropKeeps(s: State, i: nat)
    requires Inv(s) && i < |s.users| && s.users[i].Holding?
    ensures Inv(Step(s, i))
  {
    hide Gather, UpTo, Remove;
    var b := s.users[i].b;
    GatherUpdate(InTransit(), s.users, i, Giving(b));
    GatherUpdate(InUse(), s.users, i, Giving(b));
    assert b in s.lists.used;
    RemoveOne(s.lists.used, b);
  }

  lemma GiveKeeps(s: State, i: nat)
    requires Inv(s) && i < |s.users| && s.users[i].Giving?
    ensures Inv(Step(s, i))
  {
    hide Gather, UpTo;
    GatherUpdate(InTransit(), s.users, i, Nothing);
    GatherUpdate(InUse(), s.users, i, Nothing);
  }

  lemma {:induction false} RunKeeps(ss: seq<State>, who: seq<nat>, k: nat)
    requires Run(ss, who) && k < |ss|
    ensures Inv(ss[k])
  {
    if k == 0 {
      NobodyHolds(ss[0].users);
    } else {
      RunKeeps(ss, who, k - 1);
      StepKeeps(ss[k - 1], who[k - 1]);
    }
  }

  lemma {:induction false} NobodyHolds(users: seq<User>)
    requires forall i :: 0 <= i < |users| ==> users[i] == Nothing
    ensures Gather(InTransit(), users) == multiset{} && Gather(InUse(), users) == multiset{}
  {
    if users != [] { NobodyHolds(users[..|users| - 1]); }
  }

  lemma UpToOnce(n: nat, b: nat)
    ensures multiset(UpTo(n))[b] == if b < n then 1 else 0
  {
    if n > 0 {
      assert UpTo(n) == UpTo(n - 1) + [n - 1];
      UpToOnce(n - 1, b);
    }
  }

  /** In every interleaving each of the 24 buffers is in exactly one place -- free, used, or on
      its way -- once; each count is the length of its list; and the used buffers are exactly
      those requests hold. */
  lemma EachBufferOnce(ss: seq<State>, who: seq<nat>, k: nat, b: nat)
    requires Run(ss, who) && k < |ss| && b < BUFS
    ensures var s := ss[k];
      multiset(s.lists.free)[b] + multiset(s.lists.used)[b] + Transit(s)[b] == 1
    ensures ss[k].lists.freeCnt == |ss[k].lists.free| && ss[k].lists.usedCnt == |ss[k].lists.used|
    ensures multiset(ss[k].lists.used)[b] == Gather(InUse(), ss[k].users)[b]
  {
    RunKeeps(ss, who, k);
    UpToOnce(BUFS, b);
    var s := ss[k];
    assert (multiset(s.lists.free) + multiset(s.lists.used) + Transit(s))[b] == multiset(UpTo(BUFS))[b];
  }
}
