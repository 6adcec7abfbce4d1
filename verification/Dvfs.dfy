/** Clock accounting: pixel loads added when a request is sent and taken off when it is done,
    in unsigned 64-bit arithmetic, and the level picked for the resulting frequency. */
module Dvfs {
  import opened Options

  const GROUPS: nat := 3
  const TWO_64: int := 0x1_0000_0000_0000_0000
  const VSS_FLOOR: nat := 660000000
  const SMVR_FLOOR: nat := 393000000

  type u64 = x: int | 0 <= x < TWO_64

  /** `hw` holds the bit positions set in hw_comb. */
  datatype Frame = Frame(hw: set<nat>, bw: u64)

  datatype Request = Request(fps: nat, batch: nat, frames: seq<Frame>)

  /** `dvfs_group[g].g_hw`: TRAW, LTR, ME; WPE_TNR, DIP; WPE_EIS, PQDIP_A, PQDIP_B. */
  function GroupHw(g: nat): set<nat> { if g == 0 then {2, 3, 7} else if g == 1 then {1, 4} else {0, 5, 6} }

  predicate Touches(f: Frame, g: nat) { f.hw * GroupHw(g) != {} }

  function Wrap(x: int): u64 { x % TWO_64 }

  /** The load of a request on group `g`, as an exact number. */
  function Load(frames: seq<Frame>, g: nat): nat {
    if frames == [] then 0
    else Load(frames[..|frames| - 1], g) + (if Touches(frames[|frames| - 1], g) then frames[|frames| - 1].bw else 0)
  }

  predicate IsVss(r: Request) { r.fps == 0 }

  predicate IsSmvr(r: Request) { r.fps != 0 && r.batch > 1 }

  /** What the active requests add up to. */
  function TotalLoad(active: seq<Request>, g: nat): nat {
    if active == [] then 0
    else TotalLoad(active[..|active| - 1], g) + Load(active[|active| - 1].frames, g) * active[|active| - 1].fps
  }

  function Count(p: Request -> bool, active: seq<Request>): nat {
    if active == [] then 0 else Count(p, active[..|active| - 1]) + (if p(active[|active| - 1]) then 1 else 0)
  }

  function Vss(): Request -> bool { r => IsVss(r) }

  function Smvr(): Request -> bool { r => IsSmvr(r) }

  function Max(a: int, b: int): int { if a > b then a else b }

  function Greatest(s: seq<u64>): u64 {
    if s == [] then 0 else Max(Greatest(s[..|s| - 1]), s[|s| - 1])
  }

  datatype Op = Add(r: Request) | Drop(k: nat)

  /** The requests set and not unset, and the one the last call was for. */
  datatype Tape = Tape(active: seq<Request>, last: Option<Request>)

  function Turn(t: Tape, op: Op): Tape {
    match op
    case Add(r) => Tape(t.active + [r], Some(r))
    case Drop(k) =>
      if k >= |t.active| then t else Tape(t.active[..k] + t.active[k + 1..], Some(t.active[k]))
  }

  function Played(ops: seq<Op>): Tape {
    if ops == [] then Tape([], None) else Turn(Played(ops[..|ops| - 1]), ops[|ops| - 1])
  }

  /** The frequency a call for `r` leaves when no request forces the top speed, `smvr` being the
      SMVR requests active after it and `top` the greatest load. */
  function Left(r: Request, smvr: int, top: int): int {
    if r.fps == 0 then top
    else if r.batch > 1 then Max(top, SMVR_FLOOR)
    else if smvr == 0 then top
    else 0
  }

  /** The frequency in every state: at least the floor while a request forces the top speed, and
      otherwise what the last call left. */
  predicate FreqIs(t: Tape, freq: int, loads: seq<u64>) {
    if Count(Vss(), t.active) > 0 then freq >= VSS_FLOOR
    else freq == if t.last.None? then Greatest(loads) else Left(t.last.value, Count(Smvr(), t.active), Greatest(loads))
  }

  /** The last call was not the kind that leaves something else than the greatest load. */
  predicate Settled(t: Tape, top: int) {
    t.last.None? || t.last.value.fps == 0
    || (if t.last.value.batch > 1 then top >= SMVR_FLOOR else Count(Smvr(), t.active) == 0 || top == 0)
  }

  class Info {
    const pixelSize: array<u64>
    var vss: int
    var smvr: int
    var freq: int

    constructor ()
      ensures Accounts([]) && freq == 0 && fresh(pixelSize)
    {
      pixelSize := new u64[GROUPS](_ => 0);
      vss, smvr, freq := 0, 0, 0;
    }

    /** The loads and counters are those of the active requests. */
    ghost predicate Accounts(active: seq<Request>)
      reads this, pixelSize
    {
      && pixelSize.Length == GROUPS
      && (forall g :: 0 <= g < GROUPS ==> pixelSize[g] == Wrap(TotalLoad(active, g)))
      && vss == Count(Vss(), active) && smvr == Count(Smvr(), active)
    }

    /** The loop over the groups, for one frame. */
    method AddFrame(loads: array<u64>, f: Frame, ghost before: seq<Frame>)
      requires loads.Length == GROUPS && forall g :: 0 <= g < GROUPS ==> loads[g] == Wrap(Load(before, g))
      modifies loads
      ensures forall g :: 0 <= g < GROUPS ==> loads[g] == Wrap(Load(before + [f], g))
    {
      hide Wrap, Touches;
      assert (before + [f])[..|before|] == before;
      for g := 0 to GROUPS
        invariant forall h :: 0 <= h < GROUPS ==> loads[h] == Wrap(Load(if h < g then before + [f] else before, h))
      {
        WrapAdd(Load(before, g), f.bw);
        if Touches(f, g) {
          loads[g] := Wrap(loads[g] + f.bw);
        }
      }
    }

    /** The loop over the frames. */
    method LocalLoads(r: Request) returns (loads: array<u64>)
      ensures fresh(loads) && loads.Length == GROUPS
      ensures forall g :: 0 <= g < GROUPS ==> loads[g] == if r.fps != 0 then Wrap(Load(r.frames, g)) else 0
    {
      assert Wrap(0) == 0;
      hide Wrap, Touches;
      loads := new u64[GROUPS](_ => 0);
      if r.fps != 0 {
        for i := 0 to |r.frames|
          invariant forall g :: 0 <= g < GROUPS ==> loads[g] == Wrap(Load(r.frames[..i], g))
        {
          assert r.frames[..i + 1] == r.frames[..i] + [r.frames[i]];
          AddFrame(loads, r.frames[i], r.frames[..i]);
        }
        assert r.frames[..|r.frames|] == r.frames;
      }
    }

    /** Add or take off the loads, and find the greatest total. */
    method Shift(loads: array<u64>, fps: nat, isSet: bool) returns (top: int)
      requires pixelSize.Length == loads.Length == GROUPS && loads != pixelSize
      modifies pixelSize
      ensures forall g :: 0 <= g < GROUPS ==>
        pixelSize[g] == Moved(old(pixelSize[g]), Wrap(loads[g] * fps), isSet)
      ensures top == Greatest(pixelSize[..])
    {
      hide Wrap;
      top := 0;
      for g := 0 to GROUPS
        invariant forall h :: 0 <= h < g ==> pixelSize[h] == Moved(old(pixelSize[h]), Wrap(loads[h] * fps), isSet)
        invariant forall h :: g <= h < GROUPS ==> pixelSize[h] == old(pixelSize[h])
        invariant top == Greatest(pixelSize[..g])
      {
        var d := Wrap(loads[g] * fps);
        ghost var done := pixelSize[..g];
        pixelSize[g] := Moved(pixelSize[g], d, isSet);
        assert pixelSize[..g + 1][..g] == done;
        if pixelSize[g] > top { top := pixelSize[g]; }
      }
      assert pixelSize[..GROUPS] == pixelSize[..];
    }

    /** The frequency part: `top` is the greatest load. */
    method Choose(r: Request, top: int)
      requires r.fps != 0
      modifies this`freq
      ensures freq == if vss == 0 then Left(r, smvr, top) else old(freq)
    {
      var f := 0;
      if r.batch > 1 {
        f := if top < SMVR_FLOOR then SMVR_FLOOR else top;
      } else if smvr == 0 {
        f := top;
      }
      if vss == 0 { freq := f; }
    }

    /** `mtk_imgsys_mmdvfs_mmqos_cal` with isSet 1 */
    method Set(r: Request, ghost active: seq<Request>)
      requires Accounts(active)
      modifies this, pixelSize
      ensures Accounts(active + [r])
      ensures vss == 0 ==> freq == Left(r, smvr, Greatest(pixelSize[..]))
      ensures vss > 0 ==> freq == if IsVss(r) then Max(old(freq), VSS_FLOOR) else old(freq)
    {
      CountSnoc(active, r);
      var loads := LocalLoads(r);
      if r.fps != 0 {
        var top := Shift(loads, r.fps, true);
        forall g | 0 <= g < GROUPS ensures pixelSize[g] == Wrap(TotalLoad(active + [r], g)) {
          WrapMove(TotalLoad(active, g), Load(r.frames, g), r.fps);
        }
        if r.batch > 1 { smvr := smvr + 1; }
        Choose(r, top);
      } else {
        vss := vss + 1;
        if VSS_FLOOR > freq { freq := VSS_FLOOR; }
        assert pixelSize[..] == old(pixelSize[..]);
      }
    }

    /** `mtk_imgsys_mmdvfs_mmqos_cal` with isSet 0, for the active request `k`. */
    method Unset(ghost active: seq<Request>, ghost k: nat, r: Request)
      requires Accounts(active) && k < |active| && r == active[k]
      modifies this, pixelSize
      ensures Accounts(active[..k] + active[k + 1..])
      ensures vss == 0 ==> freq == Left(r, smvr, Greatest(pixelSize[..]))
      ensures vss > 0 ==> freq == old(freq)
    {
      ghost var left := active[..k] + active[k + 1..];
      CountDrop(active, k);
      var loads := LocalLoads(r);
      if r.fps != 0 {
        var top := Shift(loads, r.fps, false);
        forall g | 0 <= g < GROUPS ensures pixelSize[g] == Wrap(TotalLoad(left, g)) {
          LoadDrop(active, k, g);
          WrapBack(TotalLoad(left, g), Load(r.frames, g), r.fps);
        }
        if r.batch > 1 { smvr := smvr - 1; }
        Choose(r, top);
      } else {
        forall g | 0 <= g < GROUPS ensures TotalLoad(left, g) == TotalLoad(active, g) {
          LoadDrop(active, k, g);
        }
        vss := vss - 1;
        if vss == 0 {
          freq := FindTop();
        }
        assert pixelSize[..] == old(pixelSize[..]);
      }
    }

    /** Any run of paired calls from the start: `active` holds the requests set and not unset. */
    method Play(ops: seq<Op>) returns (active: seq<Request>)
      requires Accounts([]) && freq == 0
      modifies this, pixelSize
      ensures active == Played(ops).active && Accounts(active) && FreqIs(Played(ops), freq, pixelSize[..])
    {
      active := [];
      GreatestOfZeros(pixelSize[..]);
      hide Accounts, Left;
      for i := 0 to |ops|
        invariant Accounts(active) && active == Played(ops[..i]).active
        invariant FreqIs(Played(ops[..i]), freq, pixelSize[..])
      {
        assert ops[..i + 1][..i] == ops[..i];
        match ops[i] {
          case Add(r) =>
            CountSnoc(active, r);
            CountsOf(active);
            Set(r, active);
            active := active + [r];
            CountsOf(active);
          case Drop(k) =>
            if k < |active| {
              CountDrop(active, k);
              CountsOf(active);
              Unset(active, k, active[k]);
              active := active[..k] + active[k + 1..];
              CountsOf(active);
            }
        }
      }
      assert ops[..|ops|] == ops;
    }

    lemma CountsOf(active: seq<Request>)
      requires Accounts(active)
      ensures vss == Count(Vss(), active) && smvr == Count(Smvr(), active)
    {
    }

    method FindTop() returns (top: int)
      requires pixelSize.Length == GROUPS
      ensures top == Greatest(pixelSize[..])
    {
      top := 0;
      for g := 0 to GROUPS
        invariant top == Greatest(pixelSize[..g])
      {
        assert pixelSize[..g + 1][..g] == pixelSize[..g];
        if pixelSize[g] > top { top := pixelSize[g]; }
      }
      assert pixelSize[..GROUPS] == pixelSize[..];
    }
  }

  /** The frequency is the greatest load if no active request forces the top speed, and at least
      the floor if one does. */
  predicate FreqOk(active: seq<Request>, freq: int, loads: seq<u64>) {
    if Count(Vss(), active) == 0 then freq == Greatest(loads) else freq >= 660000000
  }

  /** After any calls the frequency is right if and only if a request forces the top speed, or the
      last call left the greatest load: an SMVR call leaves its floor if that is greater, set or
      unset, and a plain call beside an active SMVR request leaves zero. */
  lemma FreqOkIff(ops: seq<Op>, freq: int, loads: seq<u64>)
    requires FreqIs(Played(ops), freq, loads)
    ensures var t := Played(ops);
      FreqOk(t.active, freq, loads) <==> Count(Vss(), t.active) > 0 || Settled(t, Greatest(loads))
  {
    hide Played, Count;
    GreatestIsMax(loads);
  }

  /** An SMVR request set and unset leaves its floor behind with nothing active. */
  lemma FloorStays(r: Request, freq: int, loads: seq<u64>)
    requires IsSmvr(r) && FreqIs(Played([Add(r), Drop(0)]), freq, loads)
    requires forall g :: 0 <= g < |loads| ==> loads[g] == Wrap(TotalLoad(Played([Add(r), Drop(0)]).active, g))
    ensures Played([Add(r), Drop(0)]).active == [] && freq == 393000000
  {
    var ops := [Add(r), Drop(0)];
    assert ops[..1] == [Add(r)] && [Add(r)][..0] == [];
    assert Played([Add(r)]) == Tape([] + [r], Some(r));
    assert Played(ops) == Tape([], Some(r));
    GreatestOfZeros(loads);
  }

  /** A plain request set beside an SMVR one stops the clock, whatever the load. */
  lemma PlainBesideSmvr(a: Request, b: Request, freq: int, loads: seq<u64>)
    requires IsSmvr(a) && b.fps != 0 && b.batch <= 1 && FreqIs(Played([Add(a), Add(b)]), freq, loads)
    ensures Played([Add(a), Add(b)]).active == [a, b] && freq == 0
  {
    var ops := [Add(a), Add(b)];
    assert ops[..1] == [Add(a)] && [Add(a)][..0] == [];
    assert Played([Add(a)]) == Tape([] + [a], Some(a));
    assert [] + [a] + [b] == [a, b];
    CountSnoc([], a);
    CountSnoc([] + [a], b);
  }

  const STILL: Request := Request(30, 2, [])
  const MOVING: Request := Request(30, 1, [Frame({2}, 1000)])

  /** For example with 30000 pixels a second to process. */
  method StopTheClock() returns (top: int, freq: int)
    ensures top == 30000 && freq == 0
  {
    var info := new Info();
    var active := info.Play([Add(STILL), Add(MOVING)]);
    PlainBesideSmvr(STILL, MOVING, info.freq, info.pixelSize[..]);
    LoadsOfTwo();
    assert active == [STILL, MOVING];
    assert info.pixelSize[..] == [30000, 0, 0];
    top := info.FindTop();
    freq := info.freq;
  }

  lemma LoadsOfTwo()
    ensures forall g: nat :: g < GROUPS ==> TotalLoad([STILL, MOVING], g) == if g == 0 then 30000 else 0
    ensures Greatest([30000, 0, 0]) == 30000
  {
    forall g: nat ensures TotalLoad([STILL, MOVING], g) == Load(MOVING.frames, g) * 30 {
      assert [STILL, MOVING] == [] + [STILL] + [MOVING];
      CountSnoc([], STILL);
      CountSnoc([] + [STILL], MOVING);
    }
    assert 2 in MOVING.frames[0].hw * GroupHw(0);
    assert MOVING.frames[..0] == [];
    assert Load(MOVING.frames, 0) == 1000 && Load(MOVING.frames, 1) == 0 && Load(MOVING.frames, 2) == 0;
    var s: seq<u64> := [30000, 0, 0];
    assert s[..2] == [30000, 0] && s[..2][..1] == [30000] && s[..1][..0] == [];
    assert Greatest(s[..1]) == 30000;
  }

  /** Without SMVR requests it is always right. */
  lemma PlainIsRight(ops: seq<Op>, freq: int, loads: seq<u64>)
    requires FreqIs(Played(ops), freq, loads)
    requires forall k :: 0 <= k < |ops| && ops[k].Add? ==> !IsSmvr(ops[k].r)
    ensures FreqOk(Played(ops).active, freq, loads)
  {
    hide Count;
    NoSmvr(ops);
    NoneCounted(Played(ops).active);
    FreqOkIff(ops, freq, loads);
  }

  lemma {:induction false} NoSmvr(ops: seq<Op>)
    requires forall k :: 0 <= k < |ops| && ops[k].Add? ==> !IsSmvr(ops[k].r)
    ensures forall r :: r in Played(ops).active ==> !IsSmvr(r)
    ensures Played(ops).last.Some? ==> !IsSmvr(Played(ops).last.value)
  {
    if ops != [] { NoSmvr(ops[..|ops| - 1]); }
  }

  lemma {:induction false} NoneCounted(active: seq<Request>)
    requires forall r :: r in active ==> !IsSmvr(r)
    ensures Count(Smvr(), active) == 0
  {
    if active != [] { NoneCounted(active[..|active| - 1]); }
  }

  lemma {:induction false} GreatestOfZeros(s: seq<u64>)
    requires forall g :: 0 <= g < |s| ==> s[g] == 0
    ensures Greatest(s) == 0
  {
    if s != [] { GreatestOfZeros(s[..|s| - 1]); }
  }

  /** The reference meaning of `Greatest`: an upper bound that is attained, or 0. */
  lemma {:induction false} GreatestIsMax(s: seq<u64>)
    ensures forall g :: 0 <= g < |s| ==> s[g] <= Greatest(s)
    ensures s != [] ==> Greatest(s) in s
  {
    if s != [] {
      GreatestIsMax(s[..|s| - 1]);
      assert s == s[..|s| - 1] + [s[|s| - 1]];
    }
  }

  function Moved(total: int, d: int, isSet: bool): u64 { if isSet then Wrap(total + d) else Wrap(total - d) }

  lemma WrapAdd(a: int, b: int)
    ensures Wrap(Wrap(a) + b) == Wrap(a + b)
  {
  }

  lemma WrapMul(l: nat, f: nat)
    ensures Wrap(Wrap(l) * f) == Wrap(l * f)
  {
    var q := l / TWO_64;
    assert l == q * TWO_64 + Wrap(l);
    assert l * f == (q * f) * TWO_64 + Wrap(l) * f;
    WrapMultiple(Wrap(l) * f, q * f);
  }

  lemma WrapMultiple(x: int, k: int)
    ensures Wrap(x + k * TWO_64) == Wrap(x)
  {
  }

  /** Adding a wrapped load adds the load. */
  lemma WrapMove(t: nat, l: nat, f: nat)
    ensures Moved(Wrap(t), Wrap(Wrap(l) * f), true) == Wrap(t + l * f)
  {
    WrapMul(l, f);
    WrapSum(t, l * f);
  }

  lemma WrapSum(t: int, p: int)
    ensures Wrap(Wrap(t) + Wrap(p)) == Wrap(t + p) && Wrap(Wrap(t + p) - Wrap(p)) == Wrap(t)
  {
  }

  /** Taking it off again leaves exactly the rest. */
  lemma WrapBack(t: nat, l: nat, f: nat)
    ensures Moved(Wrap(t + l * f), Wrap(Wrap(l) * f), false) == Wrap(t)
  {
    WrapMul(l, f);
    WrapSum(t, l * f);
  }

  lemma CountSnoc(active: seq<Request>, r: Request)
    ensures Count(Vss(), active + [r]) == Count(Vss(), active) + (if IsVss(r) then 1 else 0)
    ensures Count(Smvr(), active + [r]) == Count(Smvr(), active) + (if IsSmvr(r) then 1 else 0)
    ensures forall g :: TotalLoad(active + [r], g) == TotalLoad(active, g) + Load(r.frames, g) * r.fps
  {
    assert (active + [r])[..|active|] == active;
  }

  lemma {:induction false} CountConcat(p: Request -> bool, a: seq<Request>, b: seq<Request>)
    ensures Count(p, a + b) == Count(p, a) + Count(p, b)
  {
    if b == [] {
      assert a + b == a;
    } else {
      assert (a + b)[..|a + b| - 1] == a + b[..|b| - 1];
      CountConcat(p, a, b[..|b| - 1]);
    }
  }

  lemma {:induction false} LoadConcat(a: seq<Request>, b: seq<Request>, g: nat)
    ensures TotalLoad(a + b, g) == TotalLoad(a, g) + TotalLoad(b, g)
  {
    if b == [] {
      assert a + b == a;
    } else {
      assert (a + b)[..|a + b| - 1] == a + b[..|b| - 1];
      LoadConcat(a, b[..|b| - 1], g);
    }
  }

  lemma CountDrop(active: seq<Request>, k: nat)
    requires k < |active|
    ensures var left := active[..k] + active[k + 1..];
      && Count(Vss(), active) == Count(Vss(), left) + (if IsVss(active[k]) then 1 else 0)
      && Count(Smvr(), active) == Count(Smvr(), left) + (if IsSmvr(active[k]) then 1 else 0)
  {
    assert active == (active[..k] + [active[k]]) + active[k + 1..];
    CountConcat(Vss(), active[..k] + [active[k]], active[k + 1..]);
    CountConcat(Vss(), active[..k], active[k + 1..]);
    CountConcat(Smvr(), active[..k] + [active[k]], active[k + 1..]);
    CountConcat(Smvr(), active[..k], active[k + 1..]);
    CountSnoc(active[..k], active[k]);
  }

  lemma LoadDrop(active: seq<Request>, k: nat, g: nat)
    requires k < |active|
    ensures TotalLoad(active, g)
         == TotalLoad(active[..k] + active[k + 1..], g) + Load(active[k].frames, g) * active[k].fps
  {
    assert active == (active[..k] + [active[k]]) + active[k + 1..];
    LoadConcat(active[..k] + [active[k]], active[k + 1..], g);
    LoadConcat(active[..k], active[k + 1..], g);
    CountSnoc(active[..k], active[k]);
  }

  /** A request with one frame on one engine loads that engine's group only: TRAW, LTR and ME the
      first; WPE_TNR and DIP the second; WPE_EIS, PQDIP_A and PQDIP_B the third. */
  lemma OneEngine(fps: nat, batch: nat, e: nat, bw: u64, g: nat)
    requires g < 3
    ensures TotalLoad([Request(fps, batch, [Frame({e}, bw)])], g) ==
      if (g == 0 && e in {2, 3, 7}) || (g == 1 && e in {1, 4}) || (g == 2 && e in {0, 5, 6}) then bw * fps else 0
  {
    var f, r := Frame({e}, bw), Request(fps, batch, [Frame({e}, bw)]);
    CountSnoc([], r);
    assert [] + [r] == [r] && [f][..0] == [];
    assert e in f.hw && f.hw * GroupHw(g) == if e in GroupHw(g) then {e} else {};
    assert Touches(f, g) <==> e in GroupHw(g);
    assert Load([f], g) == Load([f][..0], g) + if Touches(f, g) then bw else 0;
  }

  /** When the loads add up to less than 2^64 nothing has wrapped. */
  lemma ExactLoads(i: Info, active: seq<Request>, g: nat)
    requires i.Accounts(active) && g < GROUPS && TotalLoad(active, g) < TWO_64
    ensures i.pixelSize[g] == TotalLoad(active, g)
  {
  }

  /** What `mtk_imgsys_mmdvfs_set` does with the frequency: the first level that suffices, or the
      last -- with levels in ascending order, the least sufficient one, or the top. */
  method PickLevel(freq: int, levels: seq<nat>) returns (idx: nat)
    requires levels != []
    ensures idx < |levels| && (forall j :: 0 <= j < idx ==> levels[j] < freq)
    ensures levels[idx] >= freq || idx == |levels| - 1
    ensures (forall i, j :: 0 <= i < j < |levels| ==> levels[i] <= levels[j]) ==>
      forall j :: 0 <= j < |levels| && levels[j] >= freq ==> levels[idx] >= freq && levels[idx] <= levels[j]
  {
    idx := 0;
    while idx < |levels| && freq > levels[idx]
      invariant idx <= |levels| && forall j :: 0 <= j < idx ==> levels[j] < freq
    {
      idx := idx + 1;
    }
    if idx == |levels| { idx := idx - 1; }
  }
}
