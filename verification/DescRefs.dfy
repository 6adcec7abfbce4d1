/** The references a single-device request takes: filling its descriptor tree with dma-bufs
    when it is queued, turning them into device addresses when it runs, and unmapping them
    when it is notified.

    The tree is a tuning header, a control metadata header and one header for each dma; a
    header has frames, a frame has planes, and a plane names a descriptor.  Filling resolves
    every descriptor of an enabled frame and leaves a reference to its buffer in the plane (or,
    for the metadata, gives it back at once).  Mapping takes the planes in the same order: a
    buffer the cache lists under that descriptor lends its address, and the reference goes back;
    any other is attached and mapped, and its reference goes to the request's table with the
    mapping, or back if that fails.  Unmapping empties the table.

    A step is followed by what it leaves in the planes, what it adds to the table, which of the
    attempts it has used up, and where each reference has gone. */
module DescRefs {
  import opened IovaCache
  import opened Options
  import opened Tally

  const PLANES: nat := 3      // FRAME_BUF_MAX * IMGBUF_MAX_PLANES

  /** `reserved[0]` of a plane: what userspace left there, the error mark, a dma-buf the request
      holds a reference to, one it does not, or a device address. */
  datatype Reserved = Junk | Null | Held(buf: Buf) | Seen(buf: Buf) | Iova(addr: nat)

  datatype Plane = Plane(fd: nat, reserved: Reserved)

  /** `header_desc` or `header_desc_norm` with its row of dmas_enable: at most |frames| frames
      are used (TIME_MAX or TMAX), each a seq of planes. */
  datatype Header = Header(tnum: nat, enable: seq<bool>, frames: seq<seq<Plane>>)

  predicate WellShaped(h: Header) {
    |h.enable| == |h.frames| && forall t :: 0 <= t < |h.frames| ==> |h.frames[t]| == PLANES
  }

  /** The frames a walk over the header visits. */
  function Used(h: Header): nat { if h.tnum >= |h.frames| then |h.frames| else h.tnum }

  predicate Visited(h: Header, t: nat) { t < Used(h) && t < |h.enable| && h.enable[t] }

  // ------------------------------------------------------------------- references held

  function OfPlane(): Plane -> multiset<Buf> {
    (p: Plane) => if p.reserved.Held? then multiset{p.reserved.buf} else multiset{}
  }

  function OfFrame(): seq<Plane> -> multiset<Buf> { (f: seq<Plane>) => Gather(OfPlane(), f) }

  function OfHeader(): Header -> multiset<Buf> { (h: Header) => Gather(OfFrame(), h.frames) }

  predicate NoneHeld(f: seq<Plane>) { forall p :: p in f ==> !p.reserved.Held? }

  predicate HeaderClear(h: Header) { forall f :: f in h.frames ==> NoneHeld(f) }

  lemma {:induction false} NoneHeldIsEmpty(f: seq<Plane>)
    requires NoneHeld(f)
    ensures OfFrame()(f) == multiset{}
  {
    if f != [] { NoneHeldIsEmpty(f[..|f| - 1]); }
  }

  lemma {:induction false} ClearIsEmpty(h: Header)
    requires HeaderClear(h)
    ensures OfHeader()(h) == multiset{}
  {
    ClearFrames(h.frames);
  }

  lemma {:induction false} ClearFrames(fs: seq<seq<Plane>>)
    requires forall f :: f in fs ==> NoneHeld(f)
    ensures Gather(OfFrame(), fs) == multiset{}
  {
    if fs != [] {
      ClearFrames(fs[..|fs| - 1]);
      NoneHeldIsEmpty(fs[|fs| - 1]);
    }
  }

  // -------------------------------------------------------------- what filling writes

  function FilledPlane(files: seq<Option<Buf>>, p: Plane, isME: bool): Plane {
    if p.fd == 0 then p
    else if p.fd >= |files| || files[p.fd].None? then p.(reserved := Null)
    else if isME then p.(reserved := Seen(files[p.fd].value))
    else p.(reserved := Held(files[p.fd].value))
  }

  function FilledFrame(files: seq<Option<Buf>>, f: seq<Plane>, isME: bool): (r: seq<Plane>)
    ensures |r| == |f|
  {
    seq(|f|, k requires 0 <= k < |f| => FilledPlane(files, f[k], isME))
  }

  /** `m` frames done: the visited ones are filled, the others untouched. */
  function FilledFrames(files: seq<Option<Buf>>, h: Header, m: nat, isME: bool): (r: seq<seq<Plane>>)
    ensures |r| == |h.frames|
  {
    seq(|h.frames|, t requires 0 <= t < |h.frames| =>
      if t < m && Visited(h, t) then FilledFrame(files, h.frames[t], isME) else h.frames[t])
  }

  function Filled(files: seq<Option<Buf>>, h: Header, isME: bool): Header {
    h.(frames := FilledFrames(files, h, Used(h), isME))
  }

  /** Which planes filling touches, and what it leaves there: in the frames before the announced number
      that are enabled, a plane that names a descriptor gets the buffer it resolves to, or the error
      mark; every other plane keeps its own. */
  lemma FilledAt(files: seq<Option<Buf>>, h: Header, isME: bool, t: nat, k: nat)
    requires |h.enable| == |h.frames| && t < |h.frames| && k < |h.frames[t]|
    ensures var r, f := Filled(files, h, isME), h.frames[t][k];
      && r == h.(frames := r.frames) && |r.frames| == |h.frames| && |r.frames[t]| == |h.frames[t]|
      && r.frames[t][k] ==
         if t < h.tnum && h.enable[t] && f.fd != 0 then
           if f.fd >= |files| || files[f.fd].None? then Plane(f.fd, Null)
           else if isME then Plane(f.fd, Seen(files[f.fd].value))
           else Plane(f.fd, Held(files[f.fd].value))
         else f
  {
  }

  /** In the control metadata every frame before the announced number counts. */
  lemma MetaAt(files: seq<Option<Buf>>, h: Header, t: nat, k: nat)
    requires t < |h.frames| && k < |h.frames[t]|
    ensures var r, f := EveryFrame(Filled(files, EveryFrame(h), true)), h.frames[t][k];
      && r.tnum == h.tnum && |r.frames| == |h.frames| && |r.frames[t]| == |h.frames[t]|
      && r.frames[t][k] ==
         if t < h.tnum && f.fd != 0 then
           Plane(f.fd, if f.fd < |files| && files[f.fd].Some? then Seen(files[f.fd].value) else Null)
         else f
  {
    FilledAt(files, EveryFrame(h), true, t, k);
  }

  // -------------------------------------------------------------- what mapping does

  /** What a walk that turns held dma-bufs into addresses may leave in a plane; `fine` says that every
      attempt to attach and map has succeeded. */
  predicate MappedPlane(live: map<nat, Mapping>, fine: bool, p: Plane, q: Plane) {
    && q.fd == p.fd
    && (if p.reserved.Held? then q.reserved.Iova? && AddressOf(live, fine, p.reserved.buf, q.reserved.addr) else q == p)
  }

  /** The address of a live mapping; or else 0, the error value, if an attempt failed. */
  predicate AddressOf(live: map<nat, Mapping>, fine: bool, b: Buf, a: nat) {
    (exists att :: att in live && live[att] == Mapping(b, a)) || (a == 0 && !fine)
  }

  predicate MappedFrame(live: map<nat, Mapping>, fine: bool, f: seq<Plane>, g: seq<Plane>) {
    |g| == |f| && forall k :: 0 <= k < |f| ==> MappedPlane(live, fine, f[k], g[k])
  }

  predicate MappedHeader(live: map<nat, Mapping>, fine: bool, h: Header, r: Header) {
    && r == h.(frames := r.frames) && |r.frames| == |h.frames|
    && forall t :: 0 <= t < |h.frames| ==> MappedFrame(live, fine, h.frames[t], r.frames[t])
  }

  /** The attempts numbered from `from` up to `to` all succeed. */
  predicate AllFine(attempts: nat -> Attempt, from: nat, to: nat) {
    forall t :: from <= t < to ==> Succeeds(attempts, t)
  }

  /** A plane that asks for the address of a buffer under a descriptor. */
  datatype Want = Want(fd: nat, buf: Buf)

  predicate Listed(list: seq<Entry>, w: Want) { exists e :: e in list && e.fd == w.fd && e.buf == w.buf }

  /** What is wanted, in the order of the walk. */
  function Collect<T>(f: T -> seq<Want>, s: seq<T>): seq<Want> {
    if s == [] then [] else Collect(f, s[..|s| - 1]) + f(s[|s| - 1])
  }

  function PlaneWants(): Plane -> seq<Want> {
    (p: Plane) => if p.reserved.Held? then [Want(p.fd, p.reserved.buf)] else []
  }

  function FrameWants(): seq<Plane> -> seq<Want> { (f: seq<Plane>) => Collect(PlaneWants(), f) }

  function HeaderWants(): Header -> seq<Want> { (h: Header) => Collect(FrameWants(), h.frames) }

  /** One lookup: nothing for a listed buffer, an attempt for any other. */
  function TakeOne(list: seq<Entry>, attempts: nat -> Attempt, h: Harvest, w: Want): Harvest {
    if Listed(list, w) then h else TryOne(attempts, h, w.fd, w.buf)
  }

  function TakeAll(list: seq<Entry>, attempts: nat -> Attempt, h: Harvest, ws: seq<Want>): Harvest {
    if ws == [] then h else TakeOne(list, attempts, TakeAll(list, attempts, h, ws[..|ws| - 1]), ws[|ws| - 1])
  }

  /** The wants the cache does not serve. */
  function Misses(list: seq<Entry>, ws: seq<Want>): seq<Want> {
    if ws == [] then []
    else Misses(list, ws[..|ws| - 1]) + (if Listed(list, ws[|ws| - 1]) then [] else [ws[|ws| - 1]])
  }

  /** An attempt is made for every miss, in order; if all succeed, each adds its entry. */
  predicate OneForEachMiss(list: seq<Entry>, attempts: nat -> Attempt, h: Harvest, h': Harvest, ws: seq<Want>) {
    var ms := Misses(list, ws);
    && h.list <= h'.list && h'.tried == h.tried + |ms|
    && (AllFine(attempts, h.tried, h'.tried) ==>
         && h'.next == h.next + |ms| && |h'.list| == |h.list| + |ms|
         && forall j :: 0 <= j < |ms| ==>
              h'.list[|h.list| + j] == Entry(ms[j].fd, ms[j].buf, attempts(h.tried + j).addr, h.next + j))
  }

  lemma {:induction false} TakesMisses(list: seq<Entry>, attempts: nat -> Attempt, h: Harvest, ws: seq<Want>)
    ensures OneForEachMiss(list, attempts, h, TakeAll(list, attempts, h, ws), ws)
    ensures h.tried <= TakeAll(list, attempts, h, ws).tried
  {
    if ws != [] { TakesMisses(list, attempts, h, ws[..|ws| - 1]); }
  }

  lemma {:induction false} TakeConcat(list: seq<Entry>, attempts: nat -> Attempt, h: Harvest,
                                      a: seq<Want>, b: seq<Want>)
    ensures TakeAll(list, attempts, h, a + b) == TakeAll(list, attempts, TakeAll(list, attempts, h, a), b)
  {
    if b == [] {
      assert a + b == a;
    } else {
      assert (a + b)[..|a + b| - 1] == a + b[..|b| - 1];
      TakeConcat(list, attempts, h, a, b[..|b| - 1]);
    }
  }

  /** The wants of the next element, taken after those before it. */
  lemma TakeNext<T>(list: seq<Entry>, attempts: nat -> Attempt, h: Harvest, f: T -> seq<Want>, s: seq<T>, k: nat)
    requires k < |s|
    ensures TakeAll(list, attempts, h, Collect(f, s[..k + 1]))
         == TakeAll(list, attempts, TakeAll(list, attempts, h, Collect(f, s[..k])), f(s[k]))
    ensures h.tried <= TakeAll(list, attempts, h, Collect(f, s[..k])).tried
         <= TakeAll(list, attempts, h, Collect(f, s[..k + 1])).tried
  {
    hide TakeAll, OneForEachMiss;
    assert s[..k + 1][..k] == s[..k];
    TakeConcat(list, attempts, h, Collect(f, s[..k]), f(s[k]));
    TakesMisses(list, attempts, h, Collect(f, s[..k]));
    TakesMisses(list, attempts, TakeAll(list, attempts, h, Collect(f, s[..k])), f(s[k]));
  }

  lemma TakeNone<T>(list: seq<Entry>, attempts: nat -> Attempt, h: Harvest, f: T -> seq<Want>, s: seq<T>)
    ensures TakeAll(list, attempts, h, Collect(f, s[..0])) == h
  {
  }

  lemma {:induction false} NoneWanted(f: seq<Plane>)
    requires NoneHeld(f)
    ensures FrameWants()(f) == []
  {
    if f != [] { NoneWanted(f[..|f| - 1]); }
  }

  /** Held dma-bufs are only where a walk passes, and where it passes there is nothing else
      to take for one. */
  predicate Walkable(h: Header) {
    && WellShaped(h)
    && (forall t :: 0 <= t < |h.frames| && !Visited(h, t) ==> NoneHeld(h.frames[t]))
    && (forall t :: 0 <= t < |h.frames| && Visited(h, t) ==> Resolved(h.frames[t]))
  }

  predicate ResolvedPlane(p: Plane) {
    if p.fd == 0 then !p.reserved.Held? else p.reserved.Null? || p.reserved.Held?
  }

  predicate Resolved(f: seq<Plane>) { forall k :: 0 <= k < |f| ==> ResolvedPlane(f[k]) }

  lemma FilledIsWalkable(files: seq<Option<Buf>>, h: Header)
    requires WellShaped(h) && HeaderClear(h)
    ensures Walkable(Filled(files, h, false))
  {
    var r := Filled(files, h, false);
    forall t | 0 <= t < |h.frames|
      ensures Visited(r, t) == Visited(h, t)
      ensures if Visited(h, t) then Resolved(r.frames[t]) else NoneHeld(r.frames[t])
    {
      assert h.frames[t] in h.frames;
      forall k | 0 <= k < |h.frames[t]| ensures !h.frames[t][k].reserved.Held? {
        assert h.frames[t][k] in h.frames[t];
      }
    }
  }

  /** A buffer node of the request: its descriptor, and `iova_map_table`. */
  class DevBuf {
    const dmas: array<Header>
    var tuning: Header
    var meta: Header
    var table: seq<Entry>

    constructor (dmas: array<Header>, tuning: Header, meta: Header)
      ensures this.dmas == dmas && this.tuning == tuning && this.meta == meta && table == []
    {
      this.dmas, this.tuning, this.meta, table := dmas, tuning, meta, [];
    }

    ghost function Harvested(p: Pipe): Harvest
      reads `table, p`tried, p`next
    {
      Harvest(table, p.tried, p.next)
    }

    /** The dma-bufs held by planes of the descriptor. */
    ghost function HeldBy(): multiset<Buf>
      reads `tuning, `meta, dmas
    {
      Gather(OfHeader(), dmas[..]) + OfHeader()(tuning) + OfHeader()(meta)
    }

    /** The mappings in the table are live, and no one else's. */
    ghost predicate Tabled(p: Pipe)
      reads `table, p`live, p`list
    {
      TabledIn(table, p.list, p.live)
    }

    /** `mtk_imgsys_get_iova`: the reference to `buf` is given back, or handed to the table.
        The result, unless it is the error 0, is the address of a live mapping of `buf`: that of a
        listed entry if there is one, and otherwise of the mapping just made. */
    method GetIova(p: Pipe, fd: nat, buf: Buf) returns (addr: nat, ok: bool)
      requires p.Valid() && Tabled(p) && buf in p.Rest()
      modifies this`table, p`refs, p`live, p`next, p`tried
      ensures p.Valid() && Tabled(p) && old(table) <= table && Extends(old(p.live), p.live)
      ensures NewIn(old(table), old(p.live), table)
      ensures Settles(old(p.Rest()), Bufs(old(table)), p.Rest(), Bufs(table), multiset{buf})
      ensures if ok then exists att :: att in p.live && p.live[att] == Mapping(buf, addr) else addr == 0
      ensures (exists e :: e in p.list && e.fd == fd && e.buf == buf) ==>
        && ok && (exists e :: e in p.list && e.fd == fd && e.buf == buf && addr == e.addr)
        && table == old(table) && p.tried == old(p.tried) && p.live == old(p.live)
      ensures (forall e :: e in p.list ==> e.fd != fd || e.buf != buf) ==>
        var a := p.attempts(old(p.tried));
        && p.tried == old(p.tried) + 1 && (ok <==> a.attachOk && a.mapOk)
        && (if ok then addr == a.addr && table == old(table) + [Entry(fd, buf, a.addr, old(p.next))]
            else table == old(table))
      ensures Harvested(p) == TakeOne(p.list, p.attempts, old(Harvested(p)), Want(fd, buf))
    {
      hide TabledIn, Bufs, Pipe.Valid, Pipe.Rest, TryOne;
      NothingNew(table, p.live);
      var hit := p.Lookup(fd, buf);
      if hit.Some? {
        ListedIsOwned(p, hit.value);
        p.Put(buf);
        addr, ok := hit.value.addr, true;
      } else {
        addr, ok := GetNew(p, fd, buf);
      }
    }

    /** A buffer the cache does not list: attach, map, and note the mapping in the table. */
    method GetNew(p: Pipe, fd: nat, buf: Buf) returns (addr: nat, ok: bool)
      requires p.Valid() && Tabled(p) && buf in p.Rest()
      modifies this`table, p`refs, p`live, p`next, p`tried
      ensures p.Valid() && Tabled(p) && old(table) <= table && Extends(old(p.live), p.live)
      ensures NewIn(old(table), old(p.live), table)
      ensures Settles(old(p.Rest()), Bufs(old(table)), p.Rest(), Bufs(table), multiset{buf})
      ensures var a := p.attempts(old(p.tried)); ok <==> a.attachOk && a.mapOk
      ensures if ok then exists att :: att in p.live && p.live[att] == Mapping(buf, addr) else addr == 0
      ensures ok ==> addr == p.attempts(old(p.tried)).addr
      ensures table == if ok then old(table) + [Entry(fd, buf, addr, old(p.next))] else old(table)
      ensures p.tried == old(p.tried) + 1 && Harvested(p) == TryOne(p.attempts, old(Harvested(p)), fd, buf)
    {
      hide TabledIn, Bufs, Pipe.Valid, Pipe.Rest, Pipe.Unlisted;
      addr, ok := 0, false;
      ghost var before := p.live;
      var e := p.Map(fd, buf);
      TabledGrows(table, p.list, before, p.live);
      if e.None? {
        p.Put(buf);
      } else {
        NoteEntry(table, p.list, before, p.live, e.value) by { UnlistedMeans(p, e.value); }
        table := table + [e.value];
        addr, ok := e.value.addr, true;
      }
    }

    /** `mtk_imgsys_desc_fill_dmabuf` */
    static method FillFrame(p: Pipe, f: seq<Plane>, isME: bool) returns (g: seq<Plane>)
      requires p.Valid() && NoneHeld(f)
      modifies p`refs
      ensures p.Valid() && g == FilledFrame(p.files, f, isME)
      ensures p.Rest() == old(p.Rest()) + Gather(OfPlane(), g)
    {
      hide Pipe.Valid, Pipe.Rest, Gather;
      g := f;
      NoneHeldIsEmpty(f);
      for k := 0 to |f|
        invariant p.Valid() && |g| == |f|
        invariant forall j :: 0 <= j < |f| ==> g[j] == if j < k then FilledPlane(p.files, f[j], isME) else f[j]
        invariant p.Rest() == old(p.Rest()) + Gather(OfPlane(), g)
      {
        assert f[k] in f;
        if f[k].fd != 0 {
          GatherUpdate(OfPlane(), g, k, FilledPlane(p.files, f[k], isME));
          var b := p.Get(f[k].fd);
          if b.None? {
            g := g[k := f[k].(reserved := Null)];
          } else if isME {
            g := g[k := f[k].(reserved := Seen(b.value))];
            p.Put(b.value);
          } else {
            g := g[k := f[k].(reserved := Held(b.value))];
          }
        }
      }
    }

    /** `mtk_imgsys_sd_fill_dmas` */
    static method FillHeader(p: Pipe, h: Header, isME: bool) returns (r: Header)
      requires p.Valid() && WellShaped(h) && HeaderClear(h)
      modifies p`refs
      ensures p.Valid() && r == Filled(p.files, h, isME)
      ensures p.Rest() == old(p.Rest()) + OfHeader()(r)
    {
      hide Pipe.Valid, Pipe.Rest, Gather, NoneHeld;
      var fs, tnum := h.frames, h.tnum;
      if tnum >= |h.frames| { tnum := |h.frames|; }
      ClearFrames(h.frames);
      assert FilledFrames(p.files, h, 0, isME) == h.frames;
      for t := 0 to tnum
        invariant p.Valid() && fs == FilledFrames(p.files, h, t, isME)
        invariant p.Rest() == old(p.Rest()) + Gather(OfFrame(), fs)
      {
        if h.enable[t] {
          assert h.frames[t] in h.frames;
          var g := FillFrame(p, h.frames[t], isME);
          NoneHeldIsEmpty(h.frames[t]);
          GatherUpdate(OfFrame(), fs, t, g);
          fs := fs[t := g];
        }
        assert fs == FilledFrames(p.files, h, t + 1, isME);
      }
      r := h.(frames := fs);
    }

    method MapPlane(p: Pipe, f: Plane) returns (g: Plane)
      requires p.Valid() && Tabled(p) && ResolvedPlane(f) && OfPlane()(f) <= p.Rest()
      modifies this`table, p`refs, p`live, p`next, p`tried
      ensures p.Valid() && Tabled(p) && old(table) <= table && Extends(old(p.live), p.live)
      ensures NewIn(old(table), old(p.live), table)
      ensures MappedPlane(p.live, AllFine(p.attempts, old(p.tried), p.tried), f, g)
      ensures Harvested(p) == TakeAll(p.list, p.attempts, old(Harvested(p)), PlaneWants()(f))
      ensures Settles(old(p.Rest()), Bufs(old(table)), p.Rest(), Bufs(table), OfPlane()(f))
    {
      hide Pipe.Valid, Pipe.Rest, Bufs, TabledIn;
      g := f;
      ghost var h := Harvested(p);
      assert TakeAll(p.list, p.attempts, h, [Want(f.fd, 0)][..0]) == h;
      if f.fd != 0 && f.reserved.Held? {
        assert [Want(f.fd, f.reserved.buf)][..0] == [];
        assert AllFine(p.attempts, h.tried, h.tried + 1) <==> Succeeds(p.attempts, h.tried);
        var addr, ok := GetIova(p, f.fd, f.reserved.buf);
        g := f.(reserved := Iova(addr));
      }
    }

    /** `mtk_imgsys_desc_iova` */
    method MapFrame(p: Pipe, f: seq<Plane>) returns (g: seq<Plane>)
      requires p.Valid() && Tabled(p) && Resolved(f) && Gather(OfPlane(), f) <= p.Rest()
      modifies this`table, p`refs, p`live, p`next, p`tried
      ensures p.Valid() && Tabled(p) && old(table) <= table && Extends(old(p.live), p.live)
      ensures NewIn(old(table), old(p.live), table)
      ensures MappedFrame(p.live, AllFine(p.attempts, old(p.tried), p.tried), f, g)
      ensures Harvested(p) == TakeAll(p.list, p.attempts, old(Harvested(p)), FrameWants()(f))
      ensures Settles(old(p.Rest()), Bufs(old(table)), p.Rest(), Bufs(table), Gather(OfPlane(), f))
    {
      hide Pipe.Valid, Pipe.Rest, Gather, Bufs, TabledIn, MappedPlane, Settles, ResolvedPlane, OfPlane, NewIn;
      hide TakeAll, AllFine, PlaneWants;
      TakeNone(p.list, p.attempts, Harvested(p), PlaneWants(), f);
      NothingNew(table, p.live);
      NothingSettled(p.Rest(), Bufs(table), OfPlane(), f);
      g := [];
      for k := 0 to |f|
        invariant p.Valid() && Tabled(p) && old(table) <= table && Extends(old(p.live), p.live)
        invariant NewIn(old(table), old(p.live), table)
        invariant |g| == k && MappedFrame(p.live, AllFine(p.attempts, old(p.tried), p.tried), f[..k], g)
        invariant Harvested(p) == TakeAll(p.list, p.attempts, old(Harvested(p)), Collect(PlaneWants(), f[..k]))
        invariant Settles(old(p.Rest()), Bufs(old(table)), p.Rest(), Bufs(table), Gather(OfPlane(), f[..k]))
      {
        CanTake(old(p.Rest()), old(table), p.Rest(), table, OfPlane(), f, k);
        ghost var rest, tab, live, tried := p.Rest(), table, p.live, p.tried;
        TakeNext(p.list, p.attempts, old(Harvested(p)), PlaneWants(), f, k);
        var q := MapPlane(p, f[k]);
        FineOn(p.attempts, old(p.tried), tried, p.tried);
        NewOn(old(table), old(p.live), tab, live, table);
        SettleNext(old(p.Rest()), Bufs(old(table)), rest, Bufs(tab), p.Rest(), Bufs(table), OfPlane(), f, k);
        FrameStays(live, AllFine(p.attempts, old(p.tried), tried), p.live, AllFine(p.attempts, old(p.tried), p.tried),
                   f[..k], g);
        PlaneStays(p.live, AllFine(p.attempts, tried, p.tried), p.live, AllFine(p.attempts, old(p.tried), p.tried),
                   f[k], q);
        g := g + [q];
      }
      assert f[..|f|] == f;
    }

    /** `mtk_imgsys_desc_set_skip` with its address lookup */
    method MapHeader(p: Pipe, h: Header) returns (r: Header)
      requires p.Valid() && Tabled(p) && Walkable(h) && OfHeader()(h) <= p.Rest()
      modifies this`table, p`refs, p`live, p`next, p`tried
      ensures p.Valid() && Tabled(p) && old(table) <= table && Extends(old(p.live), p.live)
      ensures NewIn(old(table), old(p.live), table)
      ensures MappedHeader(p.live, AllFine(p.attempts, old(p.tried), p.tried), h, r)
      ensures Harvested(p) == TakeAll(p.list, p.attempts, old(Harvested(p)), HeaderWants()(h))
      ensures Settles(old(p.Rest()), Bufs(old(table)), p.Rest(), Bufs(table), OfHeader()(h))
    {
      hide Pipe.Valid, Pipe.Rest, Gather, Bufs, TabledIn, MappedFrame, Settles, Resolved, NoneHeld, OfFrame, Extends;
      hide NewIn, TakeAll, AllFine, FrameWants, Collect;
      TakeNone(p.list, p.attempts, Harvested(p), FrameWants(), h.frames);
      NothingNew(table, p.live);
      NothingSettled(p.Rest(), Bufs(table), OfFrame(), h.frames);
      var fs, tnum := h.frames, h.tnum;
      if tnum >= |h.frames| { tnum := |h.frames|; }
      for t := 0 to tnum
        invariant p.Valid() && Tabled(p) && old(table) <= table && Extends(old(p.live), p.live)
        invariant NewIn(old(table), old(p.live), table)
        invariant |fs| == |h.frames| && fs[t..] == h.frames[t..]
        invariant forall j :: 0 <= j < t ==>
          MappedFrame(p.live, AllFine(p.attempts, old(p.tried), p.tried), h.frames[j], fs[j])
        invariant Harvested(p) == TakeAll(p.list, p.attempts, old(Harvested(p)), Collect(FrameWants(), h.frames[..t]))
        invariant Settles(old(p.Rest()), Bufs(old(table)), p.Rest(), Bufs(table), Gather(OfFrame(), h.frames[..t]))
      {
        ghost var rest, tab, live, tried := p.Rest(), table, p.live, p.tried;
        TakeNext(p.list, p.attempts, old(Harvested(p)), FrameWants(), h.frames, t);
        if h.enable[t] {
          CanTake(old(p.Rest()), old(table), p.Rest(), table, OfFrame(), h.frames, t);
          FrameRefs(h.frames[t]);
          var g := MapFrame(p, h.frames[t]);
          fs := fs[t := g];
        } else {
          Unmoved(p.live, AllFine(p.attempts, tried, tried), h.frames[t], p.Rest(), Bufs(table));
          NoneWanted(h.frames[t]);
          NothingTaken(p.list, p.attempts, Harvested(p));
          NothingNew(table, p.live);
          assert fs[t] == fs[t..][0] == h.frames[t];
        }
        NewOn(old(table), old(p.live), tab, live, table);
        ExtendsOn(old(p.live), live, p.live);
        FineOn(p.attempts, old(p.tried), tried, p.tried);
        ghost var was, fine := AllFine(p.attempts, old(p.tried), tried), AllFine(p.attempts, old(p.tried), p.tried);
        forall j | 0 <= j < t ensures MappedFrame(p.live, fine, h.frames[j], fs[j]) {
          FrameStays(live, was, p.live, fine, h.frames[j], fs[j]);
        }
        FrameStays(p.live, AllFine(p.attempts, tried, p.tried), p.live, fine, h.frames[t], fs[t]);
        SettleNext(old(p.Rest()), Bufs(old(table)), rest, Bufs(tab), p.Rest(), Bufs(table), OfFrame(), h.frames, t);
        assert fs[t + 1..] == fs[t..][1..] == h.frames[t..][1..] == h.frames[t + 1..];
      }
      r := h.(frames := fs);
      TailUnmoved(p.live, AllFine(p.attempts, old(p.tried), p.tried), h, tnum, fs);
      TailWants(h, tnum);
    }

    ghost predicate Shaped()
      reads `tuning, `meta, dmas
    {
      && WellShaped(tuning) && WellShaped(meta) && (forall i :: 0 <= i < dmas.Length ==> WellShaped(dmas[i]))
    }

    /** No plane names a dma-buf the request holds. */
    ghost predicate Clear()
      reads `tuning, `meta, dmas
    {
      && HeaderClear(tuning) && HeaderClear(meta) && (forall i :: 0 <= i < dmas.Length ==> HeaderClear(dmas[i]))
    }

    /** `mtk_imgsys_singledevice_ipi_params_config`: tuning, then the control metadata (whose
        references are put at once), then every dma. */
    method Configure(p: Pipe)
      requires p.Valid() && Shaped() && Clear() && table == []
      modifies this`tuning, this`meta, dmas, p`refs
      ensures p.Valid() && p.Rest() == old(p.Rest()) + HeldBy()
      ensures tuning == Filled(p.files, old(tuning), false)
      ensures meta == EveryFrame(Filled(p.files, EveryFrame(old(meta)), true)) && HeaderClear(meta)
      ensures forall i :: 0 <= i < dmas.Length ==> dmas[i] == Filled(p.files, old(dmas[i]), false)
    {
      hide Pipe.Valid, Pipe.Rest, Gather, HeaderClear, WellShaped, Filled, EveryFrame, OfHeader;
      MetaShape(meta);
      tuning := FillHeader(p, tuning, false);
      meta := FillHeader(p, EveryFrame(meta), true);
      MetaFilled(p.files, old(meta));
      FillDmas(p);
    }

    method FillDmas(p: Pipe)
      requires p.Valid() && forall i :: 0 <= i < dmas.Length ==> WellShaped(dmas[i]) && HeaderClear(dmas[i])
      modifies dmas, p`refs
      ensures p.Valid() && p.Rest() == old(p.Rest()) + Gather(OfHeader(), dmas[..])
      ensures forall i :: 0 <= i < dmas.Length ==> dmas[i] == Filled(p.files, old(dmas[i]), false)
    {
      hide Pipe.Valid, Pipe.Rest, Gather, HeaderClear, WellShaped, Filled, OfHeader;
      NoHeaders();
      for i := 0 to dmas.Length
        invariant p.Valid() && p.Rest() == old(p.Rest()) + Gather(OfHeader(), dmas[..i])
        invariant forall j :: 0 <= j < i ==> dmas[j] == Filled(p.files, old(dmas[j]), false)
        invariant forall j :: i <= j < dmas.Length ==> dmas[j] == old(dmas[j])
      {
        ghost var done := dmas[..i];
        dmas[i] := FillHeader(p, dmas[i], false);
        assert dmas[..i + 1] == done + [dmas[i]];
        GatherSnoc(OfHeader(), done, dmas[i]);
      }
      assert dmas[..dmas.Length] == dmas[..];
    }

    /** What the walk wants: the held planes of every dma, then of tuning. */
    ghost function Wanted(): seq<Want>
      reads `tuning, dmas
    {
      Collect(HeaderWants(), dmas[..]) + HeaderWants()(tuning)
    }

    /** `mtk_imgsys_sd_desc_map_iova`: every dma, then tuning; the control metadata is only
        copied. */
    method MapIova(p: Pipe)
      requires p.Valid() && Tabled(p) && HeldBy() <= p.Rest() && HeaderClear(meta)
      requires Walkable(tuning) && forall i :: 0 <= i < dmas.Length ==> Walkable(dmas[i])
      modifies this`table, this`tuning, dmas, p`refs, p`live, p`next, p`tried
      ensures p.Valid() && Tabled(p)
      ensures Extends(old(p.live), p.live) && NewIn(old(table), old(p.live), table)
      ensures var fine := AllFine(p.attempts, old(p.tried), p.tried);
        && MappedHeader(p.live, fine, old(tuning), tuning)
        && forall i :: 0 <= i < dmas.Length ==> MappedHeader(p.live, fine, old(dmas[i]), dmas[i])
      ensures Harvested(p) == TakeAll(p.list, p.attempts, old(Harvested(p)), old(Wanted()))
      ensures OneForEachMiss(p.list, p.attempts, old(Harvested(p)), Harvested(p), old(Wanted()))
      ensures Settles(old(p.Rest()), Bufs(old(table)), p.Rest(), Bufs(table), old(HeldBy()))
    {
      hide Pipe.Valid, Pipe.Rest, Gather, Bufs, TabledIn, MappedHeader, Walkable;
      hide Settles, HeaderClear, OfHeader, Extends, NewIn, TakeAll, AllFine, OneForEachMiss, HeaderWants;
      TakesMisses(p.list, p.attempts, Harvested(p), Wanted());
      ClearIsEmpty(meta);
      ghost var rest, tab, ds := p.Rest(), table, dmas[..];
      assert HeldBy() == Gather(OfHeader(), ds) + OfHeader()(tuning);
      TakeConcat(p.list, p.attempts, Harvested(p), Collect(HeaderWants(), ds), HeaderWants()(tuning));
      TakesMisses(p.list, p.attempts, Harvested(p), Collect(HeaderWants(), ds));
      MapDmas(p);
      ghost var rest1, tab1, live, tried := p.Rest(), table, p.live, p.tried;
      TakesMisses(p.list, p.attempts, Harvested(p), HeaderWants()(tuning));
      TakeLast(rest, tab, rest1, tab1, Gather(OfHeader(), ds), OfHeader()(tuning));
      tuning := MapHeader(p, tuning);
      NewOn(old(table), old(p.live), tab1, live, table);
      ExtendsOn(old(p.live), live, p.live);
      SettleArith(rest, Bufs(tab), rest1, Bufs(tab1), p.Rest(), Bufs(table),
                  Gather(OfHeader(), ds), OfHeader()(old(tuning)));
      FineOn(p.attempts, old(p.tried), tried, p.tried);
      ghost var was, fine := AllFine(p.attempts, old(p.tried), tried), AllFine(p.attempts, old(p.tried), p.tried);
      forall i | 0 <= i < dmas.Length ensures MappedHeader(p.live, fine, old(dmas[i]), dmas[i]) {
        HeaderStays(live, was, p.live, fine, old(dmas[i]), dmas[i]);
      }
      HeaderStays(p.live, AllFine(p.attempts, tried, p.tried), p.live, fine, old(tuning), tuning);
    }

    method MapDmas(p: Pipe)
      requires p.Valid() && Tabled(p) && Gather(OfHeader(), dmas[..]) <= p.Rest()
      requires forall i :: 0 <= i < dmas.Length ==> Walkable(dmas[i])
      modifies this`table, dmas, p`refs, p`live, p`next, p`tried
      ensures p.Valid() && Tabled(p) && old(table) <= table
      ensures Extends(old(p.live), p.live) && NewIn(old(table), old(p.live), table)
      ensures forall i :: 0 <= i < dmas.Length ==>
        MappedHeader(p.live, AllFine(p.attempts, old(p.tried), p.tried), old(dmas[i]), dmas[i])
      ensures Harvested(p) == TakeAll(p.list, p.attempts, old(Harvested(p)), Collect(HeaderWants(), old(dmas[..])))
      ensures Settles(old(p.Rest()), Bufs(old(table)), p.Rest(), Bufs(table), Gather(OfHeader(), old(dmas[..])))
    {
      hide Pipe.Valid, Pipe.Rest, Gather, Bufs, TabledIn, MappedHeader, Walkable, Settles, OfHeader, Extends, NewIn;
      hide TakeAll, AllFine, HeaderWants, Collect;
      ghost var ds := dmas[..];
      TakeNone(p.list, p.attempts, Harvested(p), HeaderWants(), ds);
      NothingNew(table, p.live);
      NothingSettled(p.Rest(), Bufs(table), OfHeader(), ds);
      for i := 0 to dmas.Length
        invariant p.Valid() && Tabled(p) && old(table) <= table
        invariant Extends(old(p.live), p.live) && NewIn(old(table), old(p.live), table)
        invariant forall j :: 0 <= j < i ==>
          MappedHeader(p.live, AllFine(p.attempts, old(p.tried), p.tried), ds[j], dmas[j])
        invariant Harvested(p) == TakeAll(p.list, p.attempts, old(Harvested(p)), Collect(HeaderWants(), ds[..i]))
        invariant forall j :: i <= j < dmas.Length ==> dmas[j] == ds[j]
        invariant Settles(old(p.Rest()), Bufs(old(table)), p.Rest(), Bufs(table), Gather(OfHeader(), ds[..i]))
      {
        CanTake(old(p.Rest()), old(table), p.Rest(), table, OfHeader(), ds, i);
        ghost var rest, tab, live, tried := p.Rest(), table, p.live, p.tried;
        TakeNext(p.list, p.attempts, old(Harvested(p)), HeaderWants(), ds, i);
        var r := MapHeader(p, dmas[i]);
        NewOn(old(table), old(p.live), tab, live, table);
        ExtendsOn(old(p.live), live, p.live);
        dmas[i] := r;
        FineOn(p.attempts, old(p.tried), tried, p.tried);
        ghost var was, fine := AllFine(p.attempts, old(p.tried), tried), AllFine(p.attempts, old(p.tried), p.tried);
        forall j | 0 <= j < i ensures MappedHeader(p.live, fine, ds[j], dmas[j]) {
          HeaderStays(live, was, p.live, fine, ds[j], dmas[j]);
        }
        HeaderStays(p.live, AllFine(p.attempts, tried, p.tried), p.live, fine, ds[i], r);
        SettleNext(old(p.Rest()), Bufs(old(table)), rest, Bufs(tab), p.Rest(), Bufs(table), OfHeader(), ds, i);
      }
      assert ds[..dmas.Length] == ds;
    }

    /** One turn of the loop over the table. */
    method UnmapFirst(p: Pipe)
      requires p.Valid() && table != [] && p.Unlisted(table[0]) && table[0].buf in p.Rest()
      modifies this`table, p`refs, p`live
      ensures p.Valid() && table == old(table)[1..]
      ensures p.Rest() == old(p.Rest()) - multiset{old(table)[0].buf} && p.live == old(p.live) - {old(table)[0].att}
    {
      hide Pipe.Valid, Pipe.Rest, Pipe.Unlisted;
      p.Release(table[0]);
      table := table[1..];
    }

    /** `mtk_imgsys_iova_map_tbl_unmap_sd` */
    method Unmap(p: Pipe)
      requires p.Valid() && Tabled(p) && Bufs(table) <= p.Rest()
      modifies this`table, p`refs, p`live
      ensures p.Valid() && table == [] && p.Rest() == old(p.Rest()) - Bufs(old(table))
      ensures KeptBut(old(table), old(p.live), p.live) && Gone(old(table), p.live)
    {
      hide Pipe.Valid, Pipe.Rest, Gather, Bufs, KeptBut, Pipe.Unlisted, TabledIn, Gone;
      ghost var all, live := table, p.live;
      NothingUndone(all, live);
      assert all[..0] == [] && Bufs([]) == multiset{} && Gone([], live) by { NoEntries(live); }
      ghost var k := 0;
      while table != []
        invariant k <= |all| && table == all[k..] && p.Valid()
        invariant p.Rest() == old(p.Rest()) - Bufs(all[..k])
        invariant KeptBut(all, live, p.live) && Gone(all[..k], p.live)
        decreases |table|
      {
        var e := table[0];
        assert e == all[k];
        NextIsHeld(old(p.Rest()), all, k);
        TableUnlisted(p, all, live, e);
        DropUndoes(all, live, p.live, e);
        GoneNext(all, k, p.live);
        UnmapFirst(p);
        k := k + 1;
      }
      assert all[..k] == all;
    }

    lemma TableUnlisted(p: Pipe, all: seq<Entry>, live: map<nat, Mapping>, e: Entry)
      requires TabledIn(all, p.list, live) && e in all
      ensures p.Unlisted(e)
    {
    }
  }

  predicate TabledIn(table: seq<Entry>, list: seq<Entry>, live: map<nat, Mapping>) {
    && MapsLive(table, live)
    && forall e, x :: e in table && x in list ==> e.att != x.att
  }

  lemma ListedIsOwned(p: Pipe, e: Entry)
    requires p.Valid() && e in p.list
    ensures p.Owned(e)
  {
  }

  lemma UnlistedMeans(p: Pipe, e: Entry)
    requires p.Unlisted(e)
    ensures forall x :: x in p.list ==> x.att != e.att
  {
  }

  lemma TabledGrows(table: seq<Entry>, list: seq<Entry>, live: map<nat, Mapping>, live': map<nat, Mapping>)
    requires TabledIn(table, list, live) && Extends(live, live')
    ensures TabledIn(table, list, live')
  {
  }

  lemma NoteEntry(table: seq<Entry>, list: seq<Entry>, before: map<nat, Mapping>, live: map<nat, Mapping>, e: Entry)
    requires TabledIn(table, list, before) && Extends(before, live)
    requires e.att !in before && e.att in live && live[e.att] == Mapping(e.buf, e.addr)
    requires forall x :: x in list ==> x.att != e.att
    ensures TabledIn(table + [e], list, live) && Bufs(table + [e]) == Bufs(table) + multiset{e.buf}
  {
    BufsSnoc(table, e);
  }

  /** Between two moments, the references `done` have each been put or turned into table
      entries: what the request holds besides, and what its table holds, moved accordingly. */
  predicate Settles(rest0: multiset<Buf>, tab0: multiset<Buf>, rest: multiset<Buf>, tab: multiset<Buf>,
                    done: multiset<Buf>)
  {
    rest + tab0 + done == rest0 + tab
  }

  lemma NothingSettled<T>(rest: multiset<Buf>, tab: multiset<Buf>, f: T -> multiset<Buf>, s: seq<T>)
    ensures Settles(rest, tab, rest, tab, Gather(f, s[..0]))
  {
  }

  /** The references of the next element are still held. */
  lemma CanTake<T>(rest0: multiset<Buf>, tab0: seq<Entry>, rest: multiset<Buf>, tab: seq<Entry>,
                   f: T -> multiset<Buf>, s: seq<T>, k: nat)
    requires k < |s| && tab0 <= tab && Gather(f, s) <= rest0
    requires Settles(rest0, Bufs(tab0), rest, Bufs(tab), Gather(f, s[..k]))
    ensures f(s[k]) <= rest
  {
    GatherPrefix(f, s, k);
    assert tab == tab0 + tab[|tab0|..];
    GatherConcat(OfEntry(), tab0, tab[|tab0|..]);
    hide Gather;
    TakeArith(rest0, Bufs(tab0), rest, Bufs(tab[|tab0|..]), Gather(f, s[..k]), f(s[k]));
  }

  lemma TakeArith(rest0: multiset<Buf>, tab0: multiset<Buf>, rest: multiset<Buf>, more: multiset<Buf>,
                  done: multiset<Buf>, next: multiset<Buf>)
    requires done + next <= rest0 && rest + tab0 + done == rest0 + (tab0 + more)
    ensures next <= rest
  {
    forall b ensures next[b] <= rest[b] {
      assert (rest + tab0 + done)[b] == (rest0 + (tab0 + more))[b];
    }
  }

  lemma SettleNext<T>(rest0: multiset<Buf>, tab0: multiset<Buf>, rest1: multiset<Buf>, tab1: multiset<Buf>,
                      rest2: multiset<Buf>, tab2: multiset<Buf>, f: T -> multiset<Buf>, s: seq<T>, k: nat)
    requires k < |s|
    requires Settles(rest0, tab0, rest1, tab1, Gather(f, s[..k])) && Settles(rest1, tab1, rest2, tab2, f(s[k]))
    ensures Settles(rest0, tab0, rest2, tab2, Gather(f, s[..k + 1]))
  {
    GatherPrefix(f, s, k);
    SettleArith(rest0, tab0, rest1, tab1, rest2, tab2, Gather(f, s[..k]), f(s[k]));
  }

  lemma SettleArith(rest0: multiset<Buf>, tab0: multiset<Buf>, rest1: multiset<Buf>, tab1: multiset<Buf>,
                    rest2: multiset<Buf>, tab2: multiset<Buf>, done: multiset<Buf>, next: multiset<Buf>)
    requires Settles(rest0, tab0, rest1, tab1, done) && Settles(rest1, tab1, rest2, tab2, next)
    ensures Settles(rest0, tab0, rest2, tab2, done + next)
  {
    forall b ensures (rest2 + tab0 + (done + next))[b] == (rest0 + tab2)[b] {
      assert (rest1 + tab0 + done)[b] == (rest0 + tab1)[b];
      assert (rest2 + tab1 + next)[b] == (rest1 + tab2)[b];
    }
  }

  /** The control metadata has no dmas_enable row: all its frames count. */
  function EveryFrame(h: Header): Header { h.(enable := seq(|h.frames|, _ => true)) }

  lemma MetaShape(h: Header)
    requires WellShaped(h) && HeaderClear(h)
    ensures WellShaped(EveryFrame(h)) && HeaderClear(EveryFrame(h))
  {
  }

  lemma MetaFilled(files: seq<Option<Buf>>, h: Header)
    requires WellShaped(h) && HeaderClear(h)
    ensures var r := Filled(files, EveryFrame(h), true);
      HeaderClear(r) && r == EveryFrame(r) && OfHeader()(r) == multiset{}
  {
    var r := Filled(files, EveryFrame(h), true);
    forall t | 0 <= t < |r.frames| ensures NoneHeld(r.frames[t]) {
      assert h.frames[t] in h.frames;
      forall k | 0 <= k < |r.frames[t]| ensures !r.frames[t][k].reserved.Held? {
        assert h.frames[t][k] in h.frames[t];
      }
    }
    ClearIsEmpty(r);
  }

  lemma NoHeaders()
    ensures Gather(OfHeader(), []) == multiset{}
  {
  }

  lemma NoEntries(live: map<nat, Mapping>)
    ensures Bufs([]) == multiset{} && Gone([], live)
  {
  }

  /** The mappings of `es` are undone. */
  predicate Gone(es: seq<Entry>, live: map<nat, Mapping>) { forall e :: e in es ==> e.att !in live }

  lemma GoneNext(all: seq<Entry>, k: nat, live: map<nat, Mapping>)
    requires k < |all| && Gone(all[..k], live)
    ensures Gone(all[..k + 1], live - {all[k].att})
  {
    assert all[..k + 1] == all[..k] + [all[k]];
  }

  /** With the first `k` entries given back, the reference of the next is still held. */
  lemma NextIsHeld(rest: multiset<Buf>, all: seq<Entry>, k: nat)
    requires k < |all| && Bufs(all) <= rest
    ensures all[k].buf in rest - Bufs(all[..k])
    ensures rest - Bufs(all[..k]) - multiset{all[k].buf} == rest - Bufs(all[..k + 1])
  {
    hide Gather;
    GatherPrefix(OfEntry(), all, k);
  }

  /** A mapped header stays so as mappings are made and attempts fail. */
  lemma HeaderStays(live: map<nat, Mapping>, fine: bool, live': map<nat, Mapping>, fine': bool, h: Header, r: Header)
    requires MappedHeader(live, fine, h, r) && Extends(live, live') && (fine' ==> fine)
    ensures MappedHeader(live', fine', h, r)
  {
    forall t | 0 <= t < |h.frames| ensures MappedFrame(live', fine', h.frames[t], r.frames[t]) {
      FrameStays(live, fine, live', fine', h.frames[t], r.frames[t]);
    }
  }

  lemma FineOn(attempts: nat -> Attempt, a: nat, b: nat, c: nat)
    requires a <= b <= c
    ensures AllFine(attempts, a, c) <==> AllFine(attempts, a, b) && AllFine(attempts, b, c)
  {
  }

  lemma NothingTaken(list: seq<Entry>, attempts: nat -> Attempt, h: Harvest)
    ensures TakeAll(list, attempts, h, []) == h
  {
  }

  lemma TakeLast(rest0: multiset<Buf>, tab0: seq<Entry>, rest: multiset<Buf>, tab: seq<Entry>,
                 done: multiset<Buf>, next: multiset<Buf>)
    requires tab0 <= tab && done + next <= rest0 && Settles(rest0, Bufs(tab0), rest, Bufs(tab), done)
    ensures next <= rest
  {
    assert tab == tab0 + tab[|tab0|..];
    GatherConcat(OfEntry(), tab0, tab[|tab0|..]);
    hide Gather;
    TakeArith(rest0, Bufs(tab0), rest, Bufs(tab[|tab0|..]), done, next);
  }

  lemma FrameRefs(f: seq<Plane>)
    ensures OfFrame()(f) == Gather(OfPlane(), f)
  {
  }

  /** The entries beyond those of `tab` are mappings that were not there at `live`. */
  predicate NewIn(tab: seq<Entry>, live: map<nat, Mapping>, tab': seq<Entry>) {
    forall e :: e in tab' ==> e in tab || e.att !in live
  }

  lemma NothingNew(tab: seq<Entry>, live: map<nat, Mapping>)
    ensures NewIn(tab, live, tab) && Extends(live, live)
  {
  }

  lemma NewOn(tab: seq<Entry>, live: map<nat, Mapping>, tab1: seq<Entry>, live1: map<nat, Mapping>, tab2: seq<Entry>)
    requires NewIn(tab, live, tab1) && Extends(live, live1) && NewIn(tab1, live1, tab2)
    ensures NewIn(tab, live, tab2)
  {
  }

  lemma ExtendsOn(a: map<nat, Mapping>, b: map<nat, Mapping>, c: map<nat, Mapping>)
    requires Extends(a, b) && Extends(b, c)
    ensures Extends(a, c)
  {
  }

  /** A frame that holds nothing is as if mapped already. */
  lemma Unmoved(live: map<nat, Mapping>, fine: bool, f: seq<Plane>, rest: multiset<Buf>, tab: multiset<Buf>)
    requires NoneHeld(f)
    ensures MappedFrame(live, fine, f, f) && Settles(rest, tab, rest, tab, OfFrame()(f))
  {
    NoneHeldIsEmpty(f);
    forall k | 0 <= k < |f| ensures MappedPlane(live, fine, f[k], f[k]) { assert f[k] in f; }
  }

  lemma TailUnmoved(live: map<nat, Mapping>, fine: bool, h: Header, n: nat, fs: seq<seq<Plane>>)
    requires Walkable(h) && n == Used(h) && |fs| == |h.frames| && fs[n..] == h.frames[n..]
    requires forall j :: 0 <= j < n ==> MappedFrame(live, fine, h.frames[j], fs[j])
    ensures MappedHeader(live, fine, h, h.(frames := fs))
    ensures Gather(OfFrame(), h.frames[..n]) == OfHeader()(h)
  {
    hide NoneHeld, MappedFrame, OfFrame, Settles, Gather, Resolved;
    var tail := h.frames[n..];
    forall k | 0 <= k < |tail| ensures tail[k] == h.frames[n + k] == fs[n + k] && NoneHeld(tail[k]) {
      assert fs[n + k] == fs[n..][k];
    }
    forall t | n <= t < |h.frames| ensures MappedFrame(live, fine, h.frames[t], fs[t]) {
      assert tail[t - n] == h.frames[t] == fs[t];
      Unmoved(live, fine, h.frames[t], multiset{}, multiset{});
    }
    assert h.frames == h.frames[..n] + tail;
    GatherConcat(OfFrame(), h.frames[..n], tail);
    ClearFrames(tail);
  }

  lemma TailWants(h: Header, n: nat)
    requires Walkable(h) && n == Used(h)
    ensures Collect(FrameWants(), h.frames[..n]) == HeaderWants()(h)
  {
    hide Resolved, NoneHeld, FrameWants, Collect;
    var tail := h.frames[n..];
    forall k | 0 <= k < |tail| ensures NoneHeld(tail[k]) { assert tail[k] == h.frames[n + k]; }
    assert h.frames == h.frames[..n] + tail;
    TailWantsNothing(h.frames[..n], tail);
  }

  lemma {:induction false} TailWantsNothing(a: seq<seq<Plane>>, b: seq<seq<Plane>>)
    requires forall f :: f in b ==> NoneHeld(f)
    ensures Collect(FrameWants(), a + b) == Collect(FrameWants(), a)
  {
    hide NoneHeld, FrameWants;
    if b == [] {
      assert a + b == a;
    } else {
      var init := b[..|b| - 1];
      assert (a + b)[..|a + b| - 1] == a + init;
      TailWantsNothing(a, init);
      NoneWanted(b[|b| - 1]);
    }
  }

  lemma FrameStays(live: map<nat, Mapping>, fine: bool, live': map<nat, Mapping>, fine': bool,
                   f: seq<Plane>, g: seq<Plane>)
    requires MappedFrame(live, fine, f, g) && Extends(live, live') && (fine' ==> fine)
    ensures MappedFrame(live', fine', f, g)
  {
    forall k | 0 <= k < |f| ensures MappedPlane(live', fine', f[k], g[k]) {
      PlaneStays(live, fine, live', fine', f[k], g[k]);
    }
  }

  lemma PlaneStays(live: map<nat, Mapping>, fine: bool, live': map<nat, Mapping>, fine': bool, p: Plane, q: Plane)
    requires MappedPlane(live, fine, p, q) && (fine' ==> fine)
    requires forall att :: att in live ==> att in live' && live'[att] == live[att]
    ensures MappedPlane(live', fine', p, q)
  {
  }

  // ------------------------------------------------------------------ the whole life

  /** What may happen to the pipe between the phases of a request. */
  datatype PipeOp = Add(fds: seq<nat>) | Del(fds: seq<nat>) | CloseFd(fd: nat) | OpenFd(fd: nat, buf: Buf) | StopStream

  predicate Disjoint(a: seq<Entry>, b: seq<Entry>) { forall e, x :: e in a && x in b ==> e.att != x.att }

  /** A step that takes the cache from `list` to `list'`, the mappings from `live` to `live'` and
      one request's table from `mine` to `mine'` leaves every other table alone. */
  ghost predicate Spares(list: seq<Entry>, live: map<nat, Mapping>, mine: seq<Entry>,
                         list': seq<Entry>, live': map<nat, Mapping>, mine': seq<Entry>)
  {
    forall t: seq<Entry> :: TabledIn(t, list, live) && Disjoint(t, mine) ==>
      TabledIn(t, list', live') && Disjoint(t, mine')
  }

  lemma AddSpares(list: seq<Entry>, live: map<nat, Mapping>, list': seq<Entry>, live': map<nat, Mapping>)
    requires Extends(live, live') && list <= list'
    requires forall k :: |list| <= k < |list'| ==> list'[k].att !in live
    ensures Spares(list, live, [], list', live', [])
  {
  }

  lemma DelSpares(list: seq<Entry>, live: map<nat, Mapping>, list': seq<Entry>, live': map<nat, Mapping>)
    requires KeptBut(list, live, live') && forall x :: x in list' ==> x in list
    ensures Spares(list, live, [], list', live', [])
  {
  }

  lemma NothingSpares(list: seq<Entry>, live: map<nat, Mapping>)
    ensures Spares(list, live, [], list, live, [])
  {
  }

  lemma MapSpares(list: seq<Entry>, live: map<nat, Mapping>, live': map<nat, Mapping>, mine': seq<Entry>)
    requires Extends(live, live') && NewIn([], live, mine')
    ensures Spares(list, live, [], list, live', mine')
  {
  }

  lemma UnmapSpares(list: seq<Entry>, live: map<nat, Mapping>, mine: seq<Entry>, live': map<nat, Mapping>)
    requires KeptBut(mine, live, live')
    ensures Spares(list, live, mine, list, live', [])
  {
  }

  lemma Spared(list: seq<Entry>, live: map<nat, Mapping>, mine: seq<Entry>,
               list': seq<Entry>, live': map<nat, Mapping>, mine': seq<Entry>, t: seq<Entry>)
    requires Spares(list, live, mine, list', live', mine') && TabledIn(t, list, live) && Disjoint(t, mine)
    ensures TabledIn(t, list', live') && Disjoint(t, mine')
  {
  }

  /** Nothing else done to the cache or the descriptors touches a request's references or its
      mappings. */
  method OneOp(p: Pipe, op: PipeOp)
    requires p.Valid()
    modifies p, p.hash
    ensures p.Valid() && p.Rest() == old(p.Rest())
    ensures Spares(old(p.list), old(p.live), [], p.list, p.live, [])
  {
    hide Pipe.Valid, Pipe.Rest, KeptBut, Extends, KeepAll, Spares;
    ghost var list, live := p.list, p.live;
    NothingSpares(list, live);
    match op
    case Add(fds) =>
      var ok := p.AddIova(fds);
      AddSpares(list, live, p.list, p.live);
    case Del(fds) =>
      KeepAllHas(p.files, p.list, fds);
      var ok := p.DelIova(fds);
      DelSpares(list, live, p.list, p.live);
    case CloseFd(fd) =>
      if fd < |p.files| && p.files[fd].Some? { p.Close(fd); }
    case OpenFd(fd, b) =>
      if fd < |p.files| && p.files[fd].None? { p.Open(fd, b); }
    case StopStream =>
      p.StreamOff();
      DelSpares(list, live, p.list, p.live);
  }

  /** Right after a descriptor is added, with attach and map succeeding, the request finds it in the
      cache, and maps nothing of its own. */
  method AddThenGet(p: Pipe, d: DevBuf, fds: seq<nat>, i: nat) returns (addr: nat, ok: bool)
    requires p.Valid() && d.Tabled(p) && i < |fds| <= 32
    requires 0 < fds[i] < |p.files| && p.files[fds[i]].Some?
    requires var a := p.attempts(p.tried + Tries(p.files, fds[..i])); a.attachOk && a.mapOk
    modifies p, p.hash, d`table
    ensures p.Valid() && p.Rest() == old(p.Rest())
    ensures ok && d.table == old(d.table)
    ensures exists e :: e in p.list && e.fd == fds[i] && Some(e.buf) == old(p.files[fds[i]]) && addr == e.addr
    ensures p.tried == old(p.tried) + Tries(p.files, fds) && p.files == old(p.files)
  {
    hide Pipe.Valid, Pipe.Rest, TabledIn, Bufs, Spares, Settles, EntryFor;
    ghost var list, live, h := p.list, p.live, Harvest(p.list, p.tried, p.next);
    var _ := p.AddIova(fds);
    AddSpares(list, live, p.list, p.live);
    Spared(list, live, [], p.list, p.live, [], d.table);
    HasEntry(p.files, p.attempts, fds, h, p.list, i);
    ghost var rest := p.Rest();
    var b := p.Get(fds[i]);
    addr, ok := d.GetIova(p, fds[i], b.value);
    BackAgain(rest, Bufs(d.table), p.Rest(), multiset{b.value});
  }

  lemma HasEntry(files: seq<Option<Buf>>, attempts: nat -> Attempt, fds: seq<nat>, h: Harvest, list: seq<Entry>, i: nat)
    requires i < |fds| && EntryFor(files, attempts, fds, h, list, i) && Resolves(files, fds[i])
    requires Succeeds(attempts, h.tried + Tries(files, fds[..i]))
    ensures exists e :: e in list && e.fd == fds[i] && e.buf == files[fds[i]].value
  {
  }

  lemma BackAgain(rest: multiset<Buf>, tab: multiset<Buf>, rest': multiset<Buf>, one: multiset<Buf>)
    requires Settles(rest + one, tab, rest', tab, one)
    ensures rest' == rest
  {
    forall b ensures rest'[b] == rest[b] { assert (rest' + tab + one)[b] == (rest + one + tab)[b]; }
  }

  method Interfere(p: Pipe, d: DevBuf, ops: seq<PipeOp>)
    requires p.Valid() && d.Tabled(p)
    modifies p, p.hash
    ensures p.Valid() && p.Rest() == old(p.Rest()) && d.Tabled(p)
  {
    hide Pipe.Valid, Pipe.Rest, TabledIn, Spares;
    for i := 0 to |ops|
      invariant p.Valid() && p.Rest() == old(p.Rest()) && d.Tabled(p)
    {
      ghost var list, live := p.list, p.live;
      OneOp(p, ops[i]);
      Spared(list, live, [], p.list, p.live, [], d.table);
    }
  }

  /** Reference balance: whatever the descriptor tree and the cache hold, whichever attaches and
      maps fail, and whatever else happens to the pipe in between, a request filled, mapped
      and unmapped leaves exactly the references it found; while it runs, the extra ones are
      those of its table, `during`. */
  method Serve(p: Pipe, d: DevBuf, before: seq<PipeOp>, after: seq<PipeOp>)
    returns (ghost during: seq<Entry>, ghost rest: multiset<Buf>)
    requires p.Valid() && d.Shaped() && d.Clear() && d.table == []
    modifies p, p.hash, d, d.dmas
    ensures p.Valid() && p.Rest() == old(p.Rest()) && d.table == []
    ensures rest == old(p.Rest()) + Bufs(during)
    ensures Gone(during, p.live)
    ensures p.files == old(p.files) && p.list == old(p.list) ==> p.refs == old(p.refs)
  {
    hide Pipe.Valid, Pipe.Rest, TabledIn, Bufs, Walkable, MappedHeader, Settles, HeaderClear, WellShaped, Filled,
         KeptBut, Gather, EveryFrame, DevBuf.HeldBy;
    FirstLast(p);
    ghost var rest0 := p.Rest();
    FillWalks(d, p.files);
    d.Configure(p);
    EmptyTable(d, p);
    Interfere(p, d, before);
    ghost var held, rest1 := d.HeldBy(), p.Rest();
    d.MapIova(p);
    during, rest := d.table, p.Rest();
    Cancel(rest0, held, rest, Bufs(during));
    Interfere(p, d, after);
    d.Unmap(p);
    FirstLast(p);
  }

  lemma EmptyTable(d: DevBuf, p: Pipe)
    requires d.table == []
    ensures d.Tabled(p) && Bufs(d.table) == multiset{}
  {
  }

  lemma FillWalks(d: DevBuf, files: seq<Option<Buf>>)
    requires d.Shaped() && d.Clear()
    ensures Walkable(Filled(files, d.tuning, false))
    ensures forall i :: 0 <= i < d.dmas.Length ==> Walkable(Filled(files, d.dmas[i], false))
  {
    hide Filled, Walkable, HeaderClear, WellShaped;
    FilledIsWalkable(files, d.tuning);
    forall i | 0 <= i < d.dmas.Length ensures Walkable(Filled(files, d.dmas[i], false)) {
      FilledIsWalkable(files, d.dmas[i]);
    }
  }

  lemma Cancel(rest0: multiset<Buf>, held: multiset<Buf>, rest: multiset<Buf>, tab: multiset<Buf>)
    requires Settles(rest0 + held, multiset{}, rest, tab, held)
    ensures rest == rest0 + tab && rest - tab == rest0
  {
    forall b ensures rest[b] == (rest0 + tab)[b] {
      assert (rest + multiset{} + held)[b] == (rest0 + held + tab)[b];
    }
  }

  lemma FirstLast(p: Pipe)
    requires p.Valid()
    ensures p.refs == p.Rest() + (FileRefs(p.files) + Bufs(p.list))
  {
  }

  // ------------------------------------------------------------------- many requests

  /** Where a request is: not yet queued, filled, mapped, or unmapped. */
  datatype Phase = Idle | Holding | Running | Over

  function NextPhase(ph: Phase): Phase {
    match ph
    case Idle => Holding
    case Holding => Running
    case _ => Over
  }

  /** What may happen next: something to the pipe, or the next phase of a request. */
  datatype Event = Other(op: PipeOp) | Advance(i: nat)

  /** Where request `i` is after `events`. */
  function PhaseAfter(events: seq<Event>, i: nat): Phase {
    if events == [] then Idle
    else
      var ph := PhaseAfter(events[..|events| - 1], i);
      if events[|events| - 1] == Advance(i) then NextPhase(ph) else ph
  }

  /** The references a request holds in its phase, the pipe's list and mappings being given. */
  ghost predicate InPhase(list: seq<Entry>, live: map<nat, Mapping>, d: DevBuf, ph: Phase, share: multiset<Buf>)
    reads d, d.dmas
  {
    match ph
    case Idle => d.Shaped() && d.Clear() && d.table == [] && share == multiset{}
    case Holding =>
      && d.table == [] && share == d.HeldBy() && HeaderClear(d.meta)
      && Walkable(d.tuning) && (forall i :: 0 <= i < d.dmas.Length ==> Walkable(d.dmas[i]))
    case Running => TabledIn(d.table, list, live) && share == Bufs(d.table)
    case Over => d.table == [] && share == multiset{}
  }

  method Queue(p: Pipe, d: DevBuf) returns (ghost share: multiset<Buf>)
    requires p.Valid() && InPhase(p.list, p.live, d, Idle, multiset{})
    modifies p`refs, d, d.dmas
    ensures p.Valid() && InPhase(p.list, p.live, d, Holding, share) && p.Rest() == old(p.Rest()) + share
  {
    hide Pipe.Valid, Pipe.Rest, Walkable, HeaderClear, WellShaped, Filled, EveryFrame, DevBuf.HeldBy;
    FillWalks(d, p.files);
    d.Configure(p);
    share := d.HeldBy();
  }

  method Start(p: Pipe, d: DevBuf, ghost held: multiset<Buf>) returns (ghost share: multiset<Buf>)
    requires p.Valid() && InPhase(p.list, p.live, d, Holding, held) && held <= p.Rest()
    modifies p, d, d.dmas
    ensures p.Valid() && InPhase(p.list, p.live, d, Running, share) && p.Rest() + held == old(p.Rest()) + share
    ensures Spares(old(p.list), old(p.live), [], p.list, p.live, d.table)
  {
    hide Pipe.Valid, Pipe.Rest, TabledIn, Bufs, Walkable, MappedHeader, HeaderClear, Gather, DevBuf.HeldBy;
    hide Spares, NewIn, Extends;
    EmptyTable(d, p);
    d.MapIova(p);
    share := Bufs(d.table);
    MapSpares(p.list, old(p.live), p.live, d.table);
  }

  method Finish(p: Pipe, d: DevBuf, ghost share: multiset<Buf>)
    requires p.Valid() && InPhase(p.list, p.live, d, Running, share) && share <= p.Rest()
    modifies p, d
    ensures p.Valid() && InPhase(p.list, p.live, d, Over, multiset{}) && p.Rest() == old(p.Rest()) - share
    ensures Spares(old(p.list), old(p.live), old(d.table), p.list, p.live, [])
  {
    hide Pipe.Valid, Pipe.Rest, TabledIn, Bufs, Spares, KeptBut;
    d.Unmap(p);
    UnmapSpares(p.list, old(p.live), old(d.table), p.live);
  }

  /** The next phase of one request. */
  method Progress(p: Pipe, d: DevBuf, ph: Phase, ghost share: multiset<Buf>)
    returns (ph': Phase, ghost share': multiset<Buf>)
    requires p.Valid() && InPhase(p.list, p.live, d, ph, share) && share <= p.Rest()
    modifies p, d, d.dmas
    ensures p.Valid() && InPhase(p.list, p.live, d, ph', share') && p.Rest() + share == old(p.Rest()) + share'
    ensures Spares(old(p.list), old(p.live), old(d.table), p.list, p.live, d.table)
    ensures ph' == NextPhase(ph)
  {
    hide Pipe.Valid, Pipe.Rest, Spares, Bufs, TabledIn, Walkable, HeaderClear, DevBuf.HeldBy;
    NothingSpares(p.list, p.live);
    match ph
    case Idle =>
      share' := Queue(p, d);
      ph' := Holding;
    case Holding =>
      share' := Start(p, d, share);
      ph' := Running;
    case Running =>
      Finish(p, d, share);
      ph', share' := Over, multiset{};
    case Over =>
      ph', share' := Over, multiset{};
  }

  function Own(): multiset<Buf> -> multiset<Buf> { (m: multiset<Buf>) => m }

  /** Every request is in its phase, with its own mappings. */
  ghost predicate World(list: seq<Entry>, live: map<nat, Mapping>,
                        ds: seq<DevBuf>, phase: seq<Phase>, shares: seq<multiset<Buf>>)
    requires |phase| == |shares| == |ds|
    reads set d | d in ds, set d | d in ds :: d.dmas
  {
    && (forall i :: 0 <= i < |ds| ==> InPhase(list, live, ds[i], phase[i], shares[i]))
    && (forall i, j :: 0 <= i < |ds| && 0 <= j < |ds| && i != j ==> Disjoint(ds[i].table, ds[j].table))
  }

  ghost predicate Apart(ds: seq<DevBuf>) {
    forall i, j :: 0 <= i < |ds| && 0 <= j < |ds| && i != j ==> ds[i] != ds[j] && ds[i].dmas != ds[j].dmas
  }

  lemma SparedPhase(list: seq<Entry>, live: map<nat, Mapping>, mine: seq<Entry>,
                    list': seq<Entry>, live': map<nat, Mapping>, mine': seq<Entry>,
                    d: DevBuf, ph: Phase, share: multiset<Buf>)
    requires Spares(list, live, mine, list', live', mine')
    requires InPhase(list, live, d, ph, share) && Disjoint(d.table, mine)
    ensures InPhase(list', live', d, ph, share) && Disjoint(d.table, mine') && Disjoint(mine', d.table)
  {
    hide Bufs, Walkable, HeaderClear, Spares, TabledIn;
    if ph == Running {
      Spared(list, live, mine, list', live', mine', d.table);
    }
  }

  /** The next phase of request `i`, among the others. */
  method ProgressOne(p: Pipe, ds: seq<DevBuf>, i: nat, phase: seq<Phase>, ghost shares: seq<multiset<Buf>>)
    returns (phase': seq<Phase>, ghost shares': seq<multiset<Buf>>)
    requires i < |ds| == |phase| == |shares| && Apart(ds)
    requires p.Valid() && World(p.list, p.live, ds, phase, shares) && shares[i] <= p.Rest()
    modifies p, ds[i], ds[i].dmas
    ensures p.Valid() && |phase'| == |shares'| == |ds| && World(p.list, p.live, ds, phase', shares')
    ensures shares' == shares[i := shares'[i]] && p.Rest() + shares[i] == old(p.Rest()) + shares'[i]
    ensures phase' == phase[i := NextPhase(phase[i])]
  {
    hide Pipe.Valid, Pipe.Rest, Spares, InPhase, Disjoint;
    ghost var list, live, mine := p.list, p.live, ds[i].table;
    var ph;
    ghost var share;
    ph, share := Progress(p, ds[i], phase[i], shares[i]);
    phase', shares' := phase[i := ph], shares[i := share];
    forall j | 0 <= j < |ds| && j != i
      ensures InPhase(p.list, p.live, ds[j], phase[j], shares[j])
      ensures Disjoint(ds[j].table, ds[i].table) && Disjoint(ds[i].table, ds[j].table)
    {
      assert ds[j] != ds[i] && ds[j].dmas != ds[i].dmas;
      SparedPhase(list, live, mine, p.list, p.live, ds[i].table, ds[j], phase[j], shares[j]);
    }
  }

  /** Something done to the pipe, among the requests. */
  method PipeEvent(p: Pipe, op: PipeOp, ds: seq<DevBuf>, ghost phase: seq<Phase>, ghost shares: seq<multiset<Buf>>)
    requires |ds| == |phase| == |shares| && p.Valid() && World(p.list, p.live, ds, phase, shares)
    modifies p, p.hash
    ensures p.Valid() && World(p.list, p.live, ds, phase, shares) && p.Rest() == old(p.Rest())
  {
    hide Pipe.Valid, Pipe.Rest, Spares, InPhase;
    ghost var list, live := p.list, p.live;
    OneOp(p, op);
    forall j | 0 <= j < |ds| ensures InPhase(p.list, p.live, ds[j], phase[j], shares[j]) {
      SparedPhase(list, live, [], p.list, p.live, [], ds[j], phase[j], shares[j]);
    }
  }

  /** One event. */
  method Happen(p: Pipe, ds: seq<DevBuf>, event: Event, phase: seq<Phase>,
                ghost shares: seq<multiset<Buf>>, ghost base: multiset<Buf>)
    returns (phase': seq<Phase>, ghost shares': seq<multiset<Buf>>)
    requires p.Valid() && Apart(ds) && |phase| == |shares| == |ds| && World(p.list, p.live, ds, phase, shares)
    requires p.Rest() == base + Gather(Own(), shares)
    modifies p, p.hash, set d | d in ds, set d | d in ds :: d.dmas
    ensures p.Valid() && |phase'| == |shares'| == |ds| && World(p.list, p.live, ds, phase', shares')
    ensures p.Rest() == base + Gather(Own(), shares')
    ensures forall i :: 0 <= i < |ds| ==> phase'[i] == if event == Advance(i) then NextPhase(phase[i]) else phase[i]
  {
    hide Pipe.Valid, Pipe.Rest, Gather, World, NextPhase;
    phase', shares' := phase, shares;
    match event {
      case Other(op) =>
        PipeEvent(p, op, ds, phase, shares);
      case Advance(i) =>
        if i < |ds| {
          ghost var rest := p.Rest();
          GatherUpdate(Own(), shares, i, multiset{});
          phase', shares' := ProgressOne(p, ds, i, phase, shares);
          GatherUpdate(Own(), shares, i, shares'[i]);
          ShareMoves(base, Gather(Own(), shares), rest, p.Rest(), shares[i], shares'[i]);
        }
    }
  }

  /** Any number of requests filled, mapped and unmapped in any interleaving, with anything else
      done to the pipe in between: at every moment the references beyond those found are those
      the requests hold, and each running request has its own live mappings; so when all are
      over, exactly the references found are left. */
  method ServeAll(p: Pipe, ds: seq<DevBuf>, events: seq<Event>)
    returns (phase: seq<Phase>, ghost shares: seq<multiset<Buf>>)
    requires p.Valid() && Apart(ds) && forall d :: d in ds ==> d.Shaped() && d.Clear() && d.table == []
    modifies p, p.hash, set d | d in ds, set d | d in ds :: d.dmas
    ensures p.Valid() && |phase| == |shares| == |ds| && World(p.list, p.live, ds, phase, shares)
    ensures p.Rest() == old(p.Rest()) + Gather(Own(), shares)
    ensures forall i :: 0 <= i < |ds| ==> phase[i] == PhaseAfter(events, i)
    ensures (forall i :: 0 <= i < |ds| ==> phase[i] == Over || phase[i] == Idle) ==>
      && p.Rest() == old(p.Rest())
      && (p.files == old(p.files) && p.list == old(p.list) ==> p.refs == old(p.refs))
  {
    hide Pipe.Valid, Pipe.Rest, Gather, World, NextPhase;
    FirstLast(p);
    phase, shares := seq(|ds|, _ => Idle), seq(|ds|, _ => multiset{});
    NoShares(shares);
    StartsIdle(p.list, p.live, ds, phase, shares);
    for k := 0 to |events|
      invariant p.Valid() && |phase| == |shares| == |ds| && World(p.list, p.live, ds, phase, shares)
      invariant p.Rest() == old(p.Rest()) + Gather(Own(), shares)
      invariant forall i :: 0 <= i < |ds| ==> phase[i] == PhaseAfter(events[..k], i)
    {
      assert events[..k + 1][..k] == events[..k];
      phase, shares := Happen(p, ds, events[k], phase, shares, old(p.Rest()));
    }
    assert events[..|events|] == events;
    FirstLast(p);
    if forall i :: 0 <= i < |ds| ==> phase[i] == Over || phase[i] == Idle {
      AllSettled(p.list, p.live, ds, phase, shares);
    }
  }

  lemma ShareMoves(base: multiset<Buf>, all: multiset<Buf>, rest: multiset<Buf>, rest': multiset<Buf>,
                   share: multiset<Buf>, share': multiset<Buf>)
    requires rest == base + all && share <= all && rest' + share == rest + share'
    ensures rest' == base + (all - share + share')
  {
    forall b ensures rest'[b] == (base + (all - share + share'))[b] {
      assert (rest' + share)[b] == (rest + share')[b];
    }
  }

  lemma {:induction false} NoShares(shares: seq<multiset<Buf>>)
    requires forall i :: 0 <= i < |shares| ==> shares[i] == multiset{}
    ensures Gather(Own(), shares) == multiset{}
  {
    if shares != [] { NoShares(shares[..|shares| - 1]); }
  }

  lemma StartsIdle(list: seq<Entry>, live: map<nat, Mapping>,
                   ds: seq<DevBuf>, phase: seq<Phase>, shares: seq<multiset<Buf>>)
    requires |phase| == |shares| == |ds| && forall d :: d in ds ==> d.Shaped() && d.Clear() && d.table == []
    requires forall i :: 0 <= i < |ds| ==> phase[i] == Idle && shares[i] == multiset{}
    ensures World(list, live, ds, phase, shares)
  {
    hide DevBuf.Shaped, DevBuf.Clear;
    forall i | 0 <= i < |ds| ensures InPhase(list, live, ds[i], phase[i], shares[i]) && ds[i].table == [] {
      assert ds[i] in ds;
    }
  }

  /** When every request is over or not begun, exactly the references found are left. */
  lemma AllSettled(list: seq<Entry>, live: map<nat, Mapping>,
                   ds: seq<DevBuf>, phase: seq<Phase>, shares: seq<multiset<Buf>>)
    requires |phase| == |shares| == |ds| && World(list, live, ds, phase, shares)
    requires forall i :: 0 <= i < |ds| ==> phase[i] == Over || phase[i] == Idle
    ensures Gather(Own(), shares) == multiset{}
  {
    hide Gather;
    assert forall i :: 0 <= i < |ds| ==> InPhase(list, live, ds[i], phase[i], shares[i]);
    NoShares(shares);
  }
}
