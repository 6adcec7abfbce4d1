/** The iova cache of a pipe, over an abstract dma-buf service.

    The service keeps a count of references per buffer, a file table whose entries own a
    reference each, and the set of live mappings.  Closing a descriptor and opening it on
    another buffer is allowed at any time; attach and map may fail at any time: `attempts` says
    how each one turns out, in the order they are made, and what address it gives.

    The cache is a list and a hash over the same entries.  An entry names a descriptor, a buffer
    and an address, owns a reference to the buffer, and has a live mapping of its own; it is
    found again only under its own descriptor and buffer, so a descriptor opened on another
    buffer never hits it. */
module IovaCache {
  import opened Tally
  import opened Options

  type Buf = nat

  datatype Mapping = Mapping(buf: Buf, addr: nat)

  /** How one attach-and-map attempt turns out. */
  datatype Attempt = Attempt(attachOk: bool, mapOk: bool, addr: nat)

  /** `mtk_imgsys_dma_buf_iova_get_info`; `att` names the attachment with its mapping. */
  datatype Entry = Entry(fd: nat, buf: Buf, addr: nat, att: nat)

  /** The cache list, the attempts made and the attachments named so far. */
  datatype Harvest = Harvest(list: seq<Entry>, tried: nat, next: nat)

  predicate Succeeds(attempts: nat -> Attempt, t: nat) { attempts(t).attachOk && attempts(t).mapOk }

  /** One attempt: an entry if attach and map succeed. */
  function TryOne(attempts: nat -> Attempt, h: Harvest, fd: nat, buf: Buf): Harvest {
    if Succeeds(attempts, h.tried)
    then Harvest(h.list + [Entry(fd, buf, attempts(h.tried).addr, h.next)], h.tried + 1, h.next + 1)
    else h.(tried := h.tried + 1)
  }

  /** A descriptor that resolves to a buffer, whose attach and map succeed, gets an entry. */
  function AddedOne(files: seq<Option<Buf>>, attempts: nat -> Attempt, h: Harvest, fd: nat): Harvest {
    if fd == 0 || fd >= |files| || files[fd].None? then h else TryOne(attempts, h, fd, files[fd].value)
  }

  function AddedAll(files: seq<Option<Buf>>, attempts: nat -> Attempt, h: Harvest, fds: seq<nat>): Harvest {
    if fds == [] then h
    else AddedOne(files, attempts, AddedAll(files, attempts, h, fds[..|fds| - 1]), fds[|fds| - 1])
  }

  // ------------------------------------------------------------- what adding descriptors does

  predicate Resolves(files: seq<Option<Buf>>, fd: nat) { fd != 0 && fd < |files| && files[fd].Some? }

  /** How many of the descriptors resolve, so that an attempt is made for them. */
  function Tries(files: seq<Option<Buf>>, fds: seq<nat>): nat {
    if fds == [] then 0
    else Tries(files, fds[..|fds| - 1]) + if Resolves(files, fds[|fds| - 1]) then 1 else 0
  }

  /** How many of those attempts, numbered from `t`, succeed. */
  function Gains(files: seq<Option<Buf>>, attempts: nat -> Attempt, t: nat, fds: seq<nat>): nat {
    if fds == [] then 0
    else
      var init, fd := fds[..|fds| - 1], fds[|fds| - 1];
      Gains(files, attempts, t, init)
      + if Resolves(files, fd) && Succeeds(attempts, t + Tries(files, init)) then 1 else 0
  }

  /** If the attempt for descriptor `i` succeeds, its entry has the place that the successes before it
      leave, and holds the descriptor, its buffer and the attempt's address. */
  predicate EntryFor(files: seq<Option<Buf>>, attempts: nat -> Attempt, fds: seq<nat>, h: Harvest,
                     list: seq<Entry>, i: nat)
    requires i < |fds|
  {
    var t, g := h.tried + Tries(files, fds[..i]), Gains(files, attempts, h.tried, fds[..i]);
    Resolves(files, fds[i]) && Succeeds(attempts, t) ==>
      && |h.list| + g < |list|
      && list[|h.list| + g] == Entry(fds[i], files[fds[i]].value, attempts(t).addr, h.next + g)
  }

  /** From `h` to `h'`: an attempt for each descriptor that resolves, and for each attempt that succeeds
      its entry, in order, and no others. */
  predicate AddsExactly(files: seq<Option<Buf>>, attempts: nat -> Attempt, fds: seq<nat>, h: Harvest, h': Harvest) {
    var g := Gains(files, attempts, h.tried, fds);
    && h'.tried == h.tried + Tries(files, fds) && h'.next == h.next + g
    && h.list <= h'.list && |h'.list| == |h.list| + g
    && forall i :: 0 <= i < |fds| ==> EntryFor(files, attempts, fds, h, h'.list, i)
  }

  lemma EntryStays(files: seq<Option<Buf>>, attempts: nat -> Attempt, fds: seq<nat>, h: Harvest,
                   list: seq<Entry>, list': seq<Entry>, i: nat)
    requires i < |fds| - 1 && list <= list' && EntryFor(files, attempts, fds[..|fds| - 1], h, list, i)
    ensures EntryFor(files, attempts, fds, h, list', i)
  {
    assert fds[..|fds| - 1][..i] == fds[..i];
  }

  lemma {:induction false} AddedExactly(files: seq<Option<Buf>>, attempts: nat -> Attempt, h: Harvest, fds: seq<nat>)
    ensures AddsExactly(files, attempts, fds, h, AddedAll(files, attempts, h, fds))
  {
    if fds != [] {
      var n := |fds| - 1;
      var h1, h' := AddedAll(files, attempts, h, fds[..n]), AddedAll(files, attempts, h, fds);
      AddedExactly(files, attempts, h, fds[..n]);
      forall i | 0 <= i < |fds| ensures EntryFor(files, attempts, fds, h, h'.list, i) {
        if i < n { EntryStays(files, attempts, fds, h, h1.list, h'.list, i); }
      }
    }
  }

  // ------------------------------------------------------------------ counting references

  function OfEntry(): Entry -> multiset<Buf> { (e: Entry) => multiset{e.buf} }

  function OfFile(): Option<Buf> -> multiset<Buf> {
    (f: Option<Buf>) => if f.Some? then multiset{f.value} else multiset{}
  }

  function Bufs(es: seq<Entry>): multiset<Buf> { Gather(OfEntry(), es) }

  function FileRefs(files: seq<Option<Buf>>): multiset<Buf> { Gather(OfFile(), files) }

  // ------------------------------------------------------------------------- the lists

  function Without(s: seq<Entry>, e: Entry): seq<Entry> {
    if s == [] then []
    else Without(s[..|s| - 1], e) + (if s[|s| - 1] == e then [] else [s[|s| - 1]])
  }

  /** The entries that stay when descriptor `fd`, open on `buf`, is dropped from the cache. */
  function Keep(s: seq<Entry>, fd: nat, buf: Buf): seq<Entry> {
    if s == [] then []
    else Keep(s[..|s| - 1], fd, buf) + (if Matches(s[|s| - 1], fd, buf) then [] else [s[|s| - 1]])
  }

  predicate Matches(e: Entry, fd: nat, buf: Buf) { e.fd == fd || e.buf == buf }

  /** What one hash bucket holds: the entries of the list that fall in it, newest first. */
  function InBucket(h: nat -> nat, s: seq<Entry>, b: nat): seq<Entry> {
    if s == [] then []
    else (if h(s[|s| - 1].fd) == b then [s[|s| - 1]] else []) + InBucket(h, s[..|s| - 1], b)
  }

  function Buckets(h: nat -> nat, n: nat, s: seq<Entry>): (r: seq<seq<Entry>>)
    ensures |r| == n && forall b :: 0 <= b < n ==> r[b] == InBucket(h, s, b)
  {
    seq(n, b requires 0 <= b < n => InBucket(h, s, b))
  }

  predicate Distinct(s: seq<Entry>) {
    forall i, j :: 0 <= i < j < |s| ==> s[i].att != s[j].att
  }

  lemma {:induction false} WithoutHas(s: seq<Entry>, e: Entry)
    ensures forall x :: x in Without(s, e) <==> x in s && x != e
  {
    if s != [] {
      WithoutHas(s[..|s| - 1], e);
      assert s == s[..|s| - 1] + [s[|s| - 1]];
    }
  }

  lemma {:induction false} KeepHas(s: seq<Entry>, fd: nat, buf: Buf)
    ensures forall x :: x in Keep(s, fd, buf) <==> x in s && !Matches(x, fd, buf)
  {
    if s != [] {
      KeepHas(s[..|s| - 1], fd, buf);
      assert s == s[..|s| - 1] + [s[|s| - 1]];
    }
  }

  lemma {:induction false} InBucketHas(h: nat -> nat, s: seq<Entry>, b: nat)
    ensures forall x :: x in InBucket(h, s, b) <==> x in s && h(x.fd) == b
  {
    if s != [] {
      InBucketHas(h, s[..|s| - 1], b);
      assert s == s[..|s| - 1] + [s[|s| - 1]];
    }
  }

  lemma {:induction false} WithoutCons(x: Entry, t: seq<Entry>, e: Entry)
    ensures Without([x] + t, e) == (if x == e then [] else [x]) + Without(t, e)
  {
    if t == [] {
      assert [x] + t == [x] && [x][..0] == [];
    } else {
      assert ([x] + t)[..|t|] == [x] + t[..|t| - 1];
      WithoutCons(x, t[..|t| - 1], e);
    }
  }

  lemma BucketSnoc(h: nat -> nat, s: seq<Entry>, e: Entry, b: nat)
    ensures InBucket(h, s + [e], b) == (if h(e.fd) == b then [e] else []) + InBucket(h, s, b)
  {
    assert (s + [e])[..|s|] == s;
  }

  lemma WithoutSnoc(s: seq<Entry>, x: Entry, e: Entry)
    ensures Without(s + [x], e) == if x == e then Without(s, e) else Without(s, e) + [x]
  {
    assert (s + [x])[..|s|] == s;
  }

  lemma NothingListed(h: nat -> nat, e: Entry, b: nat)
    ensures Without([], e) == [] && InBucket(h, [], b) == [] && Bufs([]) == multiset{}
  {
  }

  lemma {:induction false} BucketWithout(h: nat -> nat, s: seq<Entry>, b: nat, e: Entry)
    ensures InBucket(h, Without(s, e), b) ==
      if h(e.fd) == b then Without(InBucket(h, s, b), e) else InBucket(h, s, b)
  {
    hide Without, InBucket;
    NothingListed(h, e, b);
    if s != [] {
      var init, x := s[..|s| - 1], s[|s| - 1];
      assert s == init + [x];
      var rest := InBucket(h, init, b);
      BucketWithout(h, init, b, e);
      BucketSnoc(h, init, x, b);
      WithoutSnoc(init, x, e);
      BucketSnoc(h, Without(init, e), x, b);
      if h(x.fd) == b {
        WithoutCons(x, rest, e);
      } else {
        assert [] + rest == rest;
      }
      assert [] + Without(rest, e) == Without(rest, e);
    }
  }

  lemma BucketsInsert(h: nat -> nat, n: nat, s: seq<Entry>, e: Entry)
    requires h(e.fd) < n
    ensures Buckets(h, n, s + [e]) == Buckets(h, n, s)[h(e.fd) := [e] + Buckets(h, n, s)[h(e.fd)]]
  {
    hide InBucket;
    var l, r := Buckets(h, n, s + [e]), Buckets(h, n, s)[h(e.fd) := [e] + Buckets(h, n, s)[h(e.fd)]];
    forall b | 0 <= b < n ensures l[b] == r[b] {
      BucketSnoc(h, s, e, b);
      assert [] + InBucket(h, s, b) == InBucket(h, s, b);
    }
  }

  lemma BucketsWithout(h: nat -> nat, n: nat, s: seq<Entry>, e: Entry)
    requires h(e.fd) < n
    ensures Buckets(h, n, Without(s, e)) == Buckets(h, n, s)[h(e.fd) := Without(Buckets(h, n, s)[h(e.fd)], e)]
  {
    hide InBucket, Without;
    var l, r := Buckets(h, n, Without(s, e)), Buckets(h, n, s)[h(e.fd) := Without(Buckets(h, n, s)[h(e.fd)], e)];
    forall b | 0 <= b < n ensures l[b] == r[b] {
      BucketWithout(h, s, b, e);
    }
  }

  lemma {:induction false} WithoutDistinct(s: seq<Entry>, e: Entry)
    requires Distinct(s)
    ensures Distinct(Without(s, e))
  {
    if s != [] {
      var init, x := s[..|s| - 1], s[|s| - 1];
      assert Distinct(init);
      WithoutDistinct(init, e);
      WithoutHas(init, e);
      forall i | 0 <= i < |Without(init, e)| ensures Without(init, e)[i].att != x.att {
        assert Without(init, e)[i] in init;
      }
    }
  }

  /** In a list without repetition, dropping an entry gives up exactly its reference. */
  lemma {:induction false} WithoutRefs(s: seq<Entry>, e: Entry)
    requires Distinct(s)
    ensures Bufs(s) == Bufs(Without(s, e)) + (if e in s then multiset{e.buf} else multiset{})
    ensures e !in s ==> Without(s, e) == s
  {
    hide Bufs, Without;
    NothingListed(_ => 0, e, 0);
    if s != [] {
      var init, x := s[..|s| - 1], s[|s| - 1];
      assert Distinct(init) && s == init + [x];
      LastIsNew(s);
      WithoutRefs(init, e);
      WithoutSnoc(init, x, e);
      BufsSnoc(init, x);
      BufsSnoc(Without(init, e), x);
    }
  }

  lemma LastIsNew(s: seq<Entry>)
    requires Distinct(s) && s != []
    ensures s[|s| - 1] !in s[..|s| - 1]
  {
  }

  lemma BufsSnoc(s: seq<Entry>, e: Entry)
    ensures Bufs(s + [e]) == Bufs(s) + multiset{e.buf}
  {
    GatherSnoc(OfEntry(), s, e);
  }

  // -------------------------------------------------------------------------- the pipe

  class Pipe {
    // the dma-buf service
    var files: seq<Option<Buf>>       // what each descriptor is open on
    var refs: multiset<Buf>           // reference counts
    var live: map<nat, Mapping>       // attachments that are mapped
    var next: nat                     // no attachment has this name or a later one
    const attempts: nat -> Attempt
    var tried: nat

    // pipe->iova_cache
    var list: seq<Entry>
    const hash: array<seq<Entry>>
    const bucket: nat -> nat

    ghost predicate Sound(es: seq<Entry>)
      reads `live
    {
      MapsLive(es, live)
    }

    /** The hash holds the entries of the list. */
    ghost predicate Agree()
      reads `list, hash
    {
      hash[..] == Buckets(bucket, hash.Length, list)
    }

    /** Every descriptor and every cache entry owns a reference to its buffer, and every cache
        entry a live mapping of it. */
    ghost predicate Valid()
      reads this, hash
    {
      && hash.Length > 0 && (forall fd: nat :: bucket(fd) < hash.Length)
      && FileRefs(files) + Bufs(list) <= refs
      && Sound(list) && Agree()
      && forall att :: att in live ==> att < next
    }

    /** The references held by anything but descriptors and the cache. */
    ghost function Rest(): multiset<Buf>
      reads `refs, `files, `list
    {
      refs - FileRefs(files) - Bufs(list)
    }

    constructor (files: seq<Option<Buf>>, buckets: nat, bucket: nat -> nat, attempts: nat -> Attempt)
      requires buckets > 0 && forall fd: nat :: bucket(fd) < buckets
      ensures Valid() && this.files == files && list == [] && Rest() == multiset{} && live == map[]
    {
      this.files, this.bucket, this.attempts := files, bucket, attempts;
      refs, live, next, tried, list := FileRefs(files), map[], 0, 0, [];
      hash := new seq<Entry>[buckets](_ => []);
    }

    function Resolve(fd: nat): Option<Buf>
      reads `files
    {
      if fd < |files| then files[fd] else None
    }

    /** `dma_buf_get` */
    method Get(fd: nat) returns (b: Option<Buf>)
      requires Valid()
      modifies this`refs
      ensures Valid() && b == Resolve(fd)
      ensures Rest() == old(Rest()) + OfFile()(b)
    {
      hide Gather, Agree, Sound;
      b := Resolve(fd);
      if b.Some? { refs := refs + multiset{b.value}; }
    }

    /** `dma_buf_put`: the caller gives back a reference of its own. */
    method Put(b: Buf)
      requires Valid() && b in Rest()
      modifies this`refs
      ensures Valid() && Rest() == old(Rest()) - multiset{b}
    {
      hide Gather, Agree, Sound, Bufs, FileRefs;
      GiveBack(refs, FileRefs(files), Bufs(list), b);
      refs := refs - multiset{b};
    }

    /** `dma_buf_attach` then `dma_buf_map_attachment`, detaching again if the map fails. */
    method Map(fd: nat, b: Buf) returns (e: Option<Entry>)
      requires Valid()
      modifies this`live, this`next, this`tried
      ensures Valid() && Extends(old(live), live) && old(next) <= next
      ensures e.Some? ==> Owned(e.value) && Unlisted(e.value) && e.value.att !in old(live)
      ensures var a := attempts(old(tried));
        e == if a.attachOk && a.mapOk then Some(Entry(fd, b, a.addr, old(next))) else None
      ensures tried == old(tried) + 1 && next == if e.Some? then old(next) + 1 else old(next)
      ensures e.None? ==> live == old(live)
    {
      hide Gather, Agree;
      var a := attempts(tried);
      tried := tried + 1;
      if !a.attachOk || !a.mapOk { return None; }
      e := Some(Entry(fd, b, a.addr, next));
      live := live[next := Mapping(b, a.addr)];
      next := next + 1;
    }

    ghost predicate Owned(e: Entry)
      reads `live
    {
      e.att in live && live[e.att] == Mapping(e.buf, e.addr)
    }

    ghost predicate Unlisted(e: Entry)
      reads `list
    {
      forall x :: x in list ==> x.att != e.att
    }

    /** `mtk_imgsys_put_dma_buf`: unmap, detach, put. */
    method PutDmaBuf(e: Entry)
      requires e.buf in refs
      modifies this`refs, this`live
      ensures refs == old(refs) - multiset{e.buf} && live == old(live) - {e.att}
    {
      live := live - {e.att};
      refs := refs - multiset{e.buf};
    }

    /** The bucket search of `mtk_imgsys_get_iova`. */
    method Lookup(fd: nat, buf: Buf) returns (hit: Option<Entry>)
      requires Valid()
      ensures hit.Some? ==> hit.value in list && hit.value.fd == fd && hit.value.buf == buf
      ensures hit.None? ==> forall e :: e in list ==> e.fd != fd || e.buf != buf
    {
      var chain := hash[bucket(fd)];
      InBucketHas(bucket, list, bucket(fd));
      assert hash[..][bucket(fd)] == chain;
      var k := 0;
      while k < |chain|
        invariant k <= |chain| && forall j :: 0 <= j < k ==> chain[j].fd != fd || chain[j].buf != buf
      {
        if chain[k].fd == fd && chain[k].buf == buf { return Some(chain[k]); }
        k := k + 1;
      }
      return None;
    }

    /** `list_add_tail` and `hash_add`: the cache takes over the caller's reference. */
    method Insert(e: Entry)
      requires Valid() && Owned(e) && Unlisted(e) && e.buf in Rest()
      modifies this`list, hash
      ensures Valid() && list == old(list) + [e] && Rest() == old(Rest()) - multiset{e.buf}
    {
      hide Buckets, Gather, Bufs, FileRefs;
      BucketsInsert(bucket, hash.Length, list, e);
      BufsSnoc(list, e);
      TakeOver(refs, FileRefs(files), Bufs(list), e.buf);
      list := list + [e];
      hash[bucket(e.fd)] := [e] + hash[bucket(e.fd)];
    }

    /** `list_del` and `hash_del`, the buffer being given back first. */
    method Drop(e: Entry)
      requires Valid() && e in list
      modifies this`list, this`refs, this`live, hash
      ensures Valid() && list == Without(old(list), e) && Rest() == old(Rest())
      ensures live == old(live) - {e.att}
    {
      hide Buckets, Gather, Bufs, FileRefs, Distinct, Without;
      BucketsWithout(bucket, hash.Length, list, e);
      WithoutDistinct(list, e);
      WithoutRefs(list, e);
      WithoutHas(list, e);
      OnlyAtt(list, e);
      GiveUp(refs, FileRefs(files), Bufs(Without(list, e)), e.buf);
      PutDmaBuf(e);
      list := Without(list, e);
      hash[bucket(e.fd)] := Without(hash[bucket(e.fd)], e);
    }

    /** Unmap and put an entry that is not in the cache. */
    method Release(e: Entry)
      requires Valid() && Unlisted(e) && e.buf in Rest()
      modifies this`refs, this`live
      ensures Valid() && Rest() == old(Rest()) - multiset{e.buf} && live == old(live) - {e.att}
    {
      hide Gather, Agree, Bufs, FileRefs;
      GiveBack(refs, FileRefs(files), Bufs(list), e.buf);
      PutDmaBuf(e);
    }

    lemma ListDistinct()
      requires Valid()
      ensures Distinct(list)
    {
    }

    /** One turn of the loop of `mtkdip_ioc_add_iova`. */
    method AddOne(fd: nat)
      requires Valid()
      modifies this`list, this`refs, this`live, this`next, this`tried, hash
      ensures Valid() && Rest() == old(Rest()) && Extends(old(live), live)
      ensures old(list) <= list && |list| <= |old(list)| + 1
      ensures forall k :: |old(list)| <= k < |list| ==>
        list[k].fd == fd != 0 && Resolve(fd) == Some(list[k].buf) && list[k].att !in old(live)
      ensures
        Harvest(list, tried, next) == AddedOne(files, attempts, Harvest(old(list), old(tried), old(next)), fd)
    {
      hide Valid, Rest, TryOne;
      if fd == 0 { return; }
      var b := Get(fd);
      if b.Some? { MapOrPut(fd, b.value); }
    }

    /** Attach and map: the reference becomes a cache entry's, or is put. */
    method MapOrPut(fd: nat, b: Buf)
      requires Valid() && b in Rest()
      modifies this`list, this`refs, this`live, this`next, this`tried, hash
      ensures Valid() && Rest() == old(Rest()) - multiset{b} && Extends(old(live), live)
      ensures old(list) <= list && |list| <= |old(list)| + 1
      ensures forall k :: |old(list)| <= k < |list| ==>
        list[k].fd == fd && list[k].buf == b && list[k].att !in old(live)
      ensures Harvest(list, tried, next) == TryOne(attempts, Harvest(old(list), old(tried), old(next)), fd, b)
    {
      hide Valid, Rest, Owned, Unlisted, Extends;
      var e := Map(fd, b);
      if e.None? {
        Put(b);
      } else {
        Insert(e.value);
      }
    }

    /** `mtkdip_ioc_add_iova`; false is -EINVAL. */
    method AddIova(fds: seq<nat>) returns (ok: bool)
      requires Valid()
      modifies this`list, this`refs, this`live, this`next, this`tried, hash
      ensures Valid() && Rest() == old(Rest()) && Extends(old(live), live)
      ensures ok <==> |fds| <= 32
      ensures old(list) <= list
      ensures forall k :: |old(list)| <= k < |list| ==>
        list[k].fd in fds && list[k].fd != 0 && Resolve(list[k].fd) == Some(list[k].buf) && list[k].att !in old(live)
      ensures !ok ==> list == old(list)
      ensures ok ==>
        Harvest(list, tried, next) == AddedAll(files, attempts, Harvest(old(list), old(tried), old(next)), fds)
      ensures ok ==>
        AddsExactly(files, attempts, fds, Harvest(old(list), old(tried), old(next)), Harvest(list, tried, next))
      ensures !ok ==> tried == old(tried) && next == old(next)
    {
      hide Valid, Rest, AddedOne, AddsExactly;
      AddedExactly(files, attempts, Harvest(list, tried, next), fds);
      ok := |fds| <= FD_MAX;
      if ok {
        for i := 0 to |fds|
          invariant
            Harvest(list, tried, next) == AddedAll(files, attempts, Harvest(old(list), old(tried), old(next)), fds[..i])
          invariant Valid() && Rest() == old(Rest()) && Extends(old(live), live)
          invariant old(list) <= list
          invariant forall k :: |old(list)| <= k < |list| ==>
            && list[k].fd in fds && list[k].fd != 0 && Resolve(list[k].fd) == Some(list[k].buf)
            && list[k].att !in old(live)
        {
          assert fds[..i + 1][..i] == fds[..i];
          AddOne(fds[i]);
        }
        assert fds[..|fds|] == fds;
      }
    }

    /** One turn of the outer loop of `mtkdip_ioc_del_iova`. */
    method DelOne(fd: nat)
      requires Valid()
      modifies this`list, this`refs, this`live, hash
      ensures Valid() && Rest() == old(Rest()) && KeptBut(old(list), old(live), live)
      ensures list == KeepOne(files, old(list), fd)
    {
      hide Valid, Rest, Keep, KeepOne;
      NothingUndone(list, live);
      KeepOneIs(files, list, fd);
      if fd == 0 { return; }
      var b := Get(fd);
      if b.Some? {
        Purge(fd, b.value);
        Put(b.value);
      }
    }

    /** The loop over the cache list. */
    method Purge(fd: nat, b: Buf)
      requires Valid()
      modifies this`list, this`refs, this`live, hash
      ensures Valid() && Rest() == old(Rest()) && KeptBut(old(list), old(live), live)
      ensures list == Keep(old(list), fd, b)
    {
      hide Valid, Rest, Keep, Matches, Without, Distinct, KeptBut;
      var todo := list;
      ListDistinct();
      NothingUndone(list, live);
      KeepStart(todo, fd, b);
      for k := 0 to |todo|
        invariant Valid() && Rest() == old(Rest()) && KeptBut(todo, old(live), live)
        invariant list == Keep(todo[..k], fd, b) + todo[k..]
      {
        KeepTurn(todo, k, fd, b);
        if Matches(todo[k], fd, b) {
          DropUndoes(todo, old(live), live, todo[k]);
          Drop(todo[k]);
        }
      }
      assert todo[..|todo|] == todo;
    }

    /** `mtkdip_ioc_del_iova`; false is -EINVAL. */
    method DelIova(fds: seq<nat>) returns (ok: bool)
      requires Valid()
      modifies this`list, this`refs, this`live, hash
      ensures Valid() && Rest() == old(Rest()) && KeptBut(old(list), old(live), live)
      ensures ok <==> 0 < |fds| <= 32
      ensures list == if ok then KeepAll(files, old(list), fds) else old(list)
    {
      hide Valid, Rest, KeepOne;
      ok := 0 < |fds| <= FD_MAX;
      if ok {
        for i := 0 to |fds|
          invariant Valid() && Rest() == old(Rest()) && KeptBut(old(list), old(live), live)
          invariant list == KeepAll(files, old(list), fds[..i])
        {
          assert fds[..i + 1][..i] == fds[..i];
          KeepAllHas(files, old(list), fds[..i]);
          DelOne(fds[i]);
        }
        assert fds[..|fds|] == fds;
      }
    }

    /** The purge when the last pipe stops streaming. */
    method StreamOff()
      requires Valid()
      modifies this`list, this`refs, this`live, hash
      ensures Valid() && Rest() == old(Rest()) && KeptBut(old(list), old(live), live) && list == []
    {
      hide Valid, Rest, Without, Distinct, KeptBut;
      var todo := list;
      ListDistinct();
      NothingUndone(list, live);
      for k := 0 to |todo|
        invariant Valid() && Rest() == old(Rest()) && KeptBut(todo, old(live), live) && list == todo[k..]
      {
        DistinctSplit(todo, k);
        WithoutFirst(todo[k], todo[k + 1..]);
        DropUndoes(todo, old(live), live, todo[k]);
        Drop(todo[k]);
      }
    }

    /** Userspace closes a descriptor; the number may be opened again on another buffer. */
    method Close(fd: nat)
      requires Valid() && fd < |files| && files[fd].Some?
      modifies this`files, this`refs
      ensures Valid() && Rest() == old(Rest()) && files == old(files)[fd := None]
    {
      hide Gather, Agree, Sound, Bufs;
      GatherUpdate(OfFile(), files, fd, None);
      GiveUp(refs, Bufs(list), FileRefs(files[fd := None]), files[fd].value);
      refs := refs - multiset{files[fd].value};
      files := files[fd := None];
    }

    method Open(fd: nat, b: Buf)
      requires Valid() && fd < |files| && files[fd].None?
      modifies this`files, this`refs
      ensures Valid() && Rest() == old(Rest()) && files == old(files)[fd := Some(b)]
    {
      hide Gather, Agree, Sound, Bufs;
      GatherUpdate(OfFile(), files, fd, Some(b));
      files := files[fd := Some(b)];
      refs := refs + multiset{b};
    }
  }

  /** An unowned reference goes. */
  lemma GiveBack(refs: multiset<Buf>, f: multiset<Buf>, l: multiset<Buf>, b: Buf)
    requires f + l <= refs && b in refs - f - l
    ensures f + l <= refs - multiset{b} && refs - multiset{b} - f - l == refs - f - l - multiset{b}
  {
  }

  /** An owner takes over an unowned reference. */
  lemma TakeOver(refs: multiset<Buf>, f: multiset<Buf>, l: multiset<Buf>, b: Buf)
    requires f + l <= refs && b in refs - f - l
    ensures f + (l + multiset{b}) <= refs && refs - f - (l + multiset{b}) == refs - f - l - multiset{b}
  {
  }

  /** An owner goes, with its reference. */
  lemma GiveUp(refs: multiset<Buf>, f: multiset<Buf>, l: multiset<Buf>, b: Buf)
    requires f + (l + multiset{b}) <= refs
    ensures f + l <= refs - multiset{b} && b in refs
    ensures refs - multiset{b} - f - l == refs - f - (l + multiset{b})
  {
  }

  /** Each entry has a live mapping of its buffer at its address, and no two share one. */
  predicate MapsLive(es: seq<Entry>, live: map<nat, Mapping>) {
    && Distinct(es)
    && forall e :: e in es ==> e.att in live && live[e.att] == Mapping(e.buf, e.addr)
  }

  predicate Extends(l: map<nat, Mapping>, l': map<nat, Mapping>) {
    forall att :: att in l ==> att in l' && l'[att] == l[att]
  }

  /** No mapping is made, and none but those of `es` is undone. */
  predicate KeptBut(es: seq<Entry>, l: map<nat, Mapping>, l': map<nat, Mapping>) {
    && (forall att :: att in l' ==> att in l && l'[att] == l[att])
    && (forall att :: att in l && (forall e :: e in es ==> e.att != att) ==> att in l')
  }

  lemma NothingUndone(es: seq<Entry>, l: map<nat, Mapping>)
    ensures KeptBut(es, l, l)
  {
  }

  lemma DropUndoes(es: seq<Entry>, l: map<nat, Mapping>, l': map<nat, Mapping>, e: Entry)
    requires KeptBut(es, l, l') && e in es
    ensures KeptBut(es, l, l' - {e.att})
  {
  }

  lemma KeepStart(s: seq<Entry>, fd: nat, buf: Buf)
    ensures Keep(s[..0], fd, buf) + s[0..] == s
  {
  }

  lemma KeepOneIs(files: seq<Option<Buf>>, s: seq<Entry>, fd: nat)
    ensures KeepOne(files, s, fd)
         == if fd == 0 || fd >= |files| || files[fd].None? then s else Keep(s, fd, files[fd].value)
  {
  }

  lemma WithoutFirst(e: Entry, b: seq<Entry>)
    requires e !in b
    ensures Without([e] + b, e) == b
  {
    WithoutCons(e, b, e);
    WithoutNone(b, e);
  }

  const FD_MAX: nat := 32

  function KeepOne(files: seq<Option<Buf>>, s: seq<Entry>, fd: nat): seq<Entry> {
    if fd == 0 || fd >= |files| || files[fd].None? then s else Keep(s, fd, files[fd].value)
  }

  function KeepAll(files: seq<Option<Buf>>, s: seq<Entry>, fds: seq<nat>): seq<Entry> {
    if fds == [] then s else KeepOne(files, KeepAll(files, s, fds[..|fds| - 1]), fds[|fds| - 1])
  }

  /** What stays in the cache after del_iova: exactly the entries that share neither the
      descriptor nor the buffer of any descriptor that resolves. */
  lemma {:induction false} KeepAllHas(files: seq<Option<Buf>>, s: seq<Entry>, fds: seq<nat>)
    ensures forall x :: x in KeepAll(files, s, fds) <==> x in s && forall k :: 0 <= k < |fds| ==>
      fds[k] == 0 || fds[k] >= |files| || files[fds[k]].None? || (x.fd != fds[k] && x.buf != files[fds[k]].value)
  {
    if fds != [] {
      var init, fd := fds[..|fds| - 1], fds[|fds| - 1];
      KeepAllHas(files, s, init);
      if !(fd == 0 || fd >= |files| || files[fd].None?) {
        KeepHas(KeepAll(files, s, init), fd, files[fd].value);
      }
      assert forall k :: 0 <= k < |init| ==> fds[k] == init[k];
    }
  }

  lemma {:induction false} WithoutMiddle(a: seq<Entry>, e: Entry, b: seq<Entry>)
    requires e !in a && e !in b
    ensures Without(a + [e] + b, e) == a + b
    decreases |a| + |b|
  {
    if b != [] {
      var init, x := b[..|b| - 1], b[|b| - 1];
      WithoutMiddle(a, e, init);
      assert a + [e] + b == (a + [e] + init) + [x] && a + b == (a + init) + [x];
      WithoutSnoc(a + [e] + init, x, e);
    } else {
      assert a + [e] + b == a + [e] && a + b == a;
      WithoutSnoc(a, e, e);
      WithoutNone(a, e);
    }
  }

  lemma {:induction false} WithoutNone(s: seq<Entry>, e: Entry)
    requires e !in s
    ensures Without(s, e) == s
  {
    if s != [] { WithoutNone(s[..|s| - 1], e); }
  }

  lemma DistinctSplit(s: seq<Entry>, k: nat)
    requires Distinct(s) && k < |s|
    ensures s[k] !in s[..k] && s[k] !in s[k + 1..]
    ensures s[k..] == [s[k]] + s[k + 1..]
  {
  }

  /** Dropping the next entry, or leaving it, takes the partly purged list one entry on. */
  lemma KeepTurn(s: seq<Entry>, k: nat, fd: nat, buf: Buf)
    requires Distinct(s) && k < |s|
    ensures var l := Keep(s[..k], fd, buf) + s[k..]; var l' := Keep(s[..k + 1], fd, buf) + s[k + 1..];
      l' == (if Matches(s[k], fd, buf) then Without(l, s[k]) else l) && s[k] in l
  {
    assert s[..k + 1][..k] == s[..k];
    DistinctSplit(s, k);
    KeepHas(s[..k], fd, buf);
    var kept := Keep(s[..k], fd, buf);
    WithoutMiddle(kept, s[k], s[k + 1..]);
    assert kept + s[k..] == kept + [s[k]] + s[k + 1..];
  }

  lemma OnlyAtt(s: seq<Entry>, e: Entry)
    requires Distinct(s) && e in s
    ensures forall x :: x in s && x != e ==> x.att != e.att
  {
  }
}
