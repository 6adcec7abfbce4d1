/** The CCD buffer table: a fixed array kept dense by moving the last entry into the place of the
    one removed, over buffers that count the table, their dma-buf exports and their mappings
    as references. */
module CcdMem {
  import opened Options

  const MAX_BUFS: nat := 128
  const MAX_SIZE: nat := 0x2000_0000

  datatype Slot = Slot(priv: nat, size: nat)

  /** `mtk_ccd_buf`; `frees` counts the times its memory was given back. */
  datatype Buf = Buf(va: nat, refs: int, exports: nat, vmas: nat, frees: nat)

  function One(b: bool): nat { if b then 1 else 0 }

  /** `refcount_dec_and_test` and what follows it */
  function Drop(b: Buf): Buf {
    if b.refs == 1 then b.(refs := 0, frees := b.frees + 1) else b.(refs := b.refs - 1)
  }

  datatype Error = Invalid | NoMemory

  datatype Result = Ok(priv: nat, va: nat) | Err(error: Error)

  predicate InTable(slots: seq<Slot>, id: nat) { exists k :: 0 <= k < |slots| && slots[k].priv == id }

  predicate Allotted(slots: seq<Slot>, heap: map<nat, Buf>) { forall k :: 0 <= k < |slots| ==> slots[k].priv in heap }

  /** What an entry says: an address and a size. */
  datatype Row = Row(va: nat, size: nat)

  function Rows(slots: seq<Slot>, heap: map<nat, Buf>): (r: seq<Row>)
    requires Allotted(slots, heap)
    ensures |r| == |slots|
  {
    seq(|slots|, k requires 0 <= k < |slots| => Row(heap[slots[k].priv].va, slots[k].size))
  }

  predicate Listed(rows: seq<Row>, va: nat) { exists k :: 0 <= k < |rows| && rows[k].va == va }

  /** The rows, at distinct addresses, are the map. */
  ghost predicate RowsAre(rows: seq<Row>, m: map<nat, nat>) {
    && |m| == |rows|
    && (forall j, k :: 0 <= j < k < |rows| ==> rows[j].va != rows[k].va)
    && (forall k :: 0 <= k < |rows| ==> rows[k].va in m && m[rows[k].va] == rows[k].size)
    && (forall va :: va in m ==> Listed(rows, va))
  }

  predicate DistinctBufs(slots: seq<Slot>) { forall j, k :: 0 <= j < k < |slots| ==> slots[j].priv != slots[k].priv }

  /** The entries are distinct live buffers, and mean the map. */
  ghost predicate TableOk(slots: seq<Slot>, heap: map<nat, Buf>, contents: map<nat, nat>) {
    Allotted(slots, heap) && DistinctBufs(slots) && RowsAre(Rows(slots, heap), contents)
  }

  /** Each count is the table's reference, the exports and the mappings; memory goes when it
      reaches zero. */
  ghost predicate HeapOk(slots: seq<Slot>, heap: map<nat, Buf>) {
    forall id :: id in heap ==>
      && heap[id].refs == One(InTable(slots, id)) + heap[id].exports + heap[id].vmas
      && heap[id].frees == One(heap[id].refs == 0)
  }

  /** No buffer still alive is at `va`. */
  predicate Unused(heap: map<nat, Buf>, va: nat) { forall id :: id in heap && heap[id].refs > 0 ==> heap[id].va != va }

  // ---------------------------------------------------------------------- table updates

  lemma AddRow(rows: seq<Row>, m: map<nat, nat>, row: Row)
    requires RowsAre(rows, m) && !Listed(rows, row.va)
    ensures row.va !in m && RowsAre(rows + [row], m[row.va := row.size])
  {
    var all := rows + [row];
    forall va | va in m[row.va := row.size] ensures Listed(all, va) {
      if va == row.va {
        assert all[|rows|].va == va;
      } else {
        var k :| 0 <= k < |rows| && rows[k].va == va;
        assert all[k].va == va;
      }
    }
  }

  lemma RemoveRow(rows: seq<Row>, m: map<nat, nat>, k: nat)
    requires RowsAre(rows, m) && k < |rows|
    ensures RowsAre(SwapOut(rows, k), m - {rows[k].va})
  {
    var r, m' := SwapOut(rows, k), m - {rows[k].va};
    assert m'.Keys == m.Keys - {rows[k].va};
    forall va | va in m' ensures Listed(r, va) {
      var j :| 0 <= j < |rows| && rows[j].va == va;
      SwapOutHas(rows, k, j);
      var i :| 0 <= i < |r| && r[i] == rows[j];
      assert r[i].va == va;
    }
  }

  lemma AddSlot(slots: seq<Slot>, heap: map<nat, Buf>, contents: map<nat, nat>, s: Slot, va: nat)
    requires TableOk(slots, heap, contents) && HeapOk(slots, heap) && s.priv !in heap && Unused(heap, va)
    ensures va !in contents
    ensures TableOk(slots + [s], heap[s.priv := Buf(va, 1, 0, 0, 0)], contents[va := s.size])
    ensures HeapOk(slots + [s], heap[s.priv := Buf(va, 1, 0, 0, 0)])
  {
    var h := heap[s.priv := Buf(va, 1, 0, 0, 0)];
    forall k | 0 <= k < |slots| ensures heap[slots[k].priv].va != va {
      assert InTable(slots, slots[k].priv);
    }
    assert !Listed(Rows(slots, heap), va);
    AddHeap(slots, heap, s, va);
    AddRow(Rows(slots, heap), contents, Row(va, s.size));
    hide RowsAre, HeapOk, Listed, Unused;
    assert Rows(slots + [s], h) == Rows(slots, heap) + [Row(va, s.size)];
  }

  lemma AddHeap(slots: seq<Slot>, heap: map<nat, Buf>, s: Slot, va: nat)
    requires HeapOk(slots, heap) && Allotted(slots, heap) && s.priv !in heap
    ensures HeapOk(slots + [s], heap[s.priv := Buf(va, 1, 0, 0, 0)])
  {
    var all := slots + [s];
    assert all[|slots|].priv == s.priv;
    forall id | id in heap ensures InTable(all, id) == InTable(slots, id) {
      if InTable(slots, id) {
        var k :| 0 <= k < |slots| && slots[k].priv == id;
        assert all[k].priv == id;
      }
    }
  }

  /** The dense array without entry `k`: the last entry moves into its place. */
  function SwapOut<T>(s: seq<T>, k: nat): (r: seq<T>)
    requires k < |s|
    ensures |r| == |s| - 1
  {
    s[k := s[|s| - 1]][..|s| - 1]
  }

  lemma SwapOutHas<T>(s: seq<T>, k: nat, j: nat)
    requires k < |s| && j < |s| && j != k
    ensures s[j] in SwapOut(s, k)
  {
    var r := SwapOut(s, k);
    if j < |s| - 1 { assert r[j] == s[j]; } else { assert r[k] == s[j]; }
  }

  /** Removing an entry deletes exactly its address from the map, and drops one reference. */
  lemma RemoveSlot(slots: seq<Slot>, heap: map<nat, Buf>, contents: map<nat, nat>, k: nat)
    requires TableOk(slots, heap, contents) && HeapOk(slots, heap) && k < |slots|
    ensures var id := slots[k].priv; var h := heap[id := Drop(heap[id])];
      TableOk(SwapOut(slots, k), h, contents - {heap[id].va}) && HeapOk(SwapOut(slots, k), h)
  {
    var id := slots[k].priv;
    var r, h := SwapOut(slots, k), heap[id := Drop(heap[id])];
    hide RowsAre, HeapOk, Rows, SwapOut, DistinctBufs;
    RemoveHeap(slots, heap, k);
    RemoveRow(Rows(slots, heap), contents, k);
    SwapRows(slots, heap, k);
    IsListed(slots, heap, contents, k);
  }

  /** The rows follow the entries. */
  lemma SwapRows(slots: seq<Slot>, heap: map<nat, Buf>, k: nat)
    requires Allotted(slots, heap) && DistinctBufs(slots) && k < |slots|
    ensures var r := SwapOut(slots, k); var h := heap[slots[k].priv := Drop(heap[slots[k].priv])];
      && Allotted(r, h) && DistinctBufs(r) && Rows(r, h) == SwapOut(Rows(slots, heap), k)
      && Rows(slots, heap)[k].va == heap[slots[k].priv].va
  {
  }

  lemma RemoveHeap(slots: seq<Slot>, heap: map<nat, Buf>, k: nat)
    requires HeapOk(slots, heap) && Allotted(slots, heap) && k < |slots|
    requires DistinctBufs(slots)
    ensures var id := slots[k].priv; HeapOk(SwapOut(slots, k), heap[id := Drop(heap[id])])
  {
    var r, id := SwapOut(slots, k), slots[k].priv;
    assert InTable(slots, id);
    assert !InTable(r, id);
    forall x | x in heap && x != id ensures InTable(r, x) == InTable(slots, x) {
      if InTable(slots, x) {
        var j :| 0 <= j < |slots| && slots[j].priv == x;
        SwapOutHas(slots, k, j);
        var i :| 0 <= i < |r| && r[i] == slots[j];
        assert r[i].priv == x;
      }
      if InTable(r, x) {
        var i :| 0 <= i < |r| && r[i].priv == x;
        assert slots[if i == k then |slots| - 1 else i].priv == x;
      }
    }
  }

  /** Another reference taken or dropped does not touch the table. */
  lemma TableKept(slots: seq<Slot>, heap: map<nat, Buf>, contents: map<nat, nat>, id: nat, b: Buf)
    requires TableOk(slots, heap, contents) && id in heap && b.va == heap[id].va
    ensures TableOk(slots, heap[id := b], contents)
  {
    hide RowsAre;
    assert Rows(slots, heap[id := b]) == Rows(slots, heap);
  }

  lemma HeapKept(slots: seq<Slot>, heap: map<nat, Buf>, id: nat, b: Buf)
    requires HeapOk(slots, heap)
    requires b.refs == One(InTable(slots, id)) + b.exports + b.vmas && b.frees == One(b.refs == 0)
    ensures HeapOk(slots, heap[id := b])
  {
  }

  class Memory {
    const bufs: array<Slot>
    var num: nat
    var heap: map<nat, Buf>            // every buffer ever allocated, by its object
    ghost var contents: map<nat, nat>  // what the table means: sizes by address

    ghost predicate Valid()
      reads this, bufs
    {
      && bufs.Length == MAX_BUFS && num <= MAX_BUFS
      && TableOk(bufs[..num], heap, contents) && HeapOk(bufs[..num], heap)
    }

    constructor ()
      ensures Valid() && contents == map[] && heap == map[] && fresh(bufs)
    {
      bufs := new Slot[MAX_BUFS](_ => Slot(0, 0));
      num, heap, contents := 0, map[], map[];
    }

    /** `mtk_ccd_get_buffer`: `at` is the object and the address the allocators return. */
    method GetBuffer(len: nat, at: Option<(nat, nat)>) returns (r: Result)
      requires Valid() && (at.Some? ==> at.value.0 !in heap && Unused(heap, at.value.1))
      modifies this, bufs
      ensures Valid()
      ensures r == if len > 0x2000_0000 || len == 0 || old(num) >= 128 then Err(Invalid)
                   else if at.None? then Err(NoMemory) else Ok(at.value.0, at.value.1)
      ensures r.Err? ==> contents == old(contents) && heap == old(heap)
      ensures r.Ok? ==> r.va !in old(contents) && contents == old(contents)[r.va := len]
      ensures r.Ok? ==> heap == old(heap)[r.priv := Buf(r.va, 1, 0, 0, 0)]
    {
      hide TableOk, HeapOk, Unused;
      if len > MAX_SIZE || len == 0 || num >= MAX_BUFS { return Err(Invalid); }
      if at.None? { return Err(NoMemory); }
      var id, va := at.value.0, at.value.1;
      ghost var slots := bufs[..num];
      AddSlot(slots, heap, contents, Slot(id, len), va);
      heap := heap[id := Buf(va, 1, 0, 0, 0)];
      bufs[num] := Slot(id, len);
      num := num + 1;
      contents := contents[va := len];
      assert bufs[..num] == slots + [Slot(id, len)];
      return Ok(id, va);
    }

    /** `mtk_ccd_put_buffer`: false is -EINVAL. */
    method PutBuffer(va: nat, len: nat) returns (ok: bool)
      requires Valid()
      modifies this, bufs
      ensures Valid()
      ensures ok <==> va in old(contents) && old(contents)[va] == len
      ensures contents == if ok then old(contents) - {va} else old(contents)
      ensures !ok ==> heap == old(heap)
      ensures ok ==> exists id ::
        && id in old(heap) && old(heap)[id].va == va && InTable(old(bufs[..num]), id)
        && heap == old(heap)[id := Drop(old(heap)[id])]
    {
      hide RowsAre, HeapOk, SwapOut, Rows, DistinctBufs;
      var k := 0;
      while k < num
        invariant k <= num
        invariant forall j :: 0 <= j < k ==> heap[bufs[j].priv].va != va || bufs[j].size != len
      {
        if heap[bufs[k].priv].va == va && bufs[k].size == len {
          ghost var slots := bufs[..num];
          IsListed(slots, heap, contents, k);
          RemoveSlot(slots, heap, contents, k);
          assert InTable(slots, slots[k].priv);
          Vacate(k, slots);
          contents := contents - {va};
          return true;
        }
        k := k + 1;
      }
      NotListed(bufs[..num], heap, contents, va, len);
      return false;
    }

    /** Put the buffer, and move the last entry into its place. */
    method Vacate(k: nat, ghost slots: seq<Slot>)
      requires bufs.Length == MAX_BUFS && k < num <= MAX_BUFS && slots == bufs[..num] && bufs[k].priv in heap
      modifies this`heap, this`num, bufs
      ensures num == old(num) - 1 && bufs[..num] == SwapOut(slots, k)
      ensures heap == old(heap)[old(bufs[k].priv) := Drop(old(heap)[old(bufs[k].priv)])]
    {
      var id := bufs[k].priv;
      heap := heap[id := Drop(heap[id])];
      var last := num - 1;
      if last != k { bufs[k] := bufs[last]; }
      bufs[last] := Slot(0, 0);
      num := num - 1;
    }

    /** `mtk_ccd_get_dmabuf`; `ok` says whether the scatter list and the export succeed. */
    method GetDmabuf(id: nat, ok: bool)
      requires Valid() && id in heap && heap[id].refs > 0
      modifies this`heap
      ensures Valid()
      ensures heap == if ok then old(heap)[id := Opened(old(heap)[id], true)] else old(heap)
      ensures ok ==> var b := old(heap)[id]; heap[id] == Buf(b.va, b.refs + 1, b.exports + 1, b.vmas, b.frees)
    {
      if ok { TakeRef(id, Opened(heap[id], true)); }
    }

    /** `mtk_ccd_dmabuf_ops_release` */
    method ReleaseDmabuf(id: nat)
      requires Valid() && id in heap && heap[id].exports > 0
      modifies this`heap
      ensures Valid() && heap == old(heap)[id := Drop(Closed(old(heap)[id], true))]
      ensures var b := old(heap)[id]; heap[id].refs == b.refs - 1 && heap[id].exports == b.exports - 1
      ensures var b := old(heap)[id]; heap[id].vmas == b.vmas && heap[id].va == b.va
    {
      TakeRef(id, Drop(Closed(heap[id], true)));
    }

    /** `mtk_ccd_buf_vm_open` */
    method VmOpen(id: nat)
      requires Valid() && id in heap && heap[id].refs > 0
      modifies this`heap
      ensures Valid() && heap == old(heap)[id := Opened(old(heap)[id], false)]
      ensures var b := old(heap)[id]; heap[id] == Buf(b.va, b.refs + 1, b.exports, b.vmas + 1, b.frees)
    {
      TakeRef(id, Opened(heap[id], false));
    }

    /** `mtk_ccd_buf_vm_close` */
    method VmClose(id: nat)
      requires Valid() && id in heap && heap[id].vmas > 0
      modifies this`heap
      ensures Valid() && heap == old(heap)[id := Drop(Closed(old(heap)[id], false))]
      ensures var b := old(heap)[id]; heap[id].refs == b.refs - 1 && heap[id].vmas == b.vmas - 1
      ensures var b := old(heap)[id]; heap[id].exports == b.exports && heap[id].va == b.va
    {
      TakeRef(id, Drop(Closed(heap[id], false)));
    }

    method TakeRef(id: nat, b: Buf)
      requires Valid() && id in heap && b.va == heap[id].va
      requires b.refs == One(InTable(bufs[..num], id)) + b.exports + b.vmas && b.frees == One(b.refs == 0)
      modifies this`heap
      ensures Valid() && heap == old(heap)[id := b]
    {
      hide TableOk, HeapOk, InTable;
      TableKept(bufs[..num], heap, contents, id, b);
      HeapKept(bufs[..num], heap, id, b);
      heap := heap[id := b];
    }

    /** A buffer's memory is given back at most once, exactly when the table, every export and
        every mapping have let go of it; and the table never holds more than 128. */
    lemma FreedOnceAndLast(id: nat)
      requires Valid() && id in heap
      ensures heap[id].frees <= 1
      ensures heap[id].frees == 1 <==> !InTable(bufs[..num], id) && heap[id].exports == 0 && heap[id].vmas == 0
      ensures |contents| <= 128
    {
      assert HeapOk(bufs[..num], heap);
    }
  }

  /** One more export, or one more mapping, with its reference. */
  function Opened(b: Buf, isExport: bool): Buf {
    if isExport then b.(refs := b.refs + 1, exports := b.exports + 1) else b.(refs := b.refs + 1, vmas := b.vmas + 1)
  }

  /** One export, or one mapping, fewer; its reference is still to be dropped. */
  function Closed(b: Buf, isExport: bool): Buf
    requires if isExport then b.exports > 0 else b.vmas > 0
  {
    if isExport then b.(exports := b.exports - 1) else b.(vmas := b.vmas - 1)
  }

  lemma IsListed(slots: seq<Slot>, heap: map<nat, Buf>, contents: map<nat, nat>, k: nat)
    requires TableOk(slots, heap, contents) && k < |slots|
    ensures heap[slots[k].priv].va in contents && contents[heap[slots[k].priv].va] == slots[k].size
  {
    assert Rows(slots, heap)[k] == Row(heap[slots[k].priv].va, slots[k].size);
  }

  lemma NotListed(slots: seq<Slot>, heap: map<nat, Buf>, contents: map<nat, nat>, va: nat, len: nat)
    requires TableOk(slots, heap, contents)
    requires forall k :: 0 <= k < |slots| ==> heap[slots[k].priv].va != va || slots[k].size != len
    ensures !(va in contents && contents[va] == len)
  {
    if va in contents {
      var k :| 0 <= k < |slots| && Rows(slots, heap)[k].va == va;
    }
  }
}
