/** Every block of the arena starts at a multiple of eight, so that 32-bit and 64-bit processes agree on it. */
module ShmAlignment {
  import opened Bytes
  import opened Options
  import opened ShmHeap
  import opened ShmMap
  import opened ShmArena
  import opened ShmCalls

  ghost predicate Aligned(h: Heap) {
    HasHeader(h) && Hdr(h, USED) % 8 == 0 && forall x | x in h :: x % 8 == 0
  }

  lemma Pad8Aligned(n: nat)
    ensures Pad8(n) % 8 == 0
  {
  }

  /** The allocator hands out aligned offsets only. */
  lemma AllocAligned(h: Heap, n: nat)
    requires Aligned(h)
    ensures Aligned(Alloc(h, n).0) && Alloc(h, n).1 % 8 == 0
  {
    hide Pad8;
    Pad8Aligned(n);
  }

  lemma DupAligned(h: Heap, s: CString)
    requires Aligned(h)
    ensures Aligned(Dup(h, s).0)
  {
    AllocAligned(h, |s| + 1);
    hide Alloc;
  }

  lemma GrowTableAligned(h: Heap)
    requires Aligned(h) && TableOk(h)
    ensures Aligned(GrowTable(h).0)
  {
    var cap := 2 * Capacity(h);
    var (h1, k) := Alloc(h, 4 * cap);
    AllocAligned(h, 4 * cap);
    AllocAligned(h1, 12 * cap);
    hide Alloc;
  }

  lemma AppendKeyAligned(h: Heap, key: CString)
    requires Aligned(h) && TableOk(h)
    ensures Aligned(AppendKey(h, key))
  {
    DupAligned(h, key);
    hide Dup;
  }

  lemma RemoveRowAligned(h: Heap, r: nat)
    requires Aligned(h) && TableOk(h) && r < Count(h)
    ensures Aligned(RemoveRow(h, r))
  {
  }

  lemma GrowListAligned(h: Heap, i: nat)
    requires Aligned(h) && ListAt(h, i)
    ensures Aligned(GrowList(h, i).0)
  {
    AllocAligned(h, 20 * NewCapacity(RowAt(h, i).cap));
    hide Alloc, RowOk;
  }

  lemma AppendPatchAligned(h: Heap, i: nat, file: CString, find: CString)
    requires Aligned(h) && ListAt(h, i) && RowAt(h, i).off != 0
    ensures Aligned(AppendPatch(h, i, file, find))
  {
    DupAligned(h, file);
    DupAligned(Dup(h, file).0, find);
    hide Dup, RowOk;
  }

  lemma GrowTransformsAligned(h: Heap, i: nat, j: nat)
    requires Aligned(h) && PatchAt(h, i, j)
    ensures Aligned(GrowTransforms(h, i, j).0)
  {
    AllocAligned(h, 8 * NewCapacity(PatchRowAt(h, RowAt(h, i).off, j).cap));
    hide Alloc;
  }

  lemma AppendTransformAligned(h: Heap, i: nat, j: nat, pattern: CString, replace: CString)
    requires Aligned(h) && PatchAt(h, i, j) && PatchRowAt(h, RowAt(h, i).off, j).off != 0
    ensures Aligned(AppendTransform(h, i, j, pattern, replace))
  {
    DupAligned(h, pattern);
    DupAligned(Dup(h, pattern).0, replace);
    hide Dup;
  }

  lemma AddKeyAligned(h: Heap, key: CString)
    requires Inv(h) && Aligned(h)
    ensures Aligned(AddKey(h, key).0)
  {
    hide AppendKey, GrowTable, RowOk, Owned, DistinctKeys, Aligned;
    if Find(h, key) == Count(h) {
      if Count(h) < Capacity(h) {
        AppendKeyAligned(h, key);
      } else {
        GrowTableOk(h);
        GrowTableAligned(h);
        if GrowTable(h).1 { AppendKeyAligned(GrowTable(h).0, key); }
      }
    }
  }

  lemma AddPatchAligned(h: Heap, i: nat, file: CString, find: CString)
    requires Inv(h) && Aligned(h) && i < Count(h)
    ensures Aligned(AddPatch(h, i, file, find).0)
  {
    hide AppendPatch, GrowList, RowOk, Owned, DistinctKeys, Aligned, Inv;
    InvList(h, i);
    if RowAt(h, i).count < RowAt(h, i).cap {
      ListHasArray(h, i);
      AppendPatchAligned(h, i, file, find);
    } else {
      GrowListOk(h, i);
      GrowListAligned(h, i);
      if GrowList(h, i).1 { AppendPatchAligned(GrowList(h, i).0, i, file, find); }
    }
  }

  lemma ListHasArray(h: Heap, i: nat)
    requires ListAt(h, i) && RowAt(h, i).count < RowAt(h, i).cap
    ensures RowAt(h, i).off != 0
  {
  }

  lemma AddTransformAligned(h: Heap, i: nat, j: nat, pattern: CString, replace: CString)
    requires Inv(h) && Aligned(h) && i < Count(h) && j < RowAt(h, i).count
    ensures Aligned(AddTransform(h, i, j, pattern, replace))
  {
    hide AppendTransform, GrowTransforms, RowOk, Owned, DistinctKeys, Aligned, Inv;
    InvPatch(h, i, j);
    var p := PatchRowAt(h, RowAt(h, i).off, j);
    if p.count < p.cap {
      AppendTransformAligned(h, i, j, pattern, replace);
    } else {
      GrowTransformsOk(h, i, j);
      GrowTransformsAligned(h, i, j);
      var h1 := GrowTransforms(h, i, j).0;
      if GrowTransforms(h, i, j).1 { AppendTransformAligned(h1, i, j, pattern, replace); }
    }
  }

  /** Every call, with room for it or not, keeps the blocks aligned. */
  lemma CallAligned(h: Heap, c: Call)
    requires Inv(h) && Aligned(h)
    ensures Aligned(Do(h, c))
  {
    hide Aligned, AddKey, AddPatch, AddTransform, RemoveRow, RowOk, Owned, DistinctKeys;
    match c
    case Add(key) => AddKeyAligned(h, key);
    case Remove(key) => if Find(h, key) < Count(h) { RemoveRowAligned(h, Find(h, key)); }
    case NewPatch(i, file, find) => if i < Count(h) { AddPatchAligned(h, i, file, find); }
    case NewTransform(i, j, p, r) =>
      if i < Count(h) && j < RowAt(h, i).count { AddTransformAligned(h, i, j, p, r); }
  }

  /** A new map is aligned: header, keys and values. */
  lemma InitAligned(h: Heap)
    requires HasHeader(h) && h.Keys == {0, 24, 88} && Hdr(h, USED) == 280
    ensures Aligned(h)
  {
  }

  /** Over any sequence of calls with room for them, every block starts at a multiple of eight. */
  lemma {:induction false} CallsStayAligned(h: Heap, calls: seq<Call>)
    requires Inv(h) && AllHaveRoom(h, calls) && Aligned(h)
    ensures Aligned(DoAll(h, calls))
    decreases |calls|
  {
    hide Do, HasRoom, Inv, Aligned;
    if calls != [] {
      CallRefines(h, calls[0]);
      CallAligned(h, calls[0]);
      CallsStayAligned(Do(h, calls[0]), calls[1..]);
    }
  }
}
