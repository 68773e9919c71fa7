/**
 The public operations of the shared-memory map, with their failure paths: what each does to the
 abstract map, exactly when there is room for it, and what whole sequences of calls leave behind.
 */
module ShmArena {
  import opened Bytes
  import opened Options
  import opened ShmHeap
  import opened ShmMap

  // ---------------------------------------------------------------------------------------------
  // hashmap_add_key
  // ---------------------------------------------------------------------------------------------

  ghost function AddKey(h: Heap, key: CString): (Heap, Option<nat>)
    requires HeaderOk(h) && TableOk(h)
  {
    if Find(h, key) < Count(h) then (h, Some(Find(h, key)))
    else if Count(h) < Capacity(h) then (AppendKey(h, key), Some(Count(h)))
    else
      var (h1, ok) := GrowTable(h);
      if ok && TableOk(h1) then (AppendKey(h1, key), Some(Count(h1))) else (h1, None)
  }

  lemma GrowTableOk(h: Heap)
    requires HeaderOk(h) && TableOk(h)
    ensures GrowTable(h).1 <==> Pad8(8 * Capacity(h)) + Pad8(24 * Capacity(h)) <= Free(h)
    ensures GrowTable(h).1 ==> HeaderOk(GrowTable(h).0) && TableOk(GrowTable(h).0)
  {
    if Pad8(8 * Capacity(h)) + Pad8(24 * Capacity(h)) <= Free(h) { GrowTableFacts(h); }
  }

  /** Bytes that adding a new key takes. */
  function KeyNeeds(h: Heap, key: CString): nat
    requires HasHeader(h)
  {
    Pad8(|key| + 1) + if Count(h) < Capacity(h) then 0 else Pad8(8 * Capacity(h)) + Pad8(24 * Capacity(h))
  }

  /** A new key without room for it leaves a row whose key is at offset 0, or no row at all. */
  lemma AppendKeyFails(h: Heap, key: CString)
    requires Inv(h) && Count(h) < Capacity(h) && Pad8(|key| + 1) > Free(h)
    ensures Count(AppendKey(h, key)) == Count(h) + 1 && RowAt(AppendKey(h, key), Count(h)).key == 0
    ensures !Inv(AppendKey(h, key))
  {
    hide RowOk, Owned, DistinctKeys, EntryOf;
    var h' := AppendKey(h, key);
    if Inv(h') { BadKey(h', Count(h)); }
  }

  lemma BadKey(h: Heap, i: nat)
    requires HasHeader(h) && Inv(h) && i < Count(h)
    ensures RowAt(h, i).key != 0
  {
    assert RowOk(h, RowAt(h, i));
  }

  /**
   `hashmap_add_key` on any key: a known key changes nothing and gives its row; a new key is added
   behind all others, with every other entry as it was, exactly when there is room.
   */
  lemma AddKeyRefines(h: Heap, key: CString)
    requires Inv(h) && 0 !in key
    ensures var (h', slot), n := AddKey(h, key), Find(h, key);
            if n < Count(h) then
              h' == h && slot == Some(n) && Contents(h)[n].key == key
            else
              (slot == Some(Count(h)) && Inv(h') && Contents(h') == Contents(h) + [Entry(key, [])]) <==>
              KeyNeeds(h, key) <= Free(h)
  {
    hide AppendKey, GrowTable, RowOk, Owned, DistinctKeys, EntryOf;
    if Find(h, key) < Count(h) {
      ContentsKey(h, Find(h, key));
    } else if Count(h) < Capacity(h) {
      if Pad8(|key| + 1) <= Free(h) { AppendKeyAppends(h, key); } else { AppendKeyFails(h, key); }
    } else {
      GrowTableOk(h);
      if GrowTable(h).1 {
        var h1 := GrowTable(h).0;
        GrowTableKeeps(h);
        SameKeys(h, h1, key);
        if Pad8(|key| + 1) <= Free(h1) { AppendKeyAppends(h1, key); } else { AppendKeyFails(h1, key); }
      }
    }
  }

  lemma ContentsKey(h: Heap, i: nat)
    requires i < Count(h)
    ensures |Contents(h)| == Count(h) && Contents(h)[i].key == TextAt(h, RowAt(h, i).key)
  {
  }

  lemma SameKeys(h: Heap, h': Heap, key: CString)
    requires Contents(h') == Contents(h) && Find(h, key) == Count(h)
    ensures Count(h') == Count(h) && Find(h', key) == Count(h')
  {
    assert |Contents(h)| == Count(h) && |Contents(h')| == Count(h');
    var n := Find(h', key);
    if n < Count(h') {
      ContentsKey(h', n);
      ContentsKey(h, n);
      assert false;
    }
  }

  /** When the table cannot grow, the call gives up and the map is as it was. */
  lemma AddKeyGivesUp(h: Heap, key: CString)
    requires Inv(h) && Find(h, key) == Count(h) && Count(h) == Capacity(h) && !GrowTable(h).1
    ensures AddKey(h, key) == (GrowTable(h).0, None)
    ensures Inv(GrowTable(h).0) && Contents(GrowTable(h).0) == Contents(h)
  {
    FailedGrow(h);
    hide GrowTable, RowOk, Owned, DistinctKeys, EntryOf, Contents;
    TableFrame(h, GrowTable(h).0, {0});
  }

  lemma FailedGrow(h: Heap)
    requires HeaderOk(h) && TableOk(h) && !GrowTable(h).1
    ensures var h' := GrowTable(h).0;
            && HeaderOk(h') && TableOk(h') && Extends(h, h', {0}) && Count(h') == Count(h)
            && KeysOff(h') == KeysOff(h) && ValuesOff(h') == ValuesOff(h)
            && h'[KeysOff(h)] == h[KeysOff(h)] && h'[ValuesOff(h)] == h[ValuesOff(h)]
  {
    var cap := 2 * Capacity(h);
    if Pad8(4 * cap) <= Free(h) { AllocFacts(h, 4 * cap); }
    var h1 := Alloc(h, 4 * cap).0;
    if Pad8(12 * cap) <= Free(h1) { AllocFacts(h1, 12 * cap); }
    hide Pad8;
  }

  // ---------------------------------------------------------------------------------------------
  // hashmap_remove
  // ---------------------------------------------------------------------------------------------

  function RemoveKey(h: Heap, key: CString): Heap
    requires HasHeader(h) && TableOk(h)
  {
    if Find(h, key) < Count(h) then RemoveRow(h, Find(h, key)) else h
  }

  // ---------------------------------------------------------------------------------------------
  // patchlist_add
  // ---------------------------------------------------------------------------------------------

  ghost function AddPatch(h: Heap, i: nat, file: CString, find: CString): (Heap, Option<nat>)
    requires Inv(h) && i < Count(h)
  {
    InvList(h, i);
    var n := RowAt(h, i).count;
    if n < RowAt(h, i).cap then (AppendPatch(h, i, file, find), Some(n))
    else
      GrowListOk(h, i);
      var (h1, ok) := GrowList(h, i);
      if ok then (AppendPatch(h1, i, file, find), Some(n)) else (h1, None)
  }

  lemma InvList(h: Heap, i: nat)
    requires Inv(h) && i < Count(h)
    ensures ListAt(h, i) && ArrayOk(h, Patches, RowAt(h, i).off, 5, RowAt(h, i).count, RowAt(h, i).cap)
  {
    assert RowOk(h, RowAt(h, i));
  }

  lemma GrowListOk(h: Heap, i: nat)
    requires Inv(h) && ListAt(h, i) && RowAt(h, i).count >= RowAt(h, i).cap
    ensures RowAt(h, i).count == RowAt(h, i).cap
    ensures GrowList(h, i).1 <==> Pad8(20 * NewCapacity(RowAt(h, i).cap)) <= Free(h)
    ensures GrowList(h, i).1 ==> ListAt(GrowList(h, i).0, i) && RowAt(GrowList(h, i).0, i).off != 0
  {
    InvList(h, i);
    if Pad8(20 * NewCapacity(RowAt(h, i).cap)) <= Free(h) {
      GrowListKeeps(h, i);
      HeaderHas(GrowList(h, i).0);
      InvList(GrowList(h, i).0, i);
    }
  }

  function PatchNeeds(h: Heap, i: nat, file: CString, find: CString): nat {
    var r := RowAt(h, i);
    Pad8(|file| + 1) + Pad8(|find| + 1) + if r.count < r.cap then 0 else Pad8(20 * NewCapacity(r.cap))
  }

  // ---------------------------------------------------------------------------------------------
  // patch_add_transform
  // ---------------------------------------------------------------------------------------------

  ghost function AddTransform(h: Heap, i: nat, j: nat, pattern: CString, replace: CString): Heap
    requires Inv(h) && i < Count(h) && j < RowAt(h, i).count
  {
    InvPatch(h, i, j);
    var p := PatchRowAt(h, RowAt(h, i).off, j);
    if p.count < p.cap then AppendTransform(h, i, j, pattern, replace)
    else
      GrowTransformsOk(h, i, j);
      var (h1, ok) := GrowTransforms(h, i, j);
      if ok then AppendTransform(h1, i, j, pattern, replace) else h1
  }

  lemma InvPatch(h: Heap, i: nat, j: nat)
    requires Inv(h) && i < Count(h) && j < RowAt(h, i).count
    ensures PatchAt(h, i, j)
    ensures var p := PatchRowAt(h, RowAt(h, i).off, j); ArrayOk(h, Transforms, p.off, 2, p.count, p.cap)
  {
    InvList(h, i);
    PatchArrays(h, i, j);
  }

  lemma GrowTransformsOk(h: Heap, i: nat, j: nat)
    requires Inv(h) && PatchAt(h, i, j)
    requires var p := PatchRowAt(h, RowAt(h, i).off, j); p.count >= p.cap
    ensures var p := PatchRowAt(h, RowAt(h, i).off, j);
            && p.count == p.cap
            && (GrowTransforms(h, i, j).1 <==> Pad8(8 * NewCapacity(p.cap)) <= Free(h))
    ensures var (h1, ok) := GrowTransforms(h, i, j);
            ok ==> PatchAt(h1, i, j) && PatchRowAt(h1, RowAt(h1, i).off, j).off != 0
  {
    InvPatch(h, i, j);
    if Pad8(8 * NewCapacity(PatchRowAt(h, RowAt(h, i).off, j).cap)) <= Free(h) {
      GrowTransformsKeeps(h, i, j);
      InvPatch(GrowTransforms(h, i, j).0, i, j);
    }
  }

  function TransformNeeds(h: Heap, i: nat, j: nat, pattern: CString, replace: CString): nat {
    var p := PatchRowAt(h, RowAt(h, i).off, j);
    Pad8(|pattern| + 1) + Pad8(|replace| + 1) + if p.count < p.cap then 0 else Pad8(8 * NewCapacity(p.cap))
  }

  // ---------------------------------------------------------------------------------------------
  // Refinement of the list operations
  // ---------------------------------------------------------------------------------------------

  /** Two strings that do not both fit: one of them ends up at offset 0. */
  lemma DupPairFails(h: Heap, a: CString, b: CString)
    requires HeaderOk(h) && Pad8(|a| + 1) + Pad8(|b| + 1) > Free(h)
    ensures var (h', x, y) := DupPair(h, a, b);
            && (x == 0 || y == 0) && 0 in h' && h'[0].Words?
            && forall k | 0 <= k < HEADER_WORDS && k != USED :: WordAt(h', 0, k) == WordAt(h, 0, k)
  {
    if Pad8(|a| + 1) <= Free(h) { DupFacts(h, a); }
    hide Pad8;
  }

  lemma AppendPatchFails(h: Heap, i: nat, file: CString, find: CString)
    requires Inv(h) && ListAt(h, i) && RowAt(h, i).off != 0 && RowAt(h, i).count < RowAt(h, i).cap
    requires Pad8(|file| + 1) + Pad8(|find| + 1) > Free(h)
    ensures var h', r := AppendPatch(h, i, file, find), RowAt(h, i);
            var p := PatchRowAt(h', r.off, r.count);
            && RowAt(h', i).count == r.count + 1 && (p.file == 0 || p.find == 0)
            && !Inv(h')
  {
    hide RowOk, Owned, DistinctKeys, EntryOf, DupPair, Pad8;
    DupPairFails(h, file, find);
    InvList(h, i);
    var h', r := AppendPatch(h, i, file, find), RowAt(h, i);
    assert ValuesOff(h') == ValuesOff(h) && Count(h') == Count(h);
    assert h'[r.off].ws[5 * r.count] == DupPair(h, file, find).1 &&
        h'[r.off].ws[5 * r.count + 1] == DupPair(h, file, find).2;
    if Inv(h') { BadPatch(h', i, r.count); }
  }

  lemma BadPatch(h: Heap, i: nat, j: nat)
    requires Inv(h) && i < Count(h) && j < RowAt(h, i).count
    ensures var p := PatchRowAt(h, RowAt(h, i).off, j); p.file != 0 && p.find != 0
    ensures var p := PatchRowAt(h, RowAt(h, i).off, j);
            forall t | 0 <= t < p.count :: WordAt(h, p.off, 2 * t) != 0 && WordAt(h, p.off, 2 * t + 1) != 0
  {
    assert RowOk(h, RowAt(h, i)) && PatchOk(h, PatchRowAt(h, RowAt(h, i).off, j));
  }

  /**
   `patchlist_add` on a list of the map: the new patch is appended to that list and nothing else
   changes, exactly when there is room; when the array cannot grow, nothing changes at all.
   */
  lemma AddPatchRefines(h: Heap, i: nat, file: CString, find: CString)
    requires Inv(h) && i < Count(h)
    ensures var (h', slot), r := AddPatch(h, i, file, find), RowAt(h, i);
            && HasHeader(h)
            && (slot.None? ==> h' == h)
            && ((slot == Some(r.count) && Inv(h') &&
                 Contents(h') == WithPatch(Contents(h), i, Patch(file, find, []))) <==>
                PatchNeeds(h, i, file, find) <= Free(h))
  {
    hide AppendPatch, GrowList, RowOk, Owned, DistinctKeys, EntryOf, Contents, Pad8, TableOk, HeaderOk;
    HeaderHas(h);
    InvList(h, i);
    ContentsAt(h, i);
    if RowAt(h, i).count < RowAt(h, i).cap {
      AppendedPatch(h, i, file, find);
    } else {
      GrowListOk(h, i);
      if GrowList(h, i).1 {
        GrowListKeeps(h, i);
        AppendedPatch(GrowList(h, i).0, i, file, find);
      } else {
        UngrownList(h, i);
      }
    }
  }

  function WithPatch(es: seq<Entry>, i: nat, p: Patch): seq<Entry>
    requires i < |es|
  {
    es[i := es[i].(patches := es[i].patches + [p])]
  }

  lemma UngrownList(h: Heap, i: nat)
    requires ListAt(h, i) && !GrowList(h, i).1
    ensures GrowList(h, i).0 == h
  {
  }

  lemma AppendedPatch(h: Heap, i: nat, file: CString, find: CString)
    requires Inv(h) && ListAt(h, i) && i < |Contents(h)| && RowAt(h, i).off != 0 && RowAt(h, i).count < RowAt(h, i).cap
    ensures var h' := AppendPatch(h, i, file, find);
            Inv(h') && Contents(h') == WithPatch(Contents(h), i, Patch(file, find, [])) <==>
            Pad8(|file| + 1) + Pad8(|find| + 1) <= Free(h)
  {
    hide AppendPatch, RowOk, Owned, DistinctKeys, EntryOf, Contents, Pad8, TableOk, HeaderOk;
    if Pad8(|file| + 1) + Pad8(|find| + 1) <= Free(h) {
      AppendPatchAppends(h, i, file, find);
    } else {
      AppendPatchFails(h, i, file, find);
    }
  }

  lemma AppendTransformFails(h: Heap, i: nat, j: nat, pattern: CString, replace: CString)
    requires Inv(h) && PatchAt(h, i, j)
    requires var p := PatchRowAt(h, RowAt(h, i).off, j); p.off != 0 && p.count < p.cap
    requires Pad8(|pattern| + 1) + Pad8(|replace| + 1) > Free(h)
    ensures var h', r := AppendTransform(h, i, j, pattern, replace), RowAt(h, i);
            var p, p' := PatchRowAt(h, r.off, j), PatchRowAt(h', r.off, j);
            && p'.count == p.count + 1
            && (WordAt(h', p.off, 2 * p.count) == 0 || WordAt(h', p.off, 2 * p.count + 1) == 0)
            && !Inv(h')
  {
    hide RowOk, Owned, DistinctKeys, EntryOf, DupPair, Pad8, PatchOk;
    DupPairFails(h, pattern, replace);
    InvPatch(h, i, j);
    InvList(h, i);
    var h', r := AppendTransform(h, i, j, pattern, replace), RowAt(h, i);
    var p := PatchRowAt(h, r.off, j);
    DupPairKeeps(h, pattern, replace);
    assert RowAt(h', i) == r && Count(h') == Count(h);
    if Inv(h') { BadPatch(h', i, j); }
  }

  lemma DupPairKeeps(h: Heap, a: CString, b: CString)
    requires HeaderOk(h)
    ensures Extends(h, DupPair(h, a, b).0, {0})
  {
    if Pad8(|a| + 1) <= Free(h) { DupFacts(h, a); }
    var h1 := Dup(h, a).0;
    if Pad8(|b| + 1) <= Free(h1) { DupFacts(h1, b); }
    hide Pad8;
  }

  function WithTransform(es: seq<Entry>, i: nat, j: nat, t: Transform): seq<Entry>
    requires i < |es| && j < |es[i].patches|
  {
    var p := es[i].patches[j];
    es[i := es[i].(patches := es[i].patches[j := p.(transforms := p.transforms + [t])])]
  }

  lemma AppendedTransform(h: Heap, i: nat, j: nat, pattern: CString, replace: CString)
    requires Inv(h) && PatchAt(h, i, j) && i < |Contents(h)| && j < |Contents(h)[i].patches|
    requires var p := PatchRowAt(h, RowAt(h, i).off, j); p.off != 0 && p.count < p.cap
    ensures var h' := AppendTransform(h, i, j, pattern, replace);
            Inv(h') && Contents(h') == WithTransform(Contents(h), i, j, Transform(pattern, replace)) <==>
            Pad8(|pattern| + 1) + Pad8(|replace| + 1) <= Free(h)
  {
    hide AppendTransform, RowOk, Owned, DistinctKeys, EntryOf, Contents, Pad8, TableOk, HeaderOk;
    if Pad8(|pattern| + 1) + Pad8(|replace| + 1) <= Free(h) {
      AppendTransformAppends(h, i, j, pattern, replace);
    } else {
      AppendTransformFails(h, i, j, pattern, replace);
    }
  }

  lemma UngrownTransforms(h: Heap, i: nat, j: nat)
    requires PatchAt(h, i, j) && !GrowTransforms(h, i, j).1
    ensures GrowTransforms(h, i, j).0 == h
  {
  }

  /**
   `patch_add_transform` on a patch of the map: the transform is appended to that patch and nothing
   else changes, exactly when there is room.
   */
  lemma AddTransformRefines(h: Heap, i: nat, j: nat, pattern: CString, replace: CString)
    requires Inv(h) && i < Count(h) && j < RowAt(h, i).count
    ensures HasHeader(h) && i < |Contents(h)| && j < |Contents(h)[i].patches|
    ensures var h' := AddTransform(h, i, j, pattern, replace);
            Inv(h') && Contents(h') == WithTransform(Contents(h), i, j, Transform(pattern, replace)) <==>
            TransformNeeds(h, i, j, pattern, replace) <= Free(h)
  {
    hide AppendTransform, GrowTransforms, RowOk, Owned, DistinctKeys, EntryOf, Contents, Pad8, TableOk, HeaderOk;
    HeaderHas(h);
    InvPatch(h, i, j);
    ContentsPatch(h, i, j);
    var p := PatchRowAt(h, RowAt(h, i).off, j);
    if p.count < p.cap {
      AppendedTransform(h, i, j, pattern, replace);
    } else {
      GrowTransformsOk(h, i, j);
      if GrowTransforms(h, i, j).1 {
        GrowTransformsKeeps(h, i, j);
        AppendedTransform(GrowTransforms(h, i, j).0, i, j, pattern, replace);
      } else {
        UngrownTransforms(h, i, j);
        Changed(Contents(h), i, j, Transform(pattern, replace));
      }
    }
  }

  lemma Changed(es: seq<Entry>, i: nat, j: nat, t: Transform)
    requires i < |es| && j < |es[i].patches|
    ensures WithTransform(es, i, j, t) != es
  {
    var a, b := es[i].patches[j], WithTransform(es, i, j, t)[i].patches[j];
    assert |b.transforms| == |a.transforms| + 1;
  }
}
