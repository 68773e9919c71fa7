/**
 What a reader of the arena's bytes sees when there is no room: a string that could not be copied has
 offset 0, and the reader finds the first bytes of the arena's header there.
 */
module ShmExhaustion {
  import opened Bytes
  import opened Options
  import opened ShmHeap
  import opened ShmMap
  import opened ShmArena
  import opened ShmCalls

  // ---------------------------------------------------------------------------------------------
  // Strings that may not fit
  // ---------------------------------------------------------------------------------------------

  /** How much of the free space a string takes: nothing when it does not fit. */
  function Taken(free: int, s: CString): nat {
    if Pad8(|s| + 1) <= free then Pad8(|s| + 1) else 0
  }

  /** The string as it is read back, with `header` for one that does not fit. */
  function Kept(header: CString, free: int, s: CString): CString {
    if Pad8(|s| + 1) <= free then s else header
  }

  /** The offset of a copied string, or 0. */
  predicate CopiedAt(h: Heap, x: nat, s: CString) {
    x == 0 || (IsText(h, x) && TextAt(h, x) == s)
  }

  /** A heap with some strings more: nothing else has changed but `used`. */
  ghost predicate MoreStrings(h: Heap, h': Heap) {
    && HeaderOk(h) && HeaderOk(h') && Extends(h, h', {0})
    && h'[0] == h[0].(ws := h[0].ws[USED := h'[0].ws[USED]])
  }

  lemma DupAny(h: Heap, s: CString)
    requires HeaderOk(h)
    ensures var (h', x) := Dup(h, s);
            && MoreStrings(h, h') && CopiedAt(h', x, s) && (x == 0 || x !in h)
            && (x == 0 <==> Pad8(|s| + 1) > Free(h)) && Free(h') == Free(h) - Taken(Free(h), s)
  {
    DupIs(h, s);
    if Pad8(|s| + 1) <= Free(h) { DupFacts(h, s); }
    hide Pad8, Dup;
  }

  lemma DupPairAny(h: Heap, a: CString, b: CString)
    requires HeaderOk(h)
    ensures var (h', x, y) := DupPair(h, a, b);
            && MoreStrings(h, h') && CopiedAt(h', x, a) && CopiedAt(h', y, b) && (x == 0 || x !in h) &&
                (y == 0 || y !in h)
            && (x == 0 <==> Pad8(|a| + 1) > Free(h)) && (y == 0 <==> Pad8(|b| + 1) > Free(h) - Taken(Free(h), a))
  {
    hide Dup, Pad8, Taken, Free;
    DupAny(h, a);
    DupAny(Dup(h, a).0, b);
  }

  lemma ReadsCopied(m: seq<byte>, h: Heap, x: nat, s: CString)
    requires Stored(m, h) && CopiedAt(h, x, s)
    ensures CStr(m, x) == if x == 0 then CStr(m, 0) else s
  {
    hide Stored, CStr;
    if x != 0 { ReadsText(m, h, x); }
  }

  /** The bytes at offset 0 read as a string: empty exactly when the arena's size is a multiple of 256. */
  lemma HeaderTextIff(m: seq<byte>, h: Heap)
    requires Stored(m, h) && HeaderOk(h) && h[0].ws[SIZE] == |m|
    ensures CStr(m, 0) == [] <==> |m| % 256 == 0
  {
    assert Holds(m, 0, h[0]);
    assert Word32(m, 4 * SIZE) == |m| && m[0..4][0] == m[0];
    FirstByte(m[0..4]);
  }

  lemma FirstByte(s: seq<byte>)
    requires |s| == 4
    ensures FromLe32(s) % 256 == s[0]
  {
    Quotient(FromLe32(s), 256, s[1] as int + 256 * (s[2] as int) + 0x1_0000 * (s[3] as int), s[0] as int);
  }

  // ---------------------------------------------------------------------------------------------
  // Reading row by row
  // ---------------------------------------------------------------------------------------------

  lemma MapRows(m: seq<byte>, h: Heap)
    requires Stored(m, h) && HeaderOk(h) && TableOk(h)
    ensures |ReadMap(m)| == Count(h)
    ensures forall i | 0 <= i < Count(h) ::
              ReadMap(m)[i] == Entry(CStr(m, RowAt(h, i).key), ReadList(m, ValuesOff(h) + 12 * i))
  {
    hide Stored, CStr, WordIn, ReadList;
    ReadsWord(m, h, 0, KEYS_OFF);
    ReadsWord(m, h, 0, VALUES_OFF);
    ReadsWord(m, h, 0, COUNT);
    forall i | 0 <= i < Count(h)
      ensures ReadMap(m)[i] == Entry(CStr(m, RowAt(h, i).key), ReadList(m, ValuesOff(h) + 12 * i))
    {
      ReadsWord(m, h, KeysOff(h), i);
    }
  }

  lemma RowReads(m: seq<byte>, h: Heap, i: nat)
    requires Stored(m, h) && HeaderOk(h) && TableOk(h) && i < Count(h) && RowOk(h, RowAt(h, i))
    ensures |ReadMap(m)| == Count(h) && ReadMap(m)[i] == EntryOf(h, RowAt(h, i))
  {
    hide Stored, CStr, WordIn, ReadList, RowOk, EntryOf, ReadMap, HeaderOk;
    MapRows(m, h);
    ReadsRow(m, h, i);
    ReadsWord(m, h, KeysOff(h), i);
  }

  lemma ListReads(m: seq<byte>, h: Heap, i: nat)
    requires Stored(m, h) && TableOk(h) && i < Count(h)
    ensures var r := RowAt(h, i);
            ReadList(m, ValuesOff(h) + 12 * i) == seq(r.count, j requires 0 <= j => ReadPatch(m, r.off + 20 * j))
  {
    hide Stored, WordIn, ReadPatch;
    ReadsWord(m, h, ValuesOff(h), 3 * i);
    ReadsWord(m, h, ValuesOff(h), 3 * i + 1);
  }

  // ---------------------------------------------------------------------------------------------
  // A new key
  // ---------------------------------------------------------------------------------------------

  /** The heap with a row more, once its key has been copied to `x` in `h1`. */
  lemma RowPut(h: Heap, h1: Heap, x: nat)
    requires MoreStrings(h, h1) && TableOk(h) && Count(h) < Capacity(h)
    ensures var n, k, v := Count(h), KeysOff(h), ValuesOff(h);
            var h' := h1[k := h[k].(ws := h[k].ws + [x])]
                        [v := h[v].(ws := h[v].ws + [0, 0, 0])]
                        [0 := h1[0].(ws := h1[0].ws[COUNT := n + 1])];
            && TableOk(h') && Count(h') == n + 1 && RowAt(h', n) == Row(x, 0, 0, 0)
            && forall i | 0 <= i < n :: RowAt(h', i) == RowAt(h, i)
  {
    var n, v := Count(h), ValuesOff(h);
    var ws := h[v].ws + [0, 0, 0];
    assert ws[3 * n] == 0 && ws[3 * n + 1] == 0 && ws[3 * n + 2] == 0;
  }

  lemma RowPutHeader(h: Heap, h1: Heap, k: nat, a: Block, v: nat, b: Block, n: nat)
    requires MoreStrings(h, h1) && k in h && v in h && k != 0 && v != 0 && !h[k].Text? && !h[v].Text?
    requires Extent(a) == Extent(h[k]) && Extent(b) == Extent(h[v])
    ensures var h' := h1[k := a][v := b][0 := h1[0].(ws := h1[0].ws[COUNT := n])];
            HeaderOk(h') && Extends(h, h', {0, k, v}) && forall x | IsText(h1, x) :: IsText(h', x) && h'[x] == h1[x]
  {
    assert h1[k] == h[k] && h1[v] == h[v];
  }

  lemma KeyFacts(h: Heap, key: CString)
    requires HeaderOk(h) && TableOk(h) && Count(h) < Capacity(h)
    ensures var h', n, x := AppendKey(h, key), Count(h), Dup(h, key).1;
            && HeaderOk(h') && TableOk(h') && Extends(h, h', {0, KeysOff(h), ValuesOff(h)})
            && Count(h') == n + 1 && RowAt(h', n) == Row(x, 0, 0, 0) && CopiedAt(h', x, key)
            && (x == 0 <==> Pad8(|key| + 1) > Free(h))
            && forall i | 0 <= i < n :: RowAt(h', i) == RowAt(h, i)
  {
    hide Dup, Pad8, Free, HeaderOk, Extends, RowAt, MoreStrings;
    HeaderHas(h);
    DupAny(h, key);
    var (h1, x) := Dup(h, key);
    var n, k, v := Count(h), KeysOff(h), ValuesOff(h);
    RowPut(h, h1, x);
    RowPutHeader(h, h1, k, h[k].(ws := h[k].ws + [x]), v, h[v].(ws := h[v].ws + [0, 0, 0]), n + 1);
  }

  lemma KeyReads(m: seq<byte>, h: Heap, key: CString)
    requires Inv(h) && Count(h) < Capacity(h) && HasHeader(h) && Stored(m, AppendKey(h, key))
    ensures ReadMap(m) == Contents(h) + [Entry(Kept(CStr(m, 0), Free(h), key), [])]
  {
    hide AppendKey, RowOk, EntryOf, Owned, DistinctKeys, Stored, CStr, ReadMap, Pad8, Free, Dup, ReadList, HeaderOk,
         TableOk, CopiedAt, IsText;
    var h', n, E := AppendKey(h, key), Count(h), {0, KeysOff(h), ValuesOff(h)};
    KeyFacts(h, key);
    TableKinds(h);
    RowsFrame(h, h', E, n);
    MapRows(m, h');
    forall i | 0 <= i < n ensures ReadMap(m)[i] == Contents(h)[i] { RowReads(m, h', i); }
    ReadsCopied(m, h', Dup(h, key).1, key);
    ListReads(m, h', n);
    assert ReadMap(m)[n] == Entry(Kept(CStr(m, 0), Free(h), key), []);
  }

  lemma TableKinds(h: Heap)
    requires HeaderOk(h) && TableOk(h)
    ensures forall x | x in {0, KeysOff(h), ValuesOff(h)} && x in h ::
              h[x].Words? && h[x].kind != Patches && h[x].kind != Transforms
  {
  }

  // ---------------------------------------------------------------------------------------------
  // A new patch
  // ---------------------------------------------------------------------------------------------

  lemma PatchFacts(h: Heap, i: nat, file: CString, find: CString)
    requires HeaderOk(h) && ListAt(h, i) && RowAt(h, i).off != 0 && RowAt(h, i).count < RowAt(h, i).cap
    ensures var h', r := AppendPatch(h, i, file, find), RowAt(h, i);
            && HeaderOk(h') && TableOk(h') && Extends(h, h', {0, ValuesOff(h), r.off}) && Count(h') == Count(h)
            && (forall k | 0 <= k < Count(h) && k != i :: RowAt(h', k) == RowAt(h, k))
            && RowAt(h', i) == r.(count := r.count + 1)
            && ArrayOk(h', Patches, r.off, 5, r.count + 1, r.cap) && WordsOf(h, r.off) <= WordsOf(h', r.off)
            && var (_, x, y) := DupPair(h, file, find);
            && PatchRowAt(h', r.off, r.count) == PatchRow(x, y, 0, 0, 0)
            && CopiedAt(h', x, file) && CopiedAt(h', y, find)
  {
    hide DupPair, Pad8, RowOk, Taken, Free;
    ListArray(h, i);
    DupPairAny(h, file, find);
    var h', r := AppendPatch(h, i, file, find), RowAt(h, i);
    var n, ws := 5 * r.count, h'[r.off].ws;
    assert ws[n + 2] == 0 && ws[n + 3] == 0 && ws[n + 4] == 0;
  }

  /** A patch whose strings may not have been copied, without transforms. */
  lemma NewPatchReads(m: seq<byte>, h: Heap, off: nat, j: nat, file: CString, find: CString)
    requires Stored(m, h) && off in h && h[off].Words? && 5 * j + 4 < |h[off].ws|
    requires var p := PatchRowAt(h, off, j);
             && p == PatchRow(p.file, p.find, 0, 0, 0)
             && CopiedAt(h, p.file, file) && CopiedAt(h, p.find, find)
    ensures var p := PatchRowAt(h, off, j);
            ReadPatch(m, off + 20 * j) ==
            Patch(if p.file == 0 then CStr(m, 0) else file, if p.find == 0 then CStr(m, 0) else find, [])
  {
    hide Stored, CStr, WordIn, CopiedAt;
    var p := PatchRowAt(h, off, j);
    ReadsWord(m, h, off, 5 * j);
    ReadsWord(m, h, off, 5 * j + 1);
    ReadsWord(m, h, off, 5 * j + 3);
    ReadsCopied(m, h, p.file, file);
    ReadsCopied(m, h, p.find, find);
  }

  /** The row with a patch more: the other patches read as before. */
  lemma LongerRowReads(m: seq<byte>, h: Heap, h': Heap, E: set<nat>, i: nat)
    requires Inv(h) && i < Count(h) && Extends(h, h', E) && Touches(h, E, i, RowAt(h, i).count)
    requires Stored(m, h') && HeaderOk(h') && TableOk(h') && Count(h') == Count(h)
    requires var r := RowAt(h, i);
             && r.off != 0 && RowAt(h', i) == r.(count := r.count + 1)
             && ArrayOk(h', Patches, r.off, 5, r.count + 1, r.cap) && WordsOf(h, r.off) <= WordsOf(h', r.off)
    ensures var r, e := RowAt(h, i), EntryOf(h, RowAt(h, i));
            && |ReadMap(m)| == Count(h)
            && ReadMap(m)[i] == e.(patches := e.patches + [ReadPatch(m, r.off + 20 * r.count)])
  {
    hide Stored, CStr, WordIn, ReadMap, TableOk, HeaderOk, DistinctKeys, Owned, PatchOk, PatchOf, ReadPatch, ReadList,
         RowAt;
    var r := RowAt(h, i);
    assert RowOk(h, r);
    MapRows(m, h');
    ListReads(m, h', i);
    KeyStays(m, h, h', E, r.key);
    forall l | 0 <= l < r.count ensures ReadPatch(m, r.off + 20 * l) == PatchOf(h, PatchRowAt(h, r.off, l)) {
      OtherPatch(h, h', E, i, r.count, l);
      SamePatchRow(h, h', r.off, r.count, l);
      ReadsPatch(m, h', r.off, l);
    }
  }

  lemma KeyStays(m: seq<byte>, h: Heap, h': Heap, E: set<nat>, x: nat)
    requires Extends(h, h', E) && IsText(h, x) && Stored(m, h')
    ensures CStr(m, x) == TextAt(h, x)
  {
    hide Stored, CStr;
    TextFrame(h, h', E, x);
    ReadsText(m, h', x);
  }

  lemma SamePatchRow(h: Heap, h': Heap, off: nat, n: nat, l: nat)
    requires IsWords(h, off, Patches) && IsWords(h', off, Patches) && WordsOf(h, off) <= WordsOf(h', off)
    requires l < n && 5 * n <= |h[off].ws| && off != 0
    ensures PatchRowAt(h', off, l) == PatchRowAt(h, off, l) && 5 * l + 4 < |h'[off].ws|
  {
  }

  /** The patch as it is read back. */
  function KeptPatch(header: CString, free: int, file: CString, find: CString): Patch {
    Patch(Kept(header, free, file), Kept(header, free - Taken(free, file), find), [])
  }

  lemma PatchReads(m: seq<byte>, h: Heap, i: nat, file: CString, find: CString)
    requires Inv(h) && ListAt(h, i) && RowAt(h, i).off != 0 && RowAt(h, i).count < RowAt(h, i).cap
    requires Stored(m, AppendPatch(h, i, file, find))
    ensures i < |Contents(h)|
    ensures ReadMap(m) == WithPatch(Contents(h), i, KeptPatch(CStr(m, 0), Free(h), file, find))
  {
    hide AppendPatch, RowOk, EntryOf, Owned, DistinctKeys, Stored, CStr, ReadMap, Pad8, Free, DupPair, ReadList,
         ReadPatch, HeaderOk, TableOk, CopiedAt, IsText, Taken, MoreStrings, Contents;
    var h', r, E := AppendPatch(h, i, file, find), RowAt(h, i), {0, ValuesOff(h), RowAt(h, i).off};
    ListRow(h, i);
    ContentsAt(h, i);
    PatchFacts(h, i, file, find);
    DupPairAny(h, file, find);
    ListTouches(h, i, r.count);
    LongerRowReads(m, h, h', E, i);
    NewPatchReads(m, h', r.off, r.count, file, find);
    forall k | 0 <= k < Count(h) && k != i ensures ReadMap(m)[k] == Contents(h)[k] {
      OtherRow(h, h', E, i, r.count, k);
      RowReads(m, h', k);
      ContentsAt(h, k);
    }
  }

  lemma ListRow(h: Heap, i: nat)
    requires ListAt(h, i)
    ensures i < Count(h) && RowOk(h, RowAt(h, i)) && TableOk(h) && HasHeader(h)
  {
  }

  // ---------------------------------------------------------------------------------------------
  // A new transform
  // ---------------------------------------------------------------------------------------------

  lemma TransformFacts(h: Heap, i: nat, j: nat, pattern: CString, replace: CString)
    requires HeaderOk(h) && PatchAt(h, i, j)
    requires var p := PatchRowAt(h, RowAt(h, i).off, j); p.off != 0 && p.count < p.cap
    ensures var h', r := AppendTransform(h, i, j, pattern, replace), RowAt(h, i);
            var p, p' := PatchRowAt(h, r.off, j), PatchRowAt(h', r.off, j);
            && HeaderOk(h') && TableOk(h') && Extends(h, h', {0, r.off, p.off}) && Count(h') == Count(h)
            && (forall k | 0 <= k < Count(h) :: RowAt(h', k) == RowAt(h, k))
            && ArrayOk(h', Patches, r.off, 5, r.count, r.cap)
            && (forall l | 0 <= l < r.count && l != j :: PatchRowAt(h', r.off, l) == PatchRowAt(h, r.off, l))
            && p' == p.(count := p.count + 1)
            && ArrayOk(h', Transforms, p.off, 2, p.count + 1, p.cap)
            && WordsOf(h, p.off) <= WordsOf(h', p.off)
            && var (_, x, y) := DupPair(h, pattern, replace);
            && WordAt(h', p.off, 2 * p.count) == x && WordAt(h', p.off, 2 * p.count + 1) == y
            && CopiedAt(h', x, pattern) && CopiedAt(h', y, replace)
  {
    hide DupPair, Pad8, RowOk, PatchOk, Taken, Free;
    PatchArrays(h, i, j);
    DupPairAny(h, pattern, replace);
  }

  /** The transform as it is read back. */
  function KeptTransform(header: CString, free: int, pattern: CString, replace: CString): Transform {
    Transform(Kept(header, free, pattern), Kept(header, free - Taken(free, pattern), replace))
  }

  /** A patch with a transform more: its strings and the other transforms read as before. */
  lemma LongerPatchReads(m: seq<byte>, h: Heap, h': Heap, E: set<nat>, x: nat, j: nat)
    requires Extends(h, h', E) && Stored(m, h') && x in h' && h'[x].Words? && 5 * j + 4 < |h'[x].ws|
    requires var p := PatchRowAt(h, x, j);
             && PatchOk(h, p) && p.off != 0 && PatchRowAt(h', x, j) == p.(count := p.count + 1)
             && ArrayOk(h', Transforms, p.off, 2, p.count + 1, p.cap) && WordsOf(h, p.off) <= WordsOf(h', p.off)
    ensures var p, q := PatchRowAt(h, x, j), PatchOf(h, PatchRowAt(h, x, j));
            ReadPatch(m, x + 20 * j) == q.(transforms := q.transforms + [ReadTransform(m, p.off + 8 * p.count)])
  {
    hide Stored, CStr, WordIn, ReadTransform;
    var p := PatchRowAt(h, x, j);
    ReadsWord(m, h', x, 5 * j);
    ReadsWord(m, h', x, 5 * j + 1);
    ReadsWord(m, h', x, 5 * j + 2);
    ReadsWord(m, h', x, 5 * j + 3);
    KeyStays(m, h, h', E, p.file);
    KeyStays(m, h, h', E, p.find);
    forall t | 0 <= t < p.count ensures ReadTransform(m, p.off + 8 * t) == TransformAt(h, p.off, t) {
      OldTransformReads(m, h, h', E, p, t);
    }
  }

  lemma OldTransformReads(m: seq<byte>, h: Heap, h': Heap, E: set<nat>, p: PatchRow, t: nat)
    requires Extends(h, h', E) && Stored(m, h') && PatchOk(h, p) && p.off != 0 && t < p.count
    requires ArrayOk(h', Transforms, p.off, 2, p.count + 1, p.cap) && WordsOf(h, p.off) <= WordsOf(h', p.off)
    ensures ReadTransform(m, p.off + 8 * t) == TransformAt(h, p.off, t)
  {
    hide Stored, CStr, WordIn;
    ReadsWord(m, h', p.off, 2 * t);
    ReadsWord(m, h', p.off, 2 * t + 1);
    KeyStays(m, h, h', E, WordAt(h, p.off, 2 * t));
    KeyStays(m, h, h', E, WordAt(h, p.off, 2 * t + 1));
  }

  lemma NewTransformReads(m: seq<byte>, h: Heap, off: nat, t: nat, pattern: CString, replace: CString)
    requires Stored(m, h) && off in h && h[off].Words? && 2 * t + 1 < |h[off].ws|
    requires CopiedAt(h, WordAt(h, off, 2 * t), pattern) && CopiedAt(h, WordAt(h, off, 2 * t + 1), replace)
    ensures ReadTransform(m, off + 8 * t) ==
            Transform(if WordAt(h, off, 2 * t) == 0 then CStr(m, 0) else pattern,
                      if WordAt(h, off, 2 * t + 1) == 0 then CStr(m, 0) else replace)
  {
    hide Stored, CStr, WordIn, CopiedAt;
    ReadsWord(m, h, off, 2 * t);
    ReadsWord(m, h, off, 2 * t + 1);
    ReadsCopied(m, h, WordAt(h, off, 2 * t), pattern);
    ReadsCopied(m, h, WordAt(h, off, 2 * t + 1), replace);
  }

  /** The row one patch of which has changed: the others read as before. */
  lemma ChangedRowReads(m: seq<byte>, h: Heap, h': Heap, E: set<nat>, i: nat, j: nat)
    requires Inv(h) && i < Count(h) && j < RowAt(h, i).count && Extends(h, h', E) && Touches(h, E, i, j)
    requires Stored(m, h') && HeaderOk(h') && TableOk(h') && Count(h') == Count(h)
    requires var r := RowAt(h, i);
             && RowAt(h', i) == r && ArrayOk(h', Patches, r.off, 5, r.count, r.cap)
             && (forall l | 0 <= l < r.count && l != j :: PatchRowAt(h', r.off, l) == PatchRowAt(h, r.off, l))
    ensures var r, e := RowAt(h, i), EntryOf(h, RowAt(h, i));
            && |ReadMap(m)| == Count(h) && |e.patches| == r.count
            && ReadMap(m)[i] == e.(patches := e.patches[j := ReadPatch(m, r.off + 20 * j)])
  {
    hide Stored, CStr, WordIn, ReadMap, TableOk, HeaderOk, DistinctKeys, Owned, PatchOk, PatchOf, ReadPatch, ReadList,
         RowAt;
    var r := RowAt(h, i);
    assert RowOk(h, r);
    MapRows(m, h');
    ListReads(m, h', i);
    KeyStays(m, h, h', E, r.key);
    forall l | 0 <= l < r.count && l != j ensures ReadPatch(m, r.off + 20 * l) == PatchOf(h, PatchRowAt(h, r.off, l)) {
      OtherPatch(h, h', E, i, j, l);
      ReadsPatch(m, h', r.off, l);
    }
  }

  lemma TransformReads(m: seq<byte>, h: Heap, i: nat, j: nat, pattern: CString, replace: CString)
    requires Inv(h) && PatchAt(h, i, j) && HasHeader(h)
    requires var p := PatchRowAt(h, RowAt(h, i).off, j); p.off != 0 && p.count < p.cap
    requires Stored(m, AppendTransform(h, i, j, pattern, replace))
    ensures i < |Contents(h)| && j < |Contents(h)[i].patches|
    ensures ReadMap(m) == WithTransform(Contents(h), i, j, KeptTransform(CStr(m, 0), Free(h), pattern, replace))
  {
    hide AppendTransform, RowOk, EntryOf, Owned, DistinctKeys, Stored, CStr, ReadMap, Pad8, Free, DupPair, ReadList,
         ReadPatch, HeaderOk, TableOk, CopiedAt, IsText, Taken, MoreStrings, Contents, PatchOk, PatchOf,
         ReadTransform, PatchAt;
    PatchAtRow(h, i, j);
    var h', r := AppendTransform(h, i, j, pattern, replace), RowAt(h, i);
    var p := PatchRowAt(h, r.off, j);
    var E := {0, r.off, p.off};
    ContentsAt(h, i);
    ContentsPatch(h, i, j);
    TransformFacts(h, i, j, pattern, replace);
    DupPairAny(h, pattern, replace);
    PatchTouches(h, i, j);
    ChangedRowReads(m, h, h', E, i, j);
    LongerPatchReads(m, h, h', E, r.off, j);
    NewTransformReads(m, h', p.off, p.count, pattern, replace);
    forall k | 0 <= k < Count(h) && k != i ensures ReadMap(m)[k] == Contents(h)[k] {
      OtherRow(h, h', E, i, j, k);
      RowReads(m, h', k);
      ContentsAt(h, k);
    }
  }

  // ---------------------------------------------------------------------------------------------
  // Whole calls
  // ---------------------------------------------------------------------------------------------

  /** What is left for strings once the arrays a call needs have been made; negative when they cannot be. */
  function Left(h: Heap, c: Call): int
    requires HasHeader(h)
  {
    match c
    case Add(key) => Free(h) - if Count(h) < Capacity(h) then 0 else Pad8(8 * Capacity(h)) + Pad8(24 * Capacity(h))
    case Remove(_) => Free(h)
    case NewPatch(i, _, _) =>
      var r := RowAt(h, i);
      Free(h) - if r.count < r.cap then 0 else Pad8(20 * NewCapacity(r.cap))
    case NewTransform(i, j, _, _) =>
      var p := PatchRowAt(h, RowAt(h, i).off, j);
      Free(h) - if p.count < p.cap then 0 else Pad8(8 * NewCapacity(p.cap))
  }

  /** The map that a reader sees after a call, when `left` bytes are left for its strings. */
  function Seen(es: seq<Entry>, left: int, header: CString, c: Call): seq<Entry> {
    match c
    case Add(key) =>
      if IndexOf(es, key) < |es| || left < 0 then es else es + [Entry(Kept(header, left, key), [])]
    case Remove(_) => Apply(es, c)
    case NewPatch(i, file, find) =>
      if i >= |es| || left < 0 then es else WithPatch(es, i, KeptPatch(header, left, file, find))
    case NewTransform(i, j, pattern, replace) =>
      if i >= |es| || j >= |es[i].patches| || left < 0 then es
      else WithTransform(es, i, j, KeptTransform(header, left, pattern, replace))
  }

  lemma AddKeyReads(m: seq<byte>, h: Heap, key: CString)
    requires Inv(h) && HasHeader(h) && Stored(m, AddKey(h, key).0)
    ensures ReadMap(m) == Seen(Contents(h), Left(h, Add(key)), CStr(m, 0), Add(key))
  {
    hide AppendKey, GrowTable, RowOk, Owned, DistinctKeys, EntryOf, Contents, Stored, CStr, ReadMap, Pad8, HeaderOk,
         TableOk;
    FindIsIndexOf(h, key);
    FreeSpace(h);
    if Find(h, key) < Count(h) {
      BytesDecode(m, h);
    } else if Count(h) < Capacity(h) {
      KeyReads(m, h, key);
    } else {
      FullTable(h);
      GrowTableOk(h);
      if GrowTable(h).1 {
        GrowTableKeeps(h);
        HeaderHas(GrowTable(h).0);
        KeyReads(m, GrowTable(h).0, key);
      } else {
        AddKeyGivesUp(h, key);
        BytesDecode(m, GrowTable(h).0);
      }
    }
  }

  lemma FreeSpace(h: Heap)
    requires HeaderOk(h)
    ensures Free(h) >= 0
  {
  }

  lemma FullTable(h: Heap)
    requires TableOk(h) && Count(h) >= Capacity(h)
    ensures Count(h) == Capacity(h) > 0
  {
  }

  lemma AddPatchReads(m: seq<byte>, h: Heap, i: nat, file: CString, find: CString)
    requires Inv(h) && HasHeader(h) && i < Count(h) && Stored(m, AddPatch(h, i, file, find).0)
    ensures ReadMap(m) == Seen(Contents(h), Left(h, NewPatch(i, file, find)), CStr(m, 0), NewPatch(i, file, find))
  {
    hide AppendPatch, GrowList, RowOk, Owned, DistinctKeys, EntryOf, Contents, Stored, CStr, ReadMap, Pad8, HeaderOk,
         TableOk, Taken, Kept;
    FreeSpace(h);
    InvList(h, i);
    ContentsAt(h, i);
    if RowAt(h, i).count < RowAt(h, i).cap {
      PatchReads(m, h, i, file, find);
    } else {
      GrowListOk(h, i);
      if GrowList(h, i).1 {
        GrowListKeeps(h, i);
        PatchReads(m, GrowList(h, i).0, i, file, find);
      } else {
        UngrownList(h, i);
        BytesDecode(m, h);
      }
    }
  }

  lemma AddTransformReads(m: seq<byte>, h: Heap, i: nat, j: nat, pattern: CString, replace: CString)
    requires Inv(h) && HasHeader(h) && i < Count(h) && j < RowAt(h, i).count
    requires Stored(m, AddTransform(h, i, j, pattern, replace))
    ensures var c := NewTransform(i, j, pattern, replace); ReadMap(m) == Seen(Contents(h), Left(h, c), CStr(m, 0), c)
  {
    hide AppendTransform, GrowTransforms, RowOk, Owned, DistinctKeys, EntryOf, Contents, Stored, CStr, ReadMap, Pad8,
         HeaderOk, TableOk, Taken, Kept, PatchOf;
    FreeSpace(h);
    InvPatch(h, i, j);
    ContentsPatch(h, i, j);
    var p := PatchRowAt(h, RowAt(h, i).off, j);
    if p.count < p.cap {
      TransformReads(m, h, i, j, pattern, replace);
    } else {
      GrowTransformsOk(h, i, j);
      if GrowTransforms(h, i, j).1 {
        GrowTransformsKeeps(h, i, j);
        HeaderHas(GrowTransforms(h, i, j).0);
        TransformReads(m, GrowTransforms(h, i, j).0, i, j, pattern, replace);
      } else {
        UngrownTransforms(h, i, j);
        BytesDecode(m, h);
      }
    }
  }

  /**
   Every call, with room for it or not, as a reader of the bytes sees it: arrays that cannot be made leave the map
   as it was, and strings that cannot be copied are replaced by the first bytes of the header.
   */
  lemma CallReads(m: seq<byte>, h: Heap, m': seq<byte>, c: Call)
    requires Stored(m, h) && Inv(h) && HasHeader(h) && Stored(m', Do(h, c))
    ensures ReadMap(m') == Seen(ReadMap(m), Left(h, c), CStr(m', 0), c)
  {
    hide AddKey, AddPatch, AddTransform, RemoveKey, RowOk, Owned, DistinctKeys, EntryOf, Contents, Stored, CStr,
         ReadMap, Pad8, HeaderOk, TableOk, Left, Taken, Kept, WithPatch, WithTransform;
    BytesDecode(m, h);
    FindIsIndexOf(h, []);
    match c
    case Add(key) => AddKeyReads(m', h, key);
    case Remove(key) =>
      CallRefines(h, c);
      BytesDecode(m', Do(h, c));
    case NewPatch(i, file, find) =>
      if i < Count(h) { AddPatchReads(m', h, i, file, find); } else { BytesDecode(m', h); }
    case NewTransform(i, j, pattern, replace) =>
      if i < Count(h) {
        ContentsCount(h, i);
        if j < RowAt(h, i).count { AddTransformReads(m', h, i, j, pattern, replace); } else { BytesDecode(m', h); }
      } else {
        BytesDecode(m', h);
      }
  }

  /** The string fits, or it is what is read in its place. */
  predicate Reads(header: CString, free: int, s: CString) {
    Pad8(|s| + 1) <= free || s == header
  }

  /** A reader cannot tell the call from one that had room. */
  predicate ReadsApplied(es: seq<Entry>, left: int, header: CString, c: Call) {
    match c
    case Add(key) => IndexOf(es, key) < |es| || (left >= 0 && Reads(header, left, key))
    case Remove(_) => true
    case NewPatch(i, a, b) =>
      i < |es| ==> left >= 0 && Reads(header, left, a) && Reads(header, left - Taken(left, a), b)
    case NewTransform(i, j, a, b) =>
      i < |es| && j < |es[i].patches| ==> left >= 0 && Reads(header, left, a) && Reads(header, left - Taken(left, a), b)
  }

  /**
   A reader sees the effect of a call if and only if its arrays could be made and every string was copied or happens
   to be what the header's first bytes read as.
   */
  lemma AppliedIff(m: seq<byte>, h: Heap, m': seq<byte>, c: Call)
    requires Stored(m, h) && Inv(h) && HasHeader(h) && Stored(m', Do(h, c))
    ensures ReadMap(m') == Apply(ReadMap(m), c) <==> ReadsApplied(ReadMap(m), Left(h, c), CStr(m', 0), c)
  {
    hide Do, Inv, Stored, CStr, ReadMap, Pad8, Left, HasHeader;
    CallReads(m, h, m', c);
    SeenIsAppliedIff(ReadMap(m), Left(h, c), CStr(m', 0), c);
  }

  lemma SeenIsAppliedIff(es: seq<Entry>, left: int, header: CString, c: Call)
    ensures Seen(es, left, header, c) == Apply(es, c) <==> ReadsApplied(es, left, header, c)
  {
    hide Pad8, WithPatch, WithTransform;
    match c
    case Add(key) =>
      var (a, b) := (Entry(Kept(header, left, key), []), Entry(key, []));
      assert (es + [a])[|es|] == a && (es + [b])[|es|] == b;
    case Remove(_) =>
    case NewPatch(i, file, find) =>
      if i < |es| { PatchesDiffer(es, i, KeptPatch(header, left, file, find), Patch(file, find, [])); }
    case NewTransform(i, j, pattern, replace) =>
      if i < |es| && j < |es[i].patches| {
        Changed(es, i, j, Transform(pattern, replace));
        TransformsDiffer(es, i, j, KeptTransform(header, left, pattern, replace), Transform(pattern, replace));
      }
  }

  lemma PatchesDiffer(es: seq<Entry>, i: nat, p: Patch, q: Patch)
    requires i < |es|
    ensures WithPatch(es, i, p) == WithPatch(es, i, q) <==> p == q
    ensures WithPatch(es, i, q) != es
  {
    var n := |es[i].patches|;
    assert WithPatch(es, i, p)[i].patches[n] == p && WithPatch(es, i, q)[i].patches[n] == q;
    assert |WithPatch(es, i, q)[i].patches| == n + 1;
  }

  lemma TransformsDiffer(es: seq<Entry>, i: nat, j: nat, p: Transform, q: Transform)
    requires i < |es| && j < |es[i].patches|
    ensures WithTransform(es, i, j, p) == WithTransform(es, i, j, q) <==> p == q
  {
    var n := |es[i].patches[j].transforms|;
    assert WithTransform(es, i, j, p)[i].patches[j].transforms[n] == p;
    assert WithTransform(es, i, j, q)[i].patches[j].transforms[n] == q;
  }

  /** One call on the byte array, with room for it or not. */
  method ExecuteAny(a: Arena, c: Call)
    requires a.Wf() && Inv(a.heap) && HasHeader(a.heap) && Passable(c)
    modifies a.mem, a`heap
    ensures a.Wf()
    ensures ReadMap(a.mem[..]) == Seen(ReadMap(old(a.mem[..])), old(Left(a.heap, c)), CStr(a.mem[..], 0), c)
  {
    hide Arena.Wf, Inv, Stored, Do, Performed, ReadMap, Seen, Left, CStr, Passable, HasHeader;
    ghost var m := a.mem[..];
    WfStored(a);
    Execute(a, c);
    WfStored(a);
    CallReads(m, old(a.heap), a.mem[..], c);
  }
}
