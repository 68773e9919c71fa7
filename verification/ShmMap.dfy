/**
 The plugin -> patches -> transforms map kept in the arena: the operations as functions on blocks, the
 abstract map that a heap stands for, and that every operation does to the blocks what it should
 do to the map.
 */
module ShmMap {
  import opened Bytes
  import opened ShmHeap

  type CString = seq<byte>

  datatype Transform = Transform(pattern: CString, replace: CString)
  datatype Patch = Patch(file: CString, find: CString, transforms: seq<Transform>)
  datatype Entry = Entry(key: CString, patches: seq<Patch>)

  // ---------------------------------------------------------------------------------------------
  // What a heap stands for
  // ---------------------------------------------------------------------------------------------

  predicate IsText(h: Heap, x: nat) {
    x in h && h[x].Text?
  }

  function TextAt(h: Heap, x: nat): CString {
    if IsText(h, x) then h[x].s else []
  }

  function WordAt(h: Heap, x: nat, i: nat): nat {
    if x in h && h[x].Words? && i < |h[x].ws| then h[x].ws[i] else 0
  }

  /** One key with its lb_patch_list_shm_t, and one lb_patch_shm_t. */
  datatype Row = Row(key: nat, off: nat, count: nat, cap: nat)
  datatype PatchRow = PatchRow(file: nat, find: nat, off: nat, count: nat, cap: nat)

  function KeysOff(h: Heap): nat { WordAt(h, 0, KEYS_OFF) }
  function ValuesOff(h: Heap): nat { WordAt(h, 0, VALUES_OFF) }
  function Count(h: Heap): nat { WordAt(h, 0, COUNT) }
  function Capacity(h: Heap): nat { WordAt(h, 0, CAPACITY) }

  function RowAt(h: Heap, i: nat): Row {
    var v := ValuesOff(h);
    Row(WordAt(h, KeysOff(h), i), WordAt(h, v, 3 * i), WordAt(h, v, 3 * i + 1), WordAt(h, v, 3 * i + 2))
  }

  function PatchRowAt(h: Heap, x: nat, j: nat): PatchRow {
    PatchRow(WordAt(h, x, 5 * j), WordAt(h, x, 5 * j + 1), WordAt(h, x, 5 * j + 2), WordAt(h, x, 5 * j + 3),
             WordAt(h, x, 5 * j + 4))
  }

  function TransformAt(h: Heap, x: nat, t: nat): Transform {
    Transform(TextAt(h, WordAt(h, x, 2 * t)), TextAt(h, WordAt(h, x, 2 * t + 1)))
  }

  function PatchOf(h: Heap, p: PatchRow): Patch {
    Patch(TextAt(h, p.file), TextAt(h, p.find), seq(p.count, t requires 0 <= t => TransformAt(h, p.off, t)))
  }

  function EntryOf(h: Heap, r: Row): Entry {
    Entry(TextAt(h, r.key), seq(r.count, j requires 0 <= j => PatchOf(h, PatchRowAt(h, r.off, j))))
  }

  function Contents(h: Heap): seq<Entry> {
    seq(Count(h), i requires 0 <= i => EntryOf(h, RowAt(h, i)))
  }

  // ---------------------------------------------------------------------------------------------
  // Invariant
  // ---------------------------------------------------------------------------------------------

  /** No array yet, or an array of `width`-word elements with `count` in use and room for `cap`. */
  predicate ArrayOk(h: Heap, kind: Kind, x: nat, width: nat, count: nat, cap: nat) {
    if x == 0 then count == cap == 0
    else IsWords(h, x, kind) && count <= cap && 0 < cap && |h[x].ws| == width * count && h[x].room == width * cap
  }

  predicate PatchOk(h: Heap, p: PatchRow) {
    && IsText(h, p.file) && IsText(h, p.find)
    && ArrayOk(h, Transforms, p.off, 2, p.count, p.cap)
    && forall t | 0 <= t < p.count :: IsText(h, WordAt(h, p.off, 2 * t)) && IsText(h, WordAt(h, p.off, 2 * t + 1))
  }

  predicate RowOk(h: Heap, r: Row) {
    && IsText(h, r.key)
    && ArrayOk(h, Patches, r.off, 5, r.count, r.cap)
    && forall j | 0 <= j < r.count :: PatchOk(h, PatchRowAt(h, r.off, j))
  }

  predicate TableOk(h: Heap) {
    && KeysOff(h) != 0 && ArrayOk(h, Keys, KeysOff(h), 1, Count(h), Capacity(h))
    && ValuesOff(h) != 0 && ArrayOk(h, Values, ValuesOff(h), 3, Count(h), Capacity(h))
  }

  /** No patch array is used by two lists, and no transform array by two patches. */
  ghost predicate Owned(h: Heap) {
    && (forall i, k | 0 <= i < k < Count(h) :: RowAt(h, i).off != 0 ==> RowAt(h, i).off != RowAt(h, k).off)
    && (forall i, j, k, l | 0 <= i < Count(h) && 0 <= k < Count(h) && 0 <= j < RowAt(h, i).count &&
          0 <= l < RowAt(h, k).count &&
                            (i != k || j != l) ::
          TransformsOff(h, i, j) != 0 ==> TransformsOff(h, i, j) != TransformsOff(h, k, l))
  }

  function TransformsOff(h: Heap, i: nat, j: nat): nat {
    PatchRowAt(h, RowAt(h, i).off, j).off
  }

  ghost predicate DistinctKeys(h: Heap) {
    forall i, k | 0 <= i < k < Count(h) :: TextAt(h, RowAt(h, i).key) != TextAt(h, RowAt(h, k).key)
  }

  ghost predicate Inv(h: Heap) {
    && HeaderOk(h) && TableOk(h)
    && (forall i | 0 <= i < Count(h) :: RowOk(h, RowAt(h, i)))
    && Owned(h) && DistinctKeys(h)
  }

  // ---------------------------------------------------------------------------------------------
  // Framing: what a change to some blocks leaves alone
  // ---------------------------------------------------------------------------------------------

  /** Every block of `h` outside `E` is still there, and `E` holds no string. */
  ghost predicate Extends(h: Heap, h': Heap, E: set<nat>) {
    && (forall x | x in h && x !in E :: x in h' && h'[x] == h[x])
    && (forall x | x in E && x in h :: !h[x].Text?)
  }

  lemma TextFrame(h: Heap, h': Heap, E: set<nat>, x: nat)
    requires Extends(h, h', E) && IsText(h, x)
    ensures IsText(h', x) && TextAt(h', x) == TextAt(h, x)
  {
  }

  lemma PatchFrame(h: Heap, h': Heap, E: set<nat>, p: PatchRow)
    requires Extends(h, h', E) && PatchOk(h, p) && (p.off == 0 || p.off !in E)
    ensures PatchOk(h', p) && PatchOf(h', p) == PatchOf(h, p)
  {
    forall t | 0 <= t < p.count
      ensures TransformAt(h', p.off, t) == TransformAt(h, p.off, t)
      ensures IsText(h', WordAt(h', p.off, 2 * t)) && IsText(h', WordAt(h', p.off, 2 * t + 1))
    {
      TextFrame(h, h', E, WordAt(h, p.off, 2 * t));
      TextFrame(h, h', E, WordAt(h, p.off, 2 * t + 1));
    }
  }

  /** A list whose patch array and transform arrays are not among the changed blocks is unchanged. */
  lemma RowFrame(h: Heap, h': Heap, E: set<nat>, r: Row)
    requires Extends(h, h', E) && RowOk(h, r) && (r.off == 0 || r.off !in E)
    requires forall j | 0 <= j < r.count :: var t := PatchRowAt(h, r.off, j).off; t == 0 || t !in E
    ensures RowOk(h', r) && EntryOf(h', r) == EntryOf(h, r)
  {
    forall j | 0 <= j < r.count
      ensures PatchRowAt(h', r.off, j) == PatchRowAt(h, r.off, j)
      ensures PatchOk(h', PatchRowAt(h, r.off, j)) &&
              PatchOf(h', PatchRowAt(h, r.off, j)) == PatchOf(h, PatchRowAt(h, r.off, j))
    {
      PatchFrame(h, h', E, PatchRowAt(h, r.off, j));
    }
  }

  /** Changes to the header and the two table arrays that keep every row keep the map. */
  lemma TableFrame(h: Heap, h': Heap, E: set<nat>)
    requires Inv(h) && HeaderOk(h') && TableOk(h') && Count(h') == Count(h)
    requires Extends(h, h', E)
    requires forall x | x in E && x in h :: h[x].Words? && h[x].kind != Patches && h[x].kind != Transforms
    requires forall i | 0 <= i < Count(h) :: RowAt(h', i) == RowAt(h, i)
    ensures Inv(h') && Contents(h') == Contents(h)
  {
    RowsFrame(h, h', E, Count(h));
    hide RowOk, EntryOf, HeaderOk, TableOk, RowAt, TextAt;
  }

  // ---------------------------------------------------------------------------------------------
  // Allocation
  // ---------------------------------------------------------------------------------------------

  function Free(h: Heap): int
    requires HasHeader(h)
  {
    Hdr(h, SIZE) - Hdr(h, USED)
  }

  /** A successful allocation adds one new block and changes nothing but `used`. */
  lemma AllocFacts(h: Heap, n: nat)
    requires HeaderOk(h) && 0 < n && Pad8(n) <= Free(h)
    ensures var (h', u) := Alloc(h, n);
            && u == Hdr(h, USED) && u != 0 && u !in h && h' == h[0 := h'[0]][u := Raw(n)]
            && HeaderOk(h') && Extends(h, h', {0}) && Free(h') == Free(h) - Pad8(n)
            && h'[0] == h[0].(ws := h[0].ws[USED := u + Pad8(n)])
  {
    var (h', u) := Alloc(h, n);
    assert forall x | x in h :: x < u;
  }

  lemma DupFacts(h: Heap, s: CString)
    requires HeaderOk(h) && Pad8(|s| + 1) <= Free(h)
    ensures var (h', u) := Dup(h, s);
            && u == Hdr(h, USED) && u != 0 && u !in h && h' == h[0 := h'[0]][u := Text(s)]
            && HeaderOk(h') && Extends(h, h', {0}) && Free(h') == Free(h) - Pad8(|s| + 1)
            && h'[0] == h[0].(ws := h[0].ws[USED := u + Pad8(|s| + 1)])
  {
    AllocFacts(h, |s| + 1);
  }

  /** Two strings in a row. */
  function DupPair(h: Heap, a: CString, b: CString): (Heap, nat, nat)
    requires HasHeader(h)
  {
    var (h1, x) := Dup(h, a);
    var (h2, y) := Dup(h1, b);
    (h2, x, y)
  }

  lemma DupPairFacts(h: Heap, a: CString, b: CString)
    requires HeaderOk(h) && Pad8(|a| + 1) + Pad8(|b| + 1) <= Free(h)
    ensures var (h', x, y) := DupPair(h, a, b);
            && x != 0 && y != 0 && x != y && x !in h && y !in h && h' == h[0 := h'[0]][x := Text(a)][y := Text(b)]
            && HeaderOk(h') && Extends(h, h', {0})
            && h'[0] == h[0].(ws := h[0].ws[USED := h'[0].ws[USED]])
  {
    DupFacts(h, a);
    DupFacts(Dup(h, a).0, b);
    hide Dup, Pad8;
  }

  // ---------------------------------------------------------------------------------------------
  // Keys
  // ---------------------------------------------------------------------------------------------

  /** Index of the first row from `i` on whose key is `key`, or the count. */
  function FindFrom(h: Heap, key: CString, i: nat): (r: nat)
    requires i <= Count(h)
    ensures i <= r <= Count(h)
    ensures r < Count(h) ==> TextAt(h, RowAt(h, r).key) == key
    ensures forall k | i <= k < r :: TextAt(h, RowAt(h, k).key) != key
    decreases Count(h) - i
  {
    if i == Count(h) || TextAt(h, RowAt(h, i).key) == key then i else FindFrom(h, key, i + 1)
  }

  function Find(h: Heap, key: CString): nat {
    FindFrom(h, key, 0)
  }

  /** Both table arrays at twice the capacity; false when one allocation failed. */
  function GrowTable(h: Heap): (r: (Heap, bool))
    requires HasHeader(h) && TableOk(h)
    ensures HasHeader(r.0)
  {
    var cap := 2 * Capacity(h);
    var (h1, k) := Alloc(h, 4 * cap);
    var (h2, v) := Alloc(h1, 12 * cap);
    if k == 0 || v == 0 then (h2, false)
    else
      var h3 := h2[k := Words(Keys, h[KeysOff(h)].ws, cap)][v := Words(Values, h[ValuesOff(h)].ws, 3 * cap)];
      (h3[0 := h2[0].(ws := h2[0].ws[KEYS_OFF := k][VALUES_OFF := v][CAPACITY := cap])], true)
  }

  /** A new last row with this key and no patches. */
  function AppendKey(h: Heap, key: CString): (h': Heap)
    requires HasHeader(h) && TableOk(h)
  {
    var n, k, v := Count(h), KeysOff(h), ValuesOff(h);
    var (h1, off) := Dup(h, key);
    h1[k := h[k].(ws := h[k].ws + [off])]
      [v := h[v].(ws := h[v].ws + [0, 0, 0])]
      [0 := h1[0].(ws := h1[0].ws[COUNT := n + 1])]
  }

  lemma GrowTableFacts(h: Heap)
    requires HeaderOk(h) && TableOk(h) && Pad8(8 * Capacity(h)) + Pad8(24 * Capacity(h)) <= Free(h)
    ensures var (h', ok) := GrowTable(h);
            && ok && HeaderOk(h') && TableOk(h') && Extends(h, h', {0})
            && Capacity(h') == 2 * Capacity(h) && Count(h') == Count(h)
            && Free(h') == Free(h) - Pad8(8 * Capacity(h)) - Pad8(24 * Capacity(h))
            && h'[KeysOff(h')].ws == h[KeysOff(h)].ws && h'[ValuesOff(h')].ws == h[ValuesOff(h)].ws
  {
    hide Alloc, Pad8, Extends;
    var cap := 2 * Capacity(h);
    AllocTwice(h, 4 * cap, 12 * cap);
    var h1, k := Alloc(h, 4 * cap).0, Alloc(h, 4 * cap).1;
    var h2, v := Alloc(h1, 12 * cap).0, Alloc(h1, 12 * cap).1;
    var h' := GrowTable(h).0;
    assert h' == h[0 := h'[0]][k := h'[k]][v := h'[v]];
    TableMoved(h, h2, h', k, v);
  }

  lemma AllocTwice(h: Heap, n: nat, n': nat)
    requires HeaderOk(h) && 0 < n && 0 < n' && Pad8(n) + Pad8(n') <= Free(h)
    ensures var (h1, k) := Alloc(h, n);
            var (h2, v) := Alloc(h1, n');
            && k != 0 && v != 0 && k != v && k !in h && v !in h && h2 == h[0 := h2[0]][k := Raw(n)][v := Raw(n')]
            && HeaderOk(h2) && Free(h2) == Free(h) - Pad8(n) - Pad8(n')
            && h2[0] == h[0].(ws := h[0].ws[USED := h2[0].ws[USED]])
  {
    hide Alloc, Pad8, Extends;
    AllocFacts(h, n);
    var (h1, k) := Alloc(h, n);
    AllocFacts(h1, n');
    var (h2, v) := Alloc(h1, n');
    TwoBlocks(h, h1, h2, k, Raw(n), v, Raw(n'));
  }

  lemma TwoBlocks(h: Heap, h1: Heap, h2: Heap, k: nat, x: Block, v: nat, y: Block)
    requires 0 in h1 && 0 in h2 && k != 0 && v != 0 && k !in h && v !in h1
    requires h1 == h[0 := h1[0]][k := x] && h2 == h1[0 := h2[0]][v := y]
    ensures k != v && v !in h && h2 == h[0 := h2[0]][k := x][v := y]
  {
  }

  /** Two raw blocks turned into the new table arrays. */
  lemma TableMoved(h: Heap, h2: Heap, h': Heap, k: nat, v: nat)
    requires HeaderOk(h) && TableOk(h) && HeaderOk(h2) && k != 0 && v != 0 && k != v && k !in h && v !in h
    requires var cap := 2 * Capacity(h);
             && h2 == h[0 := h2[0]][k := Raw(4 * cap)][v := Raw(12 * cap)]
             && h2[0] == h[0].(ws := h[0].ws[USED := h2[0].ws[USED]])
             && h' == h[0 := h2[0].(ws := h2[0].ws[KEYS_OFF := k][VALUES_OFF := v][CAPACITY := cap])]
                       [k := Words(Keys, h[KeysOff(h)].ws, cap)][v := Words(Values, h[ValuesOff(h)].ws, 3 * cap)]
    ensures HeaderOk(h') && TableOk(h') && Extends(h, h', {0}) && Free(h') == Free(h2)
    ensures KeysOff(h') == k && ValuesOff(h') == v && Count(h') == Count(h) && Capacity(h') == 2 * Capacity(h)
  {
    assert forall a | a in h' :: a in h2 && Extent(h'[a]) == Extent(h2[a]);
  }

  /** Doubling the table keeps the map. */
  lemma GrowTableKeeps(h: Heap)
    requires Inv(h) && Pad8(8 * Capacity(h)) + Pad8(24 * Capacity(h)) <= Free(h)
    ensures var (h', ok) := GrowTable(h);
            && ok && Inv(h') && Contents(h') == Contents(h)
            && Capacity(h') == 2 * Capacity(h) && Count(h') == Count(h)
            && Free(h') == Free(h) - Pad8(8 * Capacity(h)) - Pad8(24 * Capacity(h))
  {
    hide GrowTable, RowOk, Owned, DistinctKeys, Contents, EntryOf;
    GrowTableFacts(h);
    TableFrame(h, GrowTable(h).0, {0});
  }

  lemma AppendKeyFacts(h: Heap, key: CString)
    requires HeaderOk(h) && TableOk(h) && Count(h) < Capacity(h) && Pad8(|key| + 1) <= Free(h)
    ensures var h', n := AppendKey(h, key), Count(h);
            && HeaderOk(h') && TableOk(h') && Extends(h, h', {0, KeysOff(h), ValuesOff(h)})
            && Count(h') == n + 1 && TextAt(h', RowAt(h', n).key) == key && IsText(h', RowAt(h', n).key)
            && RowAt(h', n) == Row(RowAt(h', n).key, 0, 0, 0)
            && forall i | 0 <= i < n :: RowAt(h', i) == RowAt(h, i)
  {
    DupFacts(h, key);
    hide Dup, Pad8;
    var h', n := AppendKey(h, key), Count(h);
    assert h'[ValuesOff(h)].ws[3 * n] == 0 && h'[ValuesOff(h)].ws[3 * n + 1] == 0 &&
           h'[ValuesOff(h)].ws[3 * n + 2] == 0;
  }

  /** A new key is added behind all others, with no patches, and no other entry changes. */
  lemma AppendKeyAppends(h: Heap, key: CString)
    requires Inv(h) && Count(h) < Capacity(h) && Find(h, key) == Count(h) && 0 !in key
    requires Pad8(|key| + 1) <= Free(h)
    ensures Inv(AppendKey(h, key)) && Contents(AppendKey(h, key)) == Contents(h) + [Entry(key, [])]
  {
    hide AppendKey, RowOk, EntryOf, Owned, DistinctKeys, Contents;
    var h', n, E := AppendKey(h, key), Count(h), {0, KeysOff(h), ValuesOff(h)};
    AppendKeyFacts(h, key);
    RowsFrame(h, h', E, n);
    NewRow(h', RowAt(h', n), key);
    RowAppended(h, h', key);
  }

  lemma RowAppended(h: Heap, h': Heap, key: CString)
    requires Owned(h) && DistinctKeys(h) && Count(h') == Count(h) + 1 && Find(h, key) == Count(h)
    requires forall i | 0 <= i < Count(h) :: RowAt(h', i) == RowAt(h, i) &&
               EntryOf(h', RowAt(h', i)) == EntryOf(h, RowAt(h, i)) &&
               TextAt(h', RowAt(h', i).key) == TextAt(h, RowAt(h, i).key)
    requires forall i, j | 0 <= i < Count(h) && 0 <= j < RowAt(h, i).count ::
             TransformsOff(h', i, j) == TransformsOff(h, i, j)
    requires var r := RowAt(h', Count(h));
             r.off == r.count == 0 && TextAt(h', r.key) == key && EntryOf(h', r) == Entry(key, [])
    ensures Owned(h') && DistinctKeys(h') && Contents(h') == Contents(h) + [Entry(key, [])]
  {
    hide RowAt, EntryOf, TextAt, TransformsOff, Count;
  }

  lemma NewRow(h: Heap, r: Row, key: CString)
    requires r == Row(r.key, 0, 0, 0) && IsText(h, r.key) && TextAt(h, r.key) == key
    ensures RowOk(h, r) && EntryOf(h, r) == Entry(key, [])
  {
  }

  /** The first `n` rows keep their entries when only the header and the table arrays change. */
  lemma RowsFrame(h: Heap, h': Heap, E: set<nat>, n: nat)
    requires Inv(h) && Extends(h, h', E) && n <= Count(h)
    requires forall x | x in E && x in h :: h[x].Words? && h[x].kind != Patches && h[x].kind != Transforms
    requires forall i | 0 <= i < n :: RowAt(h', i) == RowAt(h, i)
    ensures forall i | 0 <= i < n :: RowOk(h', RowAt(h', i)) && EntryOf(h', RowAt(h', i)) == EntryOf(h, RowAt(h, i))
    ensures forall i | 0 <= i < n :: TextAt(h', RowAt(h', i).key) == TextAt(h, RowAt(h, i).key)
    ensures forall i, j | 0 <= i < n && 0 <= j < RowAt(h, i).count :: TransformsOff(h', i, j) == TransformsOff(h, i, j)
  {
    forall i | 0 <= i < n
      ensures RowOk(h', RowAt(h', i)) && EntryOf(h', RowAt(h', i)) == EntryOf(h, RowAt(h, i))
      ensures TextAt(h', RowAt(h', i).key) == TextAt(h, RowAt(h, i).key)
    {
      RowFrame(h, h', E, RowAt(h, i));
      TextFrame(h, h', E, RowAt(h, i).key);
    }
    forall i, j | 0 <= i < n && 0 <= j < RowAt(h, i).count
      ensures TransformsOff(h', i, j) == TransformsOff(h, i, j)
    {
      var x := RowAt(h, i).off;
      assert x in h && x !in E;
    }
  }

  /** The key at row `r` and its list taken out; the rows behind it move down by one. */
  function RemoveRow(h: Heap, r: nat): Heap
    requires HasHeader(h) && TableOk(h) && r < Count(h)
  {
    var k, v := KeysOff(h), ValuesOff(h);
    CutWords(CutWords(h, k, r, 1), v, 3 * r, 3)[0 := h[0].(ws := h[0].ws[COUNT := Count(h) - 1])]
  }

  lemma RemoveRowFacts(h: Heap, r: nat)
    requires HeaderOk(h) && TableOk(h) && r < Count(h)
    ensures var h' := RemoveRow(h, r);
            && HeaderOk(h') && TableOk(h') && Extends(h, h', {0, KeysOff(h), ValuesOff(h)})
            && Count(h') == Count(h) - 1 && Free(h') == Free(h)
            && forall i | 0 <= i < Count(h) - 1 :: RowAt(h', i) == RowAt(h, if i < r then i else i + 1)
  {
  }

  /** Removing a key removes its entry and changes no other entry. */
  lemma RemoveRowRemoves(h: Heap, r: nat)
    requires Inv(h) && r < Count(h)
    ensures Inv(RemoveRow(h, r)) && Contents(RemoveRow(h, r)) == Contents(h)[..r] + Contents(h)[r + 1..]
  {
    hide RemoveRow, RowOk, EntryOf, Owned, DistinctKeys, Contents;
    var h', E := RemoveRow(h, r), {0, KeysOff(h), ValuesOff(h)};
    RemoveRowFacts(h, r);
    forall i | 0 <= i < Count(h')
      ensures var s := if i < r then i else i + 1;
              RowOk(h', RowAt(h', i)) && EntryOf(h', RowAt(h', i)) == EntryOf(h, RowAt(h, s)) &&
              TextAt(h', RowAt(h', i).key) == TextAt(h, RowAt(h, s).key)
    {
      RowFrameAt(h, h', E, if i < r then i else i + 1);
    }
    forall i, j | 0 <= i < Count(h') && 0 <= j < RowAt(h', i).count
      ensures TransformsOff(h', i, j) == TransformsOff(h, if i < r then i else i + 1, j)
    {
      RowFrameAt(h, h', E, if i < r then i else i + 1);
    }
    RowRemoved(h, h', r);
  }

  /** A row keeps its entry when only the header and the table arrays change. */
  lemma RowFrameAt(h: Heap, h': Heap, E: set<nat>, i: nat)
    requires Inv(h) && Extends(h, h', E) && i < Count(h)
    requires forall x | x in E && x in h :: h[x].Words? && h[x].kind != Patches && h[x].kind != Transforms
    ensures var r := RowAt(h, i);
            && RowOk(h', r) && EntryOf(h', r) == EntryOf(h, r) && TextAt(h', r.key) == TextAt(h, r.key)
            && forall j | 0 <= j < r.count :: PatchRowAt(h', r.off, j) == PatchRowAt(h, r.off, j)
  {
    var r := RowAt(h, i);
    assert RowOk(h, r);
    RowFrame(h, h', E, r);
    TextFrame(h, h', E, r.key);
  }

  lemma RowRemoved(h: Heap, h': Heap, r: nat)
    requires Owned(h) && DistinctKeys(h) && r < Count(h) && Count(h') == Count(h) - 1
    requires forall i | 0 <= i < Count(h') ::
               var s := if i < r then i else i + 1;
               RowAt(h', i) == RowAt(h, s) && EntryOf(h', RowAt(h', i)) == EntryOf(h, RowAt(h, s)) &&
               TextAt(h', RowAt(h', i).key) == TextAt(h, RowAt(h, s).key)
    requires forall i, j | 0 <= i < Count(h') && 0 <= j < RowAt(h', i).count ::
               TransformsOff(h', i, j) == TransformsOff(h, if i < r then i else i + 1, j)
    ensures Owned(h') && DistinctKeys(h') && Contents(h') == Contents(h)[..r] + Contents(h)[r + 1..]
  {
    hide RowAt, EntryOf, TextAt, TransformsOff, Count;
  }

  // ---------------------------------------------------------------------------------------------
  // Lists and patches
  // ---------------------------------------------------------------------------------------------

  function NewCapacity(cap: nat): nat {
    if cap == 0 then 4 else 2 * cap
  }

  function WordsOf(h: Heap, x: nat): seq<nat> {
    if x in h && h[x].Words? && x != 0 then h[x].ws else []
  }

  predicate ListAt(h: Heap, i: nat) {
    HasHeader(h) && TableOk(h) && i < Count(h) && RowOk(h, RowAt(h, i))
  }

  function GrowList(h: Heap, i: nat): (Heap, bool)
    requires ListAt(h, i)
  {
    var r, v := RowAt(h, i), ValuesOff(h);
    var cap := NewCapacity(r.cap);
    var (h1, x) := Alloc(h, 20 * cap);
    if x == 0 then (h1, false)
    else (h1[x := Words(Patches, WordsOf(h, r.off), 5 * cap)]
            [v := h[v].(ws := h[v].ws[3 * i := x][3 * i + 2 := cap])], true)
  }

  function AppendPatch(h: Heap, i: nat, file: CString, find: CString): Heap
    requires ListAt(h, i) && RowAt(h, i).off != 0
  {
    var r, v := RowAt(h, i), ValuesOff(h);
    var (h2, f, g) := DupPair(h, file, find);
    h2[r.off := h[r.off].(ws := h[r.off].ws + [f, g, 0, 0, 0])][v := h[v].(ws := h[v].ws[3 * i + 1 := r.count + 1])]
  }

  predicate PatchAt(h: Heap, i: nat, j: nat) {
    ListAt(h, i) && j < RowAt(h, i).count
  }

  function GrowTransforms(h: Heap, i: nat, j: nat): (Heap, bool)
    requires PatchAt(h, i, j)
  {
    var x := RowAt(h, i).off;
    var p := PatchRowAt(h, x, j);
    var cap := NewCapacity(p.cap);
    var (h1, t) := Alloc(h, 8 * cap);
    if t == 0 then (h1, false)
    else (h1[t := Words(Transforms, WordsOf(h, p.off), 2 * cap)]
            [x := h[x].(ws := h[x].ws[5 * j + 2 := t][5 * j + 4 := cap])], true)
  }

  function AppendTransform(h: Heap, i: nat, j: nat, pattern: CString, replace: CString): Heap
    requires PatchAt(h, i, j) && PatchRowAt(h, RowAt(h, i).off, j).off != 0
  {
    var x := RowAt(h, i).off;
    var p := PatchRowAt(h, x, j);
    var (h2, a, b) := DupPair(h, pattern, replace);
    h2[p.off := h[p.off].(ws := h[p.off].ws + [a, b])][x := h[x].(ws := h[x].ws[5 * j + 3 := p.count + 1])]
  }

  /**
   What an operation on list `i` (and on its patch `j`) has to leave alone for the map to change in
   row `i` only: the other rows, and every transform array but that of patch `j`, which may be new.
   */
  ghost predicate OnlyRow(h: Heap, h': Heap, i: nat, j: nat) {
    && i < Count(h) && Count(h') == Count(h)
    && (forall k | 0 <= k < Count(h) && k != i ::
          RowAt(h', k) == RowAt(h, k) && EntryOf(h', RowAt(h, k)) == EntryOf(h, RowAt(h, k)))
    && (forall k | 0 <= k < Count(h) :: TextAt(h', RowAt(h', k).key) == TextAt(h, RowAt(h, k).key))
    && (forall k | 0 <= k < Count(h') :: RowOk(h', RowAt(h', k)))
    && (RowAt(h', i).off == RowAt(h, i).off || RowAt(h', i).off !in h)
    && (forall k, l | 0 <= k < Count(h) && 0 <= l < RowAt(h', k).count && (k != i || l != j) ::
          l < RowAt(h, k).count && TransformsOff(h', k, l) == TransformsOff(h, k, l))
    && (j < RowAt(h', i).count ==>
          var t := TransformsOff(h', i, j);
          t == 0 || t !in h || (j < RowAt(h, i).count && t == TransformsOff(h, i, j)))
  }

  lemma TransformsInHeap(h: Heap, i: nat, j: nat)
    requires i < Count(h) && RowOk(h, RowAt(h, i)) && j < RowAt(h, i).count
    ensures TransformsOff(h, i, j) == 0 || TransformsOff(h, i, j) in h
  {
    assert PatchOk(h, PatchRowAt(h, RowAt(h, i).off, j));
  }

  lemma OwnedAfter(h: Heap, h': Heap, i: nat, j: nat)
    requires Owned(h) && (forall k | 0 <= k < Count(h) :: RowOk(h, RowAt(h, k))) && OnlyRow(h, h', i, j)
    ensures Owned(h')
  {
    forall k, l | 0 <= k < Count(h) && 0 <= l < RowAt(h, k).count
      ensures TransformsOff(h, k, l) == 0 || TransformsOff(h, k, l) in h
    {
      TransformsInHeap(h, k, l);
    }
    forall k | 0 <= k < Count(h) ensures RowAt(h, k).off == 0 || RowAt(h, k).off in h {
      assert RowOk(h, RowAt(h, k));
    }
    hide RowAt, EntryOf, TextAt, TransformsOff, Count, RowOk;
  }

  /** The map after an operation that only touches row `i`. */
  lemma RowReplaced(h: Heap, h': Heap, i: nat, j: nat)
    requires Inv(h) && HeaderOk(h') && TableOk(h') && OnlyRow(h, h', i, j)
    ensures Inv(h') && Contents(h') == Contents(h)[i := EntryOf(h', RowAt(h', i))]
  {
    hide RowAt, EntryOf, TextAt, TransformsOff, Count, RowOk, HeaderOk, TableOk, Owned;
    OwnedAfter(h, h', i, j);
  }

  lemma GrowListFacts(h: Heap, i: nat)
    requires HeaderOk(h) && ListAt(h, i) && RowAt(h, i).count == RowAt(h, i).cap
    requires Pad8(20 * NewCapacity(RowAt(h, i).cap)) <= Free(h)
    ensures var (h', ok) := GrowList(h, i);
            var r, r' := RowAt(h, i), RowAt(h', i);
            && ok && HeaderOk(h') && TableOk(h') && Extends(h, h', {0, ValuesOff(h)}) && Count(h') == Count(h)
            && Free(h') == Free(h) - Pad8(20 * NewCapacity(r.cap))
            && (forall k | 0 <= k < Count(h) && k != i :: RowAt(h', k) == RowAt(h, k))
            && r'.off != 0 && r'.off !in h && r' == r.(off := r'.off, cap := NewCapacity(r.cap))
            && r'.off in h' && h'[r'.off] == Words(Patches, WordsOf(h, r.off), 5 * NewCapacity(r.cap))
  {
    AllocFacts(h, 20 * NewCapacity(RowAt(h, i).cap));
    hide Alloc, Pad8, RowOk;
  }

  /** Blocks an operation on patch `j` of list `i` may change: the table, that list's array and that patch's. */
  ghost predicate Touches(h: Heap, E: set<nat>, i: nat, j: nat) {
    forall x | x in E && x in h ::
      && h[x].Words?
      && (h[x].kind == Patches ==> x == RowAt(h, i).off)
      && (h[x].kind == Transforms ==> j < RowAt(h, i).count && x == TransformsOff(h, i, j))
  }

  /** The other rows keep their entries. */
  lemma OtherRow(h: Heap, h': Heap, E: set<nat>, i: nat, j: nat, k: nat)
    requires Inv(h) && Extends(h, h', E) && Touches(h, E, i, j) && i < Count(h) && k < Count(h) && k != i
    ensures var r := RowAt(h, k);
            && RowOk(h', r) && EntryOf(h', r) == EntryOf(h, r) && TextAt(h', r.key) == TextAt(h, r.key)
            && forall l | 0 <= l < r.count :: PatchRowAt(h', r.off, l) == PatchRowAt(h, r.off, l)
  {
    hide DistinctKeys, EntryOf, TableOk, HeaderOk;
    var r := RowAt(h, k);
    assert RowOk(h, r) && RowOk(h, RowAt(h, i));
    forall l | 0 <= l < r.count ensures var t := PatchRowAt(h, r.off, l).off; t == 0 || t !in E {
      assert PatchOk(h, PatchRowAt(h, r.off, l));
      assert TransformsOff(h, k, l) == PatchRowAt(h, r.off, l).off;
    }
    RowFrame(h, h', E, r);
    TextFrame(h, h', E, r.key);
  }

  lemma OtherPatch(h: Heap, h': Heap, E: set<nat>, i: nat, j: nat, l: nat)
    requires Inv(h) && Extends(h, h', E) && Touches(h, E, i, j) && i < Count(h) && l < RowAt(h, i).count && l != j
    ensures var p := PatchRowAt(h, RowAt(h, i).off, l); PatchOk(h', p) && PatchOf(h', p) == PatchOf(h, p)
  {
    hide DistinctKeys, EntryOf, TableOk, HeaderOk, PatchOf;
    assert RowOk(h, RowAt(h, i));
    var p := PatchRowAt(h, RowAt(h, i).off, l);
    assert TransformsOff(h, i, l) == p.off;
    PatchFrame(h, h', E, p);
  }

  /** A larger patch array with the same patches. */
  lemma GrowListKeeps(h: Heap, i: nat)
    requires Inv(h) && i < Count(h) && RowAt(h, i).count == RowAt(h, i).cap
    requires Pad8(20 * NewCapacity(RowAt(h, i).cap)) <= Free(h)
    ensures var (h', ok) := GrowList(h, i);
            && ok && Inv(h') && Contents(h') == Contents(h) && Count(h') == Count(h)
            && RowAt(h', i).off != 0 && RowAt(h', i).count == RowAt(h, i).count < RowAt(h', i).cap
            && Free(h') == Free(h) - Pad8(20 * NewCapacity(RowAt(h, i).cap))
  {
    hide GrowList, EntryOf, Owned, DistinctKeys, Contents, Pad8, RowOk, HeaderOk, TableOk;
    assert ListAt(h, i) by { HeaderHas(h); }
    var h', E, r, n := GrowList(h, i).0, {0, ValuesOff(h)}, RowAt(h, i), RowAt(h, i).count;
    GrowListFacts(h, i);
    TableTouches(h, i, n);
    MovedList(h, h', E, i, n);
    forall k | 0 <= k < Count(h) && k != i
      ensures RowOk(h', RowAt(h', k)) && EntryOf(h', RowAt(h, k)) == EntryOf(h, RowAt(h, k)) &&
              TextAt(h', RowAt(h', k).key) == TextAt(h, RowAt(h, k).key)
      ensures forall l | 0 <= l < RowAt(h, k).count :: TransformsOff(h', k, l) == TransformsOff(h, k, l)
    {
      OtherRow(h, h', E, i, n, k);
    }
    RowReplaced(h, h', i, n);
    ContentsAt(h, i);
  }

  lemma HeaderHas(h: Heap)
    requires HeaderOk(h)
    ensures HasHeader(h)
  {
  }

  lemma ContentsAt(h: Heap, i: nat)
    requires i < Count(h)
    ensures |Contents(h)| == Count(h) && Contents(h)[i] == EntryOf(h, RowAt(h, i))
  {
  }

  lemma TableTouches(h: Heap, i: nat, j: nat)
    requires HeaderOk(h) && TableOk(h)
    ensures Touches(h, {0, ValuesOff(h)}, i, j)
  {
  }

  lemma MovedList(h: Heap, h': Heap, E: set<nat>, i: nat, j: nat)
    requires Inv(h) && Extends(h, h', E) && Touches(h, E, i, j) && i < Count(h) && j >= RowAt(h, i).count
    requires RowAt(h', i).off != 0 && IsWords(h', RowAt(h', i).off, Patches)
    requires RowAt(h', i) == RowAt(h, i).(off := RowAt(h', i).off, cap := RowAt(h', i).cap)
    requires h'[RowAt(h', i).off].ws == WordsOf(h, RowAt(h, i).off) && h'[RowAt(h', i).off].room == 5 * RowAt(h', i).cap
    requires RowAt(h, i).count < RowAt(h', i).cap
    ensures var r, r' := RowAt(h, i), RowAt(h', i);
            && RowOk(h', r') && EntryOf(h', r') == EntryOf(h, r) && TextAt(h', r'.key) == TextAt(h, r.key)
            && forall l | 0 <= l < r.count :: PatchRowAt(h', r'.off, l) == PatchRowAt(h, r.off, l)
  {
    hide RowAt, TableOk, HeaderOk, DistinctKeys, Owned, PatchOk, PatchOf;
    var r, r' := RowAt(h, i), RowAt(h', i);
    assert RowOk(h, r);
    TextFrame(h, h', E, r.key);
    forall l | 0 <= l < r.count
      ensures PatchRowAt(h', r'.off, l) == PatchRowAt(h, r.off, l)
      ensures PatchOk(h', PatchRowAt(h, r.off, l)) &&
              PatchOf(h', PatchRowAt(h, r.off, l)) == PatchOf(h, PatchRowAt(h, r.off, l))
    {
      OtherPatch(h, h', E, i, j, l);
    }
  }

  lemma AppendPatchFacts(h: Heap, i: nat, file: CString, find: CString)
    requires HeaderOk(h) && ListAt(h, i) && RowAt(h, i).off != 0 && RowAt(h, i).count < RowAt(h, i).cap
    requires Pad8(|file| + 1) + Pad8(|find| + 1) <= Free(h)
    ensures var h', r := AppendPatch(h, i, file, find), RowAt(h, i);
            && HeaderOk(h') && TableOk(h') && Extends(h, h', {0, ValuesOff(h), r.off}) && Count(h') == Count(h)
            && (forall k | 0 <= k < Count(h) && k != i :: RowAt(h', k) == RowAt(h, k))
            && RowAt(h', i) == r.(count := r.count + 1)
            && ArrayOk(h', Patches, r.off, 5, r.count + 1, r.cap) && WordsOf(h, r.off) <= WordsOf(h', r.off)
            && var p := PatchRowAt(h', r.off, r.count);
            && p == PatchRow(p.file, p.find, 0, 0, 0) && IsText(h', p.file) && IsText(h', p.find)
            && TextAt(h', p.file) == file && TextAt(h', p.find) == find
  {
    hide DupPair, Pad8, RowOk;
    ListArray(h, i);
    DupPairFacts(h, file, find);
    var h', r := AppendPatch(h, i, file, find), RowAt(h, i);
    var n, ws := 5 * r.count, h'[r.off].ws;
    assert ws[n + 2] == 0 && ws[n + 3] == 0 && ws[n + 4] == 0;
  }

  lemma ListArray(h: Heap, i: nat)
    requires ListAt(h, i)
    ensures ArrayOk(h, Patches, RowAt(h, i).off, 5, RowAt(h, i).count, RowAt(h, i).cap)
  {
  }

  lemma NewPatch(h: Heap, p: PatchRow)
    requires p == PatchRow(p.file, p.find, 0, 0, 0) && IsText(h, p.file) && IsText(h, p.find)
    ensures PatchOk(h, p) && PatchOf(h, p) == Patch(TextAt(h, p.file), TextAt(h, p.find), [])
  {
  }

  lemma ListTouches(h: Heap, i: nat, j: nat)
    requires HeaderOk(h) && TableOk(h) && i < Count(h) && RowOk(h, RowAt(h, i))
    ensures Touches(h, {0, ValuesOff(h), RowAt(h, i).off}, i, j)
  {
  }

  /** A new patch without transforms behind the others of its list; no other list changes. */
  lemma AppendPatchAppends(h: Heap, i: nat, file: CString, find: CString)
    requires Inv(h) && i < Count(h) && RowAt(h, i).off != 0 && RowAt(h, i).count < RowAt(h, i).cap
    requires Pad8(|file| + 1) + Pad8(|find| + 1) <= Free(h)
    ensures HasHeader(h) && Inv(AppendPatch(h, i, file, find))
    ensures var e := Contents(h)[i];
            Contents(AppendPatch(h, i, file, find)) ==
            Contents(h)[i := e.(patches := e.patches + [Patch(file, find, [])])]
  {
    hide AppendPatch, EntryOf, Owned, DistinctKeys, Contents, Pad8, RowOk, HeaderOk, TableOk, TextAt;
    HeaderHas(h);
    assert ListAt(h, i);
    var h', r, n := AppendPatch(h, i, file, find), RowAt(h, i), RowAt(h, i).count;
    var E := {0, ValuesOff(h), r.off};
    AppendPatchFacts(h, i, file, find);
    ListTouches(h, i, n);
    NewPatch(h', PatchRowAt(h', r.off, n));
    LongerList(h, h', E, i);
    forall k | 0 <= k < Count(h) && k != i
      ensures RowOk(h', RowAt(h', k)) && EntryOf(h', RowAt(h, k)) == EntryOf(h, RowAt(h, k)) &&
              TextAt(h', RowAt(h', k).key) == TextAt(h, RowAt(h, k).key)
      ensures forall l | 0 <= l < RowAt(h, k).count :: TransformsOff(h', k, l) == TransformsOff(h, k, l)
    {
      OtherRow(h, h', E, i, n, k);
    }
    RowReplaced(h, h', i, n);
    ContentsAt(h, i);
  }

  lemma LongerList(h: Heap, h': Heap, E: set<nat>, i: nat)
    requires Inv(h) && i < Count(h) && Extends(h, h', E) && Touches(h, E, i, RowAt(h, i).count)
    requires var r := RowAt(h, i);
             && r.off != 0 && r.count < r.cap && RowAt(h', i) == r.(count := r.count + 1)
             && ArrayOk(h', Patches, r.off, 5, r.count + 1, r.cap) && WordsOf(h, r.off) <= WordsOf(h', r.off)
             && PatchOk(h', PatchRowAt(h', r.off, r.count))
    ensures var r, r' := RowAt(h, i), RowAt(h', i);
            && RowOk(h', r') && TextAt(h', r'.key) == TextAt(h, r.key)
            && EntryOf(h', r') ==
               EntryOf(h, r).(patches := EntryOf(h, r).patches + [PatchOf(h', PatchRowAt(h', r.off, r.count))])
            && forall l | 0 <= l < r.count :: PatchRowAt(h', r.off, l) == PatchRowAt(h, r.off, l)
  {
    hide RowAt, TableOk, HeaderOk, DistinctKeys, Owned, PatchOk, PatchOf;
    var r := RowAt(h, i);
    assert RowOk(h, r);
    TextFrame(h, h', E, r.key);
    forall l | 0 <= l < r.count
      ensures PatchRowAt(h', r.off, l) == PatchRowAt(h, r.off, l)
      ensures PatchOk(h', PatchRowAt(h, r.off, l)) &&
              PatchOf(h', PatchRowAt(h, r.off, l)) == PatchOf(h, PatchRowAt(h, r.off, l))
    {
      OtherPatch(h, h', E, i, r.count, l);
    }
  }

  lemma GrowTransformsFacts(h: Heap, i: nat, j: nat)
    requires HeaderOk(h) && PatchAt(h, i, j)
    requires var p := PatchRowAt(h, RowAt(h, i).off, j);
             p.count == p.cap && Pad8(8 * NewCapacity(p.cap)) <= Free(h)
    ensures var (h', ok), r := GrowTransforms(h, i, j), RowAt(h, i);
            var p, p' := PatchRowAt(h, r.off, j), PatchRowAt(h', r.off, j);
            && ok && HeaderOk(h') && TableOk(h') && Extends(h, h', {0, r.off}) && Count(h') == Count(h)
            && (forall k | 0 <= k < Count(h) :: RowAt(h', k) == RowAt(h, k))
            && ArrayOk(h', Patches, r.off, 5, r.count, r.cap)
            && (forall l | 0 <= l < r.count && l != j :: PatchRowAt(h', r.off, l) == PatchRowAt(h, r.off, l))
            && p'.off != 0 && p'.off !in h && p' == p.(off := p'.off, cap := NewCapacity(p.cap))
            && p'.off in h' && h'[p'.off] == Words(Transforms, WordsOf(h, p.off), 2 * NewCapacity(p.cap))
            && Free(h') == Free(h) - Pad8(8 * NewCapacity(p.cap))
  {
    hide Alloc, Pad8, RowOk, PatchOk, HeaderOk;
    PatchArrays(h, i, j);
    var (r, n) := (RowAt(h, i), NewCapacity(PatchRowAt(h, RowAt(h, i).off, j).cap));
    AllocFacts(h, 8 * n);
    var (h1, t) := Alloc(h, 8 * n);
    GrownHeader(h1, t, Words(Transforms, WordsOf(h, PatchRowAt(h, r.off, j).off), 2 * n), r.off,
                h[r.off].(ws := h[r.off].ws[5 * j + 2 := t][5 * j + 4 := n]));
  }

  /** A raw block made an array and another array rewritten: the header still describes the heap. */
  lemma GrownHeader(h: Heap, t: nat, a: Block, x: nat, b: Block)
    requires HeaderOk(h) && t in h && x in h && t != 0 && x != 0 && t != x
    requires Extent(a) == Extent(h[t]) && Extent(b) == Extent(h[x])
    ensures HeaderOk(h[t := a][x := b]) && Free(h[t := a][x := b]) == Free(h)
  {
  }

  /** The row whose patch `j` was replaced by one with other contents. */
  lemma ReplacedPatch(h: Heap, h': Heap, E: set<nat>, i: nat, j: nat)
    requires Inv(h) && i < Count(h) && j < RowAt(h, i).count && Extends(h, h', E) && Touches(h, E, i, j)
    requires var r := RowAt(h, i);
             && RowAt(h', i) == r && ArrayOk(h', Patches, r.off, 5, r.count, r.cap)
             && (forall l | 0 <= l < r.count && l != j :: PatchRowAt(h', r.off, l) == PatchRowAt(h, r.off, l))
             && PatchOk(h', PatchRowAt(h', r.off, j))
    ensures var r := RowAt(h, i);
            && RowOk(h', r) && TextAt(h', r.key) == TextAt(h, r.key) && |EntryOf(h, r).patches| == r.count
            && EntryOf(h', r) ==
               EntryOf(h, r).(patches := EntryOf(h, r).patches[j := PatchOf(h', PatchRowAt(h', r.off, j))])
  {
    hide RowAt, TableOk, HeaderOk, DistinctKeys, Owned, PatchOk, PatchOf;
    var r := RowAt(h, i);
    assert RowOk(h, r);
    TextFrame(h, h', E, r.key);
    forall l | 0 <= l < r.count && l != j
      ensures PatchOk(h', PatchRowAt(h', r.off, l)) &&
              PatchOf(h', PatchRowAt(h', r.off, l)) == PatchOf(h, PatchRowAt(h, r.off, l))
    {
      OtherPatch(h, h', E, i, j, l);
    }
  }

  /** A larger transform array with the same transforms. */
  lemma MovedTransforms(h: Heap, h': Heap, E: set<nat>, p: PatchRow, p': PatchRow)
    requires Extends(h, h', E) && PatchOk(h, p) && p'.off != 0 && IsWords(h', p'.off, Transforms)
    requires p' == p.(off := p'.off, cap := p'.cap) && p.count < p'.cap
    requires h'[p'.off].ws == WordsOf(h, p.off) && h'[p'.off].room == 2 * p'.cap
    ensures PatchOk(h', p') && PatchOf(h', p') == PatchOf(h, p)
  {
    TextFrame(h, h', E, p.file);
    TextFrame(h, h', E, p.find);
    forall t | 0 <= t < p.count
      ensures TransformAt(h', p'.off, t) == TransformAt(h, p.off, t)
      ensures IsText(h', WordAt(h', p'.off, 2 * t)) && IsText(h', WordAt(h', p'.off, 2 * t + 1))
    {
      TextFrame(h, h', E, WordAt(h, p.off, 2 * t));
      TextFrame(h, h', E, WordAt(h, p.off, 2 * t + 1));
    }
  }

  lemma PatchTouches(h: Heap, i: nat, j: nat)
    requires HeaderOk(h) && TableOk(h) && i < Count(h) && RowOk(h, RowAt(h, i)) && j < RowAt(h, i).count
    ensures Touches(h, {0, RowAt(h, i).off}, i, j)
    ensures Touches(h, {0, RowAt(h, i).off, TransformsOff(h, i, j)}, i, j)
    ensures PatchOk(h, PatchRowAt(h, RowAt(h, i).off, j))
  {
    assert PatchOk(h, PatchRowAt(h, RowAt(h, i).off, j));
  }

  /** The map after an operation that replaced patch `j` of row `i`. */
  lemma PatchReplaced(h: Heap, h': Heap, E: set<nat>, i: nat, j: nat)
    requires Inv(h) && HeaderOk(h') && TableOk(h') && i < Count(h) && j < RowAt(h, i).count
    requires Extends(h, h', E) && Touches(h, E, i, j) && Count(h') == Count(h)
    requires forall k | 0 <= k < Count(h) :: RowAt(h', k) == RowAt(h, k)
    requires var r := RowAt(h, i);
             && ArrayOk(h', Patches, r.off, 5, r.count, r.cap)
             && (forall l | 0 <= l < r.count && l != j :: PatchRowAt(h', r.off, l) == PatchRowAt(h, r.off, l))
             && PatchOk(h', PatchRowAt(h', r.off, j))
    requires var t := TransformsOff(h', i, j); t == 0 || t !in h || t == TransformsOff(h, i, j)
    ensures Inv(h')
    ensures var e, p := Contents(h)[i], PatchOf(h', PatchRowAt(h', RowAt(h, i).off, j));
            && |e.patches| == RowAt(h, i).count
            && Contents(h') == Contents(h)[i := e.(patches := e.patches[j := p])]
  {
    hide EntryOf, Owned, DistinctKeys, Contents, RowOk, HeaderOk, TableOk, TextAt, ArrayOk, PatchOk, PatchOf;
    ReplacedPatch(h, h', E, i, j);
    forall k | 0 <= k < Count(h) && k != i
      ensures RowOk(h', RowAt(h', k)) && EntryOf(h', RowAt(h, k)) == EntryOf(h, RowAt(h, k)) &&
              TextAt(h', RowAt(h', k).key) == TextAt(h, RowAt(h, k).key)
      ensures forall l | 0 <= l < RowAt(h, k).count :: TransformsOff(h', k, l) == TransformsOff(h, k, l)
    {
      OtherRow(h, h', E, i, j, k);
    }
    RowReplaced(h, h', i, j);
    ContentsAt(h, i);
  }

  lemma GrowTransformsKeeps(h: Heap, i: nat, j: nat)
    requires Inv(h) && i < Count(h) && j < RowAt(h, i).count
    requires var p := PatchRowAt(h, RowAt(h, i).off, j);
             p.count == p.cap && Pad8(8 * NewCapacity(p.cap)) <= Free(h)
    ensures var (h', ok), r := GrowTransforms(h, i, j), RowAt(h, i);
            var p, p' := PatchRowAt(h, r.off, j), PatchRowAt(h', r.off, j);
            && ok && Inv(h') && Contents(h') == Contents(h) && Count(h') == Count(h) && RowAt(h', i) == r
            && p'.off != 0 && p'.count == p.count < p'.cap
            && Free(h') == Free(h) - Pad8(8 * NewCapacity(p.cap))
  {
    hide GrowTransforms, EntryOf, Owned, DistinctKeys, Contents, Pad8, RowOk, HeaderOk, TableOk, PatchOk, PatchOf;
    HeaderHas(h);
    assert PatchAt(h, i, j);
    var h', r := GrowTransforms(h, i, j).0, RowAt(h, i);
    GrowTransformsFacts(h, i, j);
    PatchTouches(h, i, j);
    MovedTransforms(h, h', {0, r.off}, PatchRowAt(h, r.off, j), PatchRowAt(h', r.off, j));
    PatchReplaced(h, h', {0, r.off}, i, j);
    ContentsPatch(h, i, j);
    var e := Contents(h)[i];
    assert e.patches[j := e.patches[j]] == e.patches && Contents(h)[i := e] == Contents(h);
  }

  lemma ContentsPatch(h: Heap, i: nat, j: nat)
    requires i < Count(h) && j < RowAt(h, i).count
    ensures |Contents(h)| == Count(h) && |Contents(h)[i].patches| == RowAt(h, i).count
    ensures Contents(h)[i].patches[j] == PatchOf(h, PatchRowAt(h, RowAt(h, i).off, j))
  {
  }

  lemma AppendTransformFacts(h: Heap, i: nat, j: nat, pattern: CString, replace: CString)
    requires HeaderOk(h) && PatchAt(h, i, j)
    requires var p := PatchRowAt(h, RowAt(h, i).off, j); p.off != 0 && p.count < p.cap
    requires Pad8(|pattern| + 1) + Pad8(|replace| + 1) <= Free(h)
    ensures var h', r := AppendTransform(h, i, j, pattern, replace), RowAt(h, i);
            var p, p' := PatchRowAt(h, r.off, j), PatchRowAt(h', r.off, j);
            && HeaderOk(h') && TableOk(h') && Extends(h, h', {0, r.off, p.off}) && Count(h') == Count(h)
            && (forall k | 0 <= k < Count(h) :: RowAt(h', k) == RowAt(h, k))
            && ArrayOk(h', Patches, r.off, 5, r.count, r.cap)
            && (forall l | 0 <= l < r.count && l != j :: PatchRowAt(h', r.off, l) == PatchRowAt(h, r.off, l))
            && p' == p.(count := p.count + 1)
            && ArrayOk(h', Transforms, p.off, 2, p.count + 1, p.cap)
            && WordsOf(h, p.off) <= WordsOf(h', p.off)
            && IsText(h', WordAt(h', p.off, 2 * p.count)) && IsText(h', WordAt(h', p.off, 2 * p.count + 1))
            && TransformAt(h', p.off, p.count) == Transform(pattern, replace)
  {
    hide DupPair, Pad8, RowOk, PatchOk;
    PatchArrays(h, i, j);
    DupPairFacts(h, pattern, replace);
  }

  lemma PatchArrays(h: Heap, i: nat, j: nat)
    requires PatchAt(h, i, j)
    ensures var r := RowAt(h, i);
            var p := PatchRowAt(h, r.off, j);
            ArrayOk(h, Patches, r.off, 5, r.count, r.cap) && ArrayOk(h, Transforms, p.off, 2, p.count, p.cap)
  {
    assert PatchOk(h, PatchRowAt(h, RowAt(h, i).off, j));
  }

  lemma LongerTransforms(h: Heap, h': Heap, E: set<nat>, p: PatchRow)
    requires Extends(h, h', E) && PatchOk(h, p) && p.off != 0
    requires ArrayOk(h', Transforms, p.off, 2, p.count + 1, p.cap) && WordsOf(h, p.off) <= WordsOf(h', p.off)
    requires IsText(h', WordAt(h', p.off, 2 * p.count)) && IsText(h', WordAt(h', p.off, 2 * p.count + 1))
    ensures var p' := p.(count := p.count + 1);
            && PatchOk(h', p')
            && PatchOf(h', p') ==
               PatchOf(h, p).(transforms := PatchOf(h, p).transforms + [TransformAt(h', p.off, p.count)])
  {
    TextFrame(h, h', E, p.file);
    TextFrame(h, h', E, p.find);
    forall t | 0 <= t < p.count
      ensures TransformAt(h', p.off, t) == TransformAt(h, p.off, t)
      ensures IsText(h', WordAt(h', p.off, 2 * t)) && IsText(h', WordAt(h', p.off, 2 * t + 1))
    {
      TextFrame(h, h', E, WordAt(h, p.off, 2 * t));
      TextFrame(h, h', E, WordAt(h, p.off, 2 * t + 1));
    }
  }

  lemma PatchAtRow(h: Heap, i: nat, j: nat)
    requires PatchAt(h, i, j)
    ensures i < Count(h) && RowOk(h, RowAt(h, i)) && j < RowAt(h, i).count && TableOk(h)
  {
  }

  /** A new transform behind the others of its patch; no other patch and no other list changes. */
  lemma AppendTransformAppends(h: Heap, i: nat, j: nat, pattern: CString, replace: CString)
    requires Inv(h) && PatchAt(h, i, j)
    requires var p := PatchRowAt(h, RowAt(h, i).off, j); p.off != 0 && p.count < p.cap
    requires Pad8(|pattern| + 1) + Pad8(|replace| + 1) <= Free(h)
    ensures Inv(AppendTransform(h, i, j, pattern, replace))
    ensures i < |Contents(h)| && j < |Contents(h)[i].patches|
    ensures var e := Contents(h)[i];
            var p := e.patches[j];
            var q := p.(transforms := p.transforms + [Transform(pattern, replace)]);
            Contents(AppendTransform(h, i, j, pattern, replace)) == Contents(h)[i := e.(patches := e.patches[j := q])]
  {
    hide AppendTransform, EntryOf, Owned, DistinctKeys, Contents, Pad8, RowOk, HeaderOk, TableOk, PatchOk, PatchOf,
         TransformAt, ArrayOk, Extends, Touches, PatchAt, RowAt, IsText, WordAt;
    HeaderHas(h);
    PatchAtRow(h, i, j);
    var h', r := AppendTransform(h, i, j, pattern, replace), RowAt(h, i);
    var p := PatchRowAt(h, r.off, j);
    var E := {0, r.off, p.off};
    AppendTransformFacts(h, i, j, pattern, replace);
    PatchTouches(h, i, j);
    LongerTransforms(h, h', E, p);
    PatchReplaced(h, h', E, i, j);
    ContentsPatch(h, i, j);
  }
}
