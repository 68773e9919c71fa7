/**
 The calls on the arena itself, whole sequences of them, and reading the map back from the bytes.
 */
module ShmCalls {
  import opened Bytes
  import opened Options
  import opened ShmHeap
  import opened ShmMap
  import opened ShmArena

  // ---------------------------------------------------------------------------------------------
  // Reading the bytes
  // ---------------------------------------------------------------------------------------------

  function WordIn(m: seq<byte>, at: nat): nat {
    if at + 4 <= |m| then Word32(m, at) else 0
  }

  /** The C string at `at`. */
  function CStr(m: seq<byte>, at: nat): CString
    decreases |m| - at
  {
    if at >= |m| || m[at] == 0 then [] else [m[at]] + CStr(m, at + 1)
  }

  function ReadTransform(m: seq<byte>, at: nat): Transform {
    Transform(CStr(m, WordIn(m, at)), CStr(m, WordIn(m, at + 4)))
  }

  function ReadPatch(m: seq<byte>, at: nat): Patch {
    var off := WordIn(m, at + 8);
    Patch(CStr(m, WordIn(m, at)), CStr(m, WordIn(m, at + 4)),
          seq(WordIn(m, at + 12), t requires 0 <= t => ReadTransform(m, off + 8 * t)))
  }

  function ReadList(m: seq<byte>, at: nat): seq<Patch> {
    var off := WordIn(m, at);
    seq(WordIn(m, at + 4), j requires 0 <= j => ReadPatch(m, off + 20 * j))
  }

  /** What a reader of the mapped memory sees, walking offsets from the header. */
  function ReadMap(m: seq<byte>): seq<Entry> {
    var keys, values := WordIn(m, 8), WordIn(m, 12);
    seq(WordIn(m, 16), i requires 0 <= i => Entry(CStr(m, WordIn(m, keys + 4 * i)), ReadList(m, values + 12 * i)))
  }

  lemma ReadsWord(m: seq<byte>, h: Heap, x: nat, i: nat)
    requires Stored(m, h) && x in h && h[x].Words? && i < |h[x].ws|
    ensures WordIn(m, x + 4 * i) == WordAt(h, x, i)
  {
    assert Holds(m, x, h[x]);
    hide Word32;
  }

  lemma ReadsText(m: seq<byte>, h: Heap, x: nat)
    requires Stored(m, h) && IsText(h, x)
    ensures CStr(m, x) == TextAt(h, x)
  {
    var s := h[x].s;
    assert Holds(m, x, h[x]);
    assert forall k | 0 <= k < |s| :: m[x + k] == m[x..x + |s|][k] == s[k];
    ReadsTextFrom(m, x, s, 0);
  }

  lemma {:induction false} ReadsTextFrom(m: seq<byte>, x: nat, s: CString, k: nat)
    requires k <= |s| && x + |s| < |m| && m[x + |s|] == 0 && 0 !in s
    requires forall n | 0 <= n < |s| :: m[x + n] == s[n]
    ensures CStr(m, x + k) == s[k..]
    decreases |s| - k
  {
    if k < |s| {
      ReadsTextFrom(m, x, s, k + 1);
      assert m[x + k] == s[k] && s[k] in s;
    }
  }

  lemma ReadsPatch(m: seq<byte>, h: Heap, x: nat, j: nat)
    requires Stored(m, h) && x in h && h[x].Words? && 5 * j + 4 < |h[x].ws| && PatchOk(h, PatchRowAt(h, x, j))
    ensures ReadPatch(m, x + 20 * j) == PatchOf(h, PatchRowAt(h, x, j))
  {
    hide Stored, CStr, WordIn;
    var p, at := PatchRowAt(h, x, j), x + 20 * j;
    ReadsWord(m, h, x, 5 * j);
    ReadsWord(m, h, x, 5 * j + 1);
    ReadsWord(m, h, x, 5 * j + 2);
    ReadsWord(m, h, x, 5 * j + 3);
    ReadsText(m, h, p.file);
    ReadsText(m, h, p.find);
    forall t | 0 <= t < p.count ensures ReadTransform(m, p.off + 8 * t) == TransformAt(h, p.off, t) {
      ReadsWord(m, h, p.off, 2 * t);
      ReadsWord(m, h, p.off, 2 * t + 1);
      ReadsText(m, h, WordAt(h, p.off, 2 * t));
      ReadsText(m, h, WordAt(h, p.off, 2 * t + 1));
    }
  }

  lemma ReadsRow(m: seq<byte>, h: Heap, i: nat)
    requires Stored(m, h) && TableOk(h) && i < Count(h) && RowOk(h, RowAt(h, i))
    ensures Entry(CStr(m, WordIn(m, KeysOff(h) + 4 * i)), ReadList(m, ValuesOff(h) + 12 * i)) == EntryOf(h, RowAt(h, i))
  {
    hide Stored, CStr, WordIn, PatchOk, ReadPatch, PatchOf;
    var r, v := RowAt(h, i), ValuesOff(h);
    ReadsWord(m, h, KeysOff(h), i);
    ReadsWord(m, h, v, 3 * i);
    ReadsWord(m, h, v, 3 * i + 1);
    ReadsText(m, h, r.key);
    forall j | 0 <= j < r.count ensures ReadPatch(m, r.off + 20 * j) == PatchOf(h, PatchRowAt(h, r.off, j)) {
      ReadsPatch(m, h, r.off, j);
    }
  }

  /** Decoding the bytes gives exactly the map that the blocks stand for. */
  lemma BytesDecode(m: seq<byte>, h: Heap)
    requires Stored(m, h) && Inv(h)
    ensures ReadMap(m) == Contents(h)
  {
    hide Stored, CStr, WordIn, RowOk, ReadList, EntryOf, Owned, DistinctKeys;
    ReadsWord(m, h, 0, KEYS_OFF);
    ReadsWord(m, h, 0, VALUES_OFF);
    ReadsWord(m, h, 0, COUNT);
    forall i | 0 <= i < Count(h)
      ensures Entry(CStr(m, WordIn(m, KeysOff(h) + 4 * i)), ReadList(m, ValuesOff(h) + 12 * i)) ==
              EntryOf(h, RowAt(h, i))
    {
      ReadsRow(m, h, i);
    }
  }

  // ---------------------------------------------------------------------------------------------
  // Sequences of calls
  // ---------------------------------------------------------------------------------------------

  /** A call, with lists and patches named by their position. */
  datatype Call =
    | Add(key: CString)
    | Remove(key: CString)
    | NewPatch(i: nat, file: CString, find: CString)
    | NewTransform(i: nat, j: nat, pattern: CString, replace: CString)

  /** The call's effect on the blocks; a list or patch that is not there cannot be passed. */
  ghost function Do(h: Heap, c: Call): Heap
    requires Inv(h)
  {
    HeaderHas(h);
    match c
    case Add(key) => AddKey(h, key).0
    case Remove(key) => RemoveKey(h, key)
    case NewPatch(i, file, find) => if i < Count(h) then AddPatch(h, i, file, find).0 else h
    case NewTransform(i, j, p, r) => if i < Count(h) && j < RowAt(h, i).count then AddTransform(h, i, j, p, r) else h
  }

  ghost predicate HasRoom(h: Heap, c: Call)
    requires Inv(h)
  {
    HeaderHas(h);
    match c
    case Add(key) => 0 !in key && (Find(h, key) < Count(h) || KeyNeeds(h, key) <= Free(h))
    case Remove(_) => true
    case NewPatch(i, file, find) => i < Count(h) ==> PatchNeeds(h, i, file, find) <= Free(h)
    case NewTransform(i, j, p, r) => i < Count(h) && j < RowAt(h, i).count ==> TransformNeeds(h, i, j, p, r) <= Free(h)
  }

  /** Position of the first entry with this key, or the length. */
  function IndexOf(es: seq<Entry>, key: CString): (r: nat)
    ensures r <= |es| && (r < |es| ==> es[r].key == key)
    ensures forall k | 0 <= k < r :: es[k].key != key
  {
    if es == [] || es[0].key == key then 0 else 1 + IndexOf(es[1..], key)
  }

  /** The call's effect on the map. */
  function Apply(es: seq<Entry>, c: Call): seq<Entry> {
    match c
    case Add(key) => if IndexOf(es, key) < |es| then es else es + [Entry(key, [])]
    case Remove(key) => var r := IndexOf(es, key); if r < |es| then es[..r] + es[r + 1..] else es
    case NewPatch(i, file, find) => if i < |es| then WithPatch(es, i, Patch(file, find, [])) else es
    case NewTransform(i, j, p, r) =>
      if i < |es| && j < |es[i].patches| then WithTransform(es, i, j, Transform(p, r)) else es
  }

  lemma FindIsIndexOf(h: Heap, key: CString)
    ensures |Contents(h)| == Count(h) && Find(h, key) == IndexOf(Contents(h), key)
  {
    var es := Contents(h);
    assert |es| == Count(h) && forall k | 0 <= k < |es| :: es[k].key == TextAt(h, RowAt(h, k).key);
  }

  /** One call with room for it refines its effect on the map. */
  lemma CallRefines(h: Heap, c: Call)
    requires Inv(h) && HasRoom(h, c)
    ensures Inv(Do(h, c)) && Contents(Do(h, c)) == Apply(Contents(h), c)
  {
    hide AddKey, AddPatch, AddTransform, RemoveRow, RowOk, Owned, DistinctKeys, EntryOf, Contents, TableOk, HeaderOk,
         Pad8;
    HeaderHas(h);
    match c
    case Add(key) =>
      FindIsIndexOf(h, key);
      AddKeyRefines(h, key);
    case Remove(key) =>
      FindIsIndexOf(h, key);
      if Find(h, key) < Count(h) { RemoveRowRemoves(h, Find(h, key)); }
    case NewPatch(i, file, find) =>
      FindIsIndexOf(h, []);
      if i < Count(h) { AddPatchRefines(h, i, file, find); }
    case NewTransform(i, j, p, r) =>
      FindIsIndexOf(h, []);
      if i < Count(h) {
        ContentsCount(h, i);
        if j < RowAt(h, i).count { AddTransformRefines(h, i, j, p, r); }
      }
  }

  lemma ContentsCount(h: Heap, i: nat)
    requires i < Count(h)
    ensures |Contents(h)| == Count(h) && |Contents(h)[i].patches| == RowAt(h, i).count
  {
  }

  /** Every call of the sequence has room when its turn comes. */
  ghost predicate AllHaveRoom(h: Heap, calls: seq<Call>)
    requires Inv(h)
    decreases |calls|
  {
    if calls == [] then true
    else
      HasRoom(h, calls[0]) &&
      (CallRefines(h, calls[0]);
       AllHaveRoom(Do(h, calls[0]), calls[1..]))
  }

  ghost function DoAll(h: Heap, calls: seq<Call>): Heap
    requires Inv(h) && AllHaveRoom(h, calls)
    decreases |calls|
  {
    if calls == [] then h
    else
      CallRefines(h, calls[0]);
      DoAll(Do(h, calls[0]), calls[1..])
  }

  function ApplyAll(es: seq<Entry>, calls: seq<Call>): seq<Entry>
    decreases |calls|
  {
    if calls == [] then es else ApplyAll(Apply(es, calls[0]), calls[1..])
  }

  /**
   Any sequence of calls with enough room: blocks stay separate, keys stay distinct, and the map is
   what the same calls make of an ordinary map with insertion order.
   */
  lemma {:induction false} CallsRefine(h: Heap, calls: seq<Call>)
    requires Inv(h) && AllHaveRoom(h, calls)
    ensures Inv(DoAll(h, calls)) && Contents(DoAll(h, calls)) == ApplyAll(Contents(h), calls)
    decreases |calls|
  {
    hide Do, HasRoom, Inv, Contents, Apply;
    if calls != [] {
      CallRefines(h, calls[0]);
      CallsRefine(Do(h, calls[0]), calls[1..]);
    }
  }

  /** The entries as an unordered map. */
  ghost predicate Distinct(es: seq<Entry>) {
    forall i, k | 0 <= i < k < |es| :: es[i].key != es[k].key
  }

  ghost function AsMap(es: seq<Entry>): (m: map<CString, seq<Patch>>)
    requires Distinct(es)
    ensures forall i | 0 <= i < |es| :: es[i].key in m && m[es[i].key] == es[i].patches
    ensures forall k | k in m :: HasKey(es, k)
  {
    map i | 0 <= i < |es| :: es[i].key := es[i].patches
  }

  lemma MapIs(es: seq<Entry>, m: map<CString, seq<Patch>>)
    requires Distinct(es)
    requires forall i | 0 <= i < |es| :: es[i].key in m && m[es[i].key] == es[i].patches
    requires forall k | k in m :: HasKey(es, k)
    ensures AsMap(es) == m
  {
  }

  /** The arena's map is a map: what each call does to it, by key. */
  lemma ApplyAsMap(es: seq<Entry>, c: Call)
    requires Distinct(es)
    ensures Distinct(Apply(es, c))
    ensures var m, m' := AsMap(es), AsMap(Apply(es, c));
            match c
            case Add(key) => m' == if key in m then m else m[key := []]
            case Remove(key) => m' == m - {key}
            case NewPatch(i, file, find) => i < |es| ==> m' == m[es[i].key := m[es[i].key] + [Patch(file, find, [])]]
            case NewTransform(i, j, p, r) =>
              i < |es| && j < |es[i].patches| ==>
                var q := es[i].patches[j];
                m' == m[es[i].key := m[es[i].key][j := q.(transforms := q.transforms + [Transform(p, r)])]]
  {
    hide AsMap, Apply, Distinct;
    match c
    case Add(key) => AddAsMap(es, key);
    case Remove(key) => RemoveAsMap(es, key);
    case NewPatch(i, file, find) => NewPatchAsMap(es, i, file, find);
    case NewTransform(i, j, p, r) => NewTransformAsMap(es, i, j, p, r);
  }

  lemma AddAsMap(es: seq<Entry>, key: CString)
    requires Distinct(es)
    ensures var m, es' := AsMap(es), Apply(es, Add(key));
            Distinct(es') && AsMap(es') == if key in m then m else m[key := []]
  {
    hide AsMap, Distinct;
    if IndexOf(es, key) == |es| { AddedToMap(es, key); } else { MapAt(es, IndexOf(es, key)); }
  }

  lemma RemoveAsMap(es: seq<Entry>, key: CString)
    requires Distinct(es)
    ensures var es' := Apply(es, Remove(key)); Distinct(es') && AsMap(es') == AsMap(es) - {key}
  {
    hide AsMap, Distinct;
    if IndexOf(es, key) < |es| {
      RemovedFromMap(es, IndexOf(es, key));
    } else {
      Present(es, key);
      assert AsMap(es) - {key} == AsMap(es);
    }
  }

  lemma NewPatchAsMap(es: seq<Entry>, i: nat, file: CString, find: CString)
    requires Distinct(es)
    ensures var m, es' := AsMap(es), Apply(es, NewPatch(i, file, find));
            && Distinct(es')
            && (i < |es| ==> es[i].key in m && AsMap(es') == m[es[i].key := m[es[i].key] + [Patch(file, find, [])]])
  {
    hide AsMap, Distinct;
    if i < |es| {
      ReplacedInMap(es, i, es[i].patches + [Patch(file, find, [])]);
      MapAt(es, i);
    }
  }

  lemma MapAt(es: seq<Entry>, i: nat)
    requires Distinct(es) && i < |es|
    ensures es[i].key in AsMap(es) && AsMap(es)[es[i].key] == es[i].patches
  {
  }

  lemma NewTransformAsMap(es: seq<Entry>, i: nat, j: nat, p: CString, r: CString)
    requires Distinct(es)
    ensures var m, es' := AsMap(es), Apply(es, NewTransform(i, j, p, r));
            && Distinct(es')
            && (i < |es| && j < |es[i].patches| ==>
                  && es[i].key in m && j < |m[es[i].key]|
                  && var q := es[i].patches[j];
                     AsMap(es') ==
                     m[es[i].key := m[es[i].key][j := q.(transforms := q.transforms + [Transform(p, r)])]])
  {
    hide AsMap, Distinct;
    if i < |es| && j < |es[i].patches| {
      var q := es[i].patches[j];
      ReplacedInMap(es, i, es[i].patches[j := q.(transforms := q.transforms + [Transform(p, r)])]);
      MapAt(es, i);
    }
  }

  lemma AddedToMap(es: seq<Entry>, key: CString)
    requires Distinct(es) && IndexOf(es, key) == |es|
    ensures var es' := es + [Entry(key, [])];
            Distinct(es') && key !in AsMap(es) && AsMap(es') == AsMap(es)[key := []]
  {
    hide AsMap, Distinct, IndexOf;
    var es', m := es + [Entry(key, [])], AsMap(es);
    Present(es, key);
    AddedKeepsDistinct(es, key);
    forall i | 0 <= i < |es'| ensures es'[i].key in m[key := []] && m[key := []][es'[i].key] == es'[i].patches {
      if i < |es| { MapAt(es, i); }
    }
    forall k | k in m[key := []] ensures HasKey(es', k) {
      if k == key {
        assert es'[|es|].key == k;
      } else {
        var n :| 0 <= n < |es| && es[n].key == k;
        assert es'[n].key == k;
      }
    }
    MapIs(es', m[key := []]);
  }

  lemma AddedKeepsDistinct(es: seq<Entry>, key: CString)
    requires Distinct(es) && IndexOf(es, key) == |es|
    ensures Distinct(es + [Entry(key, [])])
  {
    hide IndexOf;
  }

  lemma RemovedFromMap(es: seq<Entry>, r: nat)
    requires Distinct(es) && r < |es|
    ensures var es' := es[..r] + es[r + 1..];
            Distinct(es') && AsMap(es') == AsMap(es) - {es[r].key}
  {
    hide AsMap, Distinct;
    var es', m := es[..r] + es[r + 1..], AsMap(es);
    RemovedKeepsDistinct(es, r);
    forall i | 0 <= i < |es'| ensures es'[i].key in m - {es[r].key} && m[es'[i].key] == es'[i].patches {
      var n := if i < r then i else i + 1;
      assert es'[i] == es[n];
      MapAt(es, n);
      KeysDiffer(es, n, r);
    }
    forall k | k in m - {es[r].key} ensures HasKey(es', k) {
      var i :| 0 <= i < |es| && es[i].key == k;
      assert es'[if i < r then i else i - 1].key == k;
    }
    MapIs(es', m - {es[r].key});
  }

  lemma KeysDiffer(es: seq<Entry>, i: nat, j: nat)
    requires Distinct(es) && i < |es| && j < |es| && i != j
    ensures es[i].key != es[j].key
  {
  }

  lemma RemovedKeepsDistinct(es: seq<Entry>, r: nat)
    requires Distinct(es) && r < |es|
    ensures Distinct(es[..r] + es[r + 1..])
  {
  }

  ghost predicate HasKey(es: seq<Entry>, k: CString) {
    exists i | 0 <= i < |es| :: es[i].key == k
  }

  lemma Present(es: seq<Entry>, key: CString)
    requires Distinct(es) && IndexOf(es, key) == |es|
    ensures key !in AsMap(es)
  {
  }

  lemma ReplacedInMap(es: seq<Entry>, i: nat, ps: seq<Patch>)
    requires Distinct(es) && i < |es|
    ensures var es' := es[i := es[i].(patches := ps)];
            Distinct(es') && AsMap(es') == AsMap(es)[es[i].key := ps]
  {
    hide AsMap;
    var es', m := es[i := es[i].(patches := ps)], AsMap(es);
    forall k | k in m ensures HasKey(es', k) {
      var n :| 0 <= n < |es| && es[n].key == k;
      assert es'[n].key == k;
    }
    forall n | 0 <= n < |es| ensures es[n].key in m && m[es[n].key] == es[n].patches { MapAt(es, n); }
    assert es'[i].key == es[i].key;
    MapIs(es', m[es[i].key := ps]);
  }

  lemma ContentsDistinct(h: Heap)
    requires Inv(h)
    ensures Distinct(Contents(h))
  {
    hide RowOk, Owned;
  }

  /** One call as a reader of the bytes sees it. */
  lemma BytesRefine(m: seq<byte>, h: Heap, m': seq<byte>, c: Call)
    requires Stored(m, h) && Inv(h) && HasRoom(h, c) && Stored(m', Do(h, c))
    ensures Inv(Do(h, c)) && ReadMap(m') == Apply(ReadMap(m), c)
  {
    hide Stored, Inv, HasRoom, Do, ReadMap, Apply, Contents;
    CallRefines(h, c);
    BytesDecode(m, h);
    BytesDecode(m', Do(h, c));
  }

  /** What a caller is promised about the bytes: from `m`, the call has made `m'`. */
  ghost predicate Performed(m: seq<byte>, h: Heap, m': seq<byte>, h': Heap, c: Call)
    requires Inv(h)
  {
    HasRoom(h, c) ==> Inv(h') && ReadMap(m') == Apply(ReadMap(m), c)
  }

  lemma IsPerformed(m: seq<byte>, h: Heap, m': seq<byte>, c: Call)
    requires Stored(m, h) && Inv(h) && Stored(m', Do(h, c))
    ensures Performed(m, h, m', Do(h, c), c)
  {
    hide Stored, Inv, HasRoom, Do, ReadMap, Apply;
    if HasRoom(h, c) { BytesRefine(m, h, m', c); }
  }

  lemma WfStored(a: Arena)
    requires a.Wf()
    ensures Stored(a.mem[..], a.heap)
  {
  }

  // ---------------------------------------------------------------------------------------------
  // The calls on the arena
  // ---------------------------------------------------------------------------------------------

  lemma WfHeader(a: Arena)
    requires a.Wf()
    ensures HasHeader(a.heap) && a.heap[0].room == HEADER_WORDS
  {
  }

  /** `salloc` for an array, and `memset` of it. */
  method NewArray(a: Arena, kind: Kind, room: nat) returns (x: nat)
    requires a.Wf() && 0 < room <= MAX_ARENA / 2
    modifies a.mem, a`heap
    ensures a.Wf() && x == Alloc(old(a.heap), 4 * room).1
    ensures a.heap == if x == 0 then old(a.heap) else Alloc(old(a.heap), 4 * room).0[x := Words(kind, [], room)]
    ensures x != 0 ==> x !in old(a.heap)
  {
    hide Arena.Wf, Pad8;
    WfHeader(a);
    x := a.SAlloc(4 * room);
    if x != 0 {
      a.MakeWords(x, kind, room);
      a.ZeroWords(x, 0, room);
    }
  }

  /** The heap with an array more, its offset in a word of the header. */
  function WithArray(h: Heap, field: nat, kind: Kind, room: nat): Heap
    requires HasHeader(h) && field < HEADER_WORDS
  {
    var u := Hdr(h, USED);
    h[u := Words(kind, [], room)][0 := h[0].(ws := h[0].ws[USED := u + 4 * room][field := u])]
  }

  /** One of the two arrays of a new table. */
  method FirstArray(a: Arena, field: nat, kind: Kind, room: nat)
    requires a.Wf() && USED < field < HEADER_WORDS && 0 < room <= MAX_ARENA / 2 && room % 2 == 0
    requires HasHeader(a.heap) && Hdr(a.heap, USED) + 4 * room <= a.mem.Length
    modifies a.mem, a`heap
    ensures a.Wf() && HasHeader(old(a.heap)) && a.heap == WithArray(old(a.heap), field, kind, room)
  {
    hide Stored;
    EvenRoom(room);
    var x := NewArray(a, kind, room);
    a.StoreWord(0, field, x);
  }

  lemma EvenRoom(room: nat)
    requires room % 2 == 0
    ensures Pad8(4 * room) == 4 * room
  {
  }

  /** `hashmap_init` on a new arena. */
  method HashmapInit(a: Arena)
    requires a.Wf() && a.heap.Keys == {0} && a.heap[0].ws[USED] == 24 && a.mem.Length >= 280
    modifies a.mem, a`heap
    ensures a.Wf() && Inv(a.heap) && Contents(a.heap) == [] && Capacity(a.heap) == 16
    ensures a.heap.Keys == {0, 24, 88} && HasHeader(a.heap) && Hdr(a.heap, USED) == 280
  {
    hide Stored, Inv, Contents, Pad8, Alloc;
    a.StoreWord(0, CAPACITY, 16);
    a.StoreWord(0, COUNT, 0);
    FirstArray(a, KEYS_OFF, Keys, 16);
    FirstArray(a, VALUES_OFF, Values, 48);
    EmptyTable(a.heap);
  }

  lemma EmptyTable(h: Heap)
    requires HeaderOk(h) && Count(h) == 0 && Capacity(h) == 16
    requires KeysOff(h) != 0 && ValuesOff(h) != 0 && KeysOff(h) in h && ValuesOff(h) in h
    requires h[KeysOff(h)] == Words(Keys, [], 16) && h[ValuesOff(h)] == Words(Values, [], 48)
    ensures Inv(h) && Contents(h) == []
  {
  }

  /** `hashmap_get`: the row of the key, if there is one. */
  method HashmapGet(a: Arena, key: CString) returns (r: Option<nat>)
    requires a.Wf() && Inv(a.heap) && 0 !in key
    ensures r == if Find(a.heap, key) < Count(a.heap) then Some(Find(a.heap, key)) else None
  {
    hide Holds, Separate, Owned, DistinctKeys;
    var keys := a.LoadWord(0, KEYS_OFF);
    var count := a.LoadWord(0, COUNT);
    var i := 0;
    while i < count
      invariant i <= count && FindFrom(a.heap, key, i) == Find(a.heap, key)
    {
      var off := a.LoadWord(keys, i);
      assert RowOk(a.heap, RowAt(a.heap, i));
      var eq := a.StrEq(off, key);
      if eq { return Some(i); }
      i := i + 1;
    }
    r := None;
  }

  /** The growing branch of `hashmap_add_key`. */
  method GrowArrays(a: Arena) returns (ok: bool)
    requires a.Wf() && TableOk(a.heap) && Count(a.heap) == Capacity(a.heap)
    modifies a.mem, a`heap
    ensures a.Wf() && (a.heap, ok) == GrowTable(old(a.heap))
  {
    hide Arena.Wf, Pad8, Alloc;
    ghost var h := a.heap;
    WfHeader(a);
    TableFits(a);
    var cap := a.LoadWord(0, CAPACITY);
    var keys := a.LoadWord(0, KEYS_OFF);
    var values := a.LoadWord(0, VALUES_OFF);
    var newKeys := a.SAlloc(4 * (2 * cap));
    var newValues := a.SAlloc(12 * (2 * cap));
    ghost var h2 := a.heap;
    if newKeys == 0 || newValues == 0 { return false; }
    MoveArray(a, newKeys, keys, Keys, cap);
    MoveArray(a, newValues, values, Values, 3 * cap);
    WfHeader(a);
    a.StoreWord(0, KEYS_OFF, newKeys);
    a.StoreWord(0, VALUES_OFF, newValues);
    a.StoreWord(0, CAPACITY, 2 * cap);
    ok := true;
    assert a.heap[0] == h2[0].(ws := h2[0].ws[KEYS_OFF := newKeys][VALUES_OFF := newValues][CAPACITY := 2 * cap]);
    assert a.heap == GrowTable(h).0;
  }

  /** `memcpy` of a full array into a block of twice the size, and `memset` of the rest. */
  method MoveArray(a: Arena, dst: nat, src: nat, kind: Kind, n: nat)
    requires a.Wf() && dst in a.heap && a.heap[dst] == Raw(8 * n) && dst != 0 && 0 < n
    requires src in a.heap && a.heap[src].Words? && |a.heap[src].ws| == n
    modifies a.mem, a`heap
    ensures a.Wf() && a.heap == old(a.heap)[dst := Words(kind, old(a.heap)[src].ws, 2 * n)]
  {
    hide Arena.Wf;
    a.MakeWords(dst, kind, 2 * n);
    a.CopyWords(dst, src, n);
    a.ZeroWords(dst, n, n);
  }

  /** Arrays lie inside the arena, so doubling one stays far below 2^32. */
  lemma TableFits(a: Arena)
    requires a.Wf() && TableOk(a.heap)
    ensures 12 * Capacity(a.heap) <= MAX_ARENA
  {
  }

  method ZeroRow(a: Arena, x: nat, at: nat)
    requires a.Wf() && x in a.heap && x != 0 && a.heap[x].Words? && at == |a.heap[x].ws| && at + 2 < a.heap[x].room
    modifies a.mem, a`heap
    ensures a.Wf() && a.heap == old(a.heap)[x := old(a.heap)[x].(ws := old(a.heap)[x].ws + [0, 0, 0])]
  {
    hide Arena.Wf;
    ghost var h := a.heap;
    a.StoreWord(x, at, 0);
    a.StoreWord(x, at + 1, 0);
    a.StoreWord(x, at + 2, 0);
    assert a.heap[x].ws == h[x].ws + [0, 0, 0];
  }

  /** The end of `hashmap_add_key`: the key is copied and the next row filled in. */
  method PutKey(a: Arena, key: CString) returns (slot: nat)
    requires a.Wf() && TableOk(a.heap) && Count(a.heap) < Capacity(a.heap) && 0 !in key && |key| < MAX_STRING
    modifies a.mem, a`heap
    ensures a.Wf() && slot == Count(old(a.heap)) && HasHeader(old(a.heap)) && a.heap == AppendKey(old(a.heap), key)
  {
    hide Arena.Wf, Pad8, Dup;
    ghost var h := a.heap;
    WfHeader(a);
    TableFits(a);
    slot := a.LoadWord(0, COUNT);
    var keys := a.LoadWord(0, KEYS_OFF);
    var values := a.LoadWord(0, VALUES_OFF);
    var off := a.StrDup(key);
    a.StoreWord(keys, slot, off);
    ZeroRow(a, values, 3 * slot);
    WfHeader(a);
    a.StoreWord(0, COUNT, slot + 1);
    assert a.heap[values] == h[values].(ws := h[values].ws + [0, 0, 0]);
    assert a.heap[keys] == h[keys].(ws := h[keys].ws + [off]);
    assert a.heap == AppendKey(h, key);
  }

  method AddKeyBlocks(a: Arena, key: CString) returns (slot: Option<nat>)
    requires a.Wf() && Inv(a.heap) && 0 !in key && |key| < MAX_STRING
    modifies a.mem, a`heap
    ensures a.Wf() && (a.heap, slot) == AddKey(old(a.heap), key)
  {
    hide Arena.Wf, AddKey;
    slot := HashmapGet(a, key);
    if slot.None? {
      slot := AddNewKey(a, key);
    } else {
      KnownKey(a.heap, key);
    }
  }

  lemma KnownKey(h: Heap, key: CString)
    requires HeaderOk(h) && TableOk(h) && Find(h, key) < Count(h)
    ensures AddKey(h, key) == (h, Some(Find(h, key)))
  {
  }

  /** `hashmap_add_key` behind the lookup. */
  method AddNewKey(a: Arena, key: CString) returns (slot: Option<nat>)
    requires a.Wf() && Inv(a.heap) && 0 !in key && |key| < MAX_STRING && Find(a.heap, key) == Count(a.heap)
    modifies a.mem, a`heap
    ensures a.Wf() && (a.heap, slot) == AddKey(old(a.heap), key)
  {
    hide Arena.Wf, GrowTable, AppendKey, RowOk, Owned, DistinctKeys, Pad8;
    WfHeader(a);
    var count := a.LoadWord(0, COUNT);
    var cap := a.LoadWord(0, CAPACITY);
    if count >= cap {
      GrowTableOk(a.heap);
      ghost var h := a.heap;
      var ok := GrowArrays(a);
      if !ok { return None; }
      GrowTableFacts(h);
    }
    var i := PutKey(a, key);
    slot := Some(i);
  }

  method RemoveKeyBlocks(a: Arena, key: CString)
    requires a.Wf() && Inv(a.heap) && 0 !in key
    modifies a.mem, a`heap
    ensures a.Wf() && HasHeader(old(a.heap)) && a.heap == RemoveKey(old(a.heap), key)
  {
    hide Arena.Wf, RowOk, Owned, DistinctKeys, Pad8;
    ghost var h := a.heap;
    WfHeader(a);
    TableFits(a);
    var keys := a.LoadWord(0, KEYS_OFF);
    var values := a.LoadWord(0, VALUES_OFF);
    var count := a.LoadWord(0, COUNT);
    var r := HashmapGet(a, key);
    if r.Some? {
      a.CutRange(keys, r.value, 1, count);
      a.CutRange(values, 3 * r.value, 3, 3 * count);
      WfHeader(a);
      a.StoreWord(0, COUNT, count - 1);
      assert a.heap[0] == h[0].(ws := h[0].ws[COUNT := count - 1]);
      assert a.heap == RemoveRow(h, r.value);
    }
  }

  /** Copying a string does not depend on, and does not change, the contents of any array. */
  lemma DupCommutes(h: Heap, x: nat, b: Block, s: CString)
    requires HeaderOk(h) && x in h && x != 0
    ensures HasHeader(h[x := b]) && Dup(h[x := b], s) == (Dup(h, s).0[x := b], Dup(h, s).1)
  {
    hide Dup, Pad8;
    var u := Hdr(h, USED);
    assert u !in h && Hdr(h[x := b], USED) == u;
    var h0: Heap := SetWord(h, 0, USED, u + Pad8(|s| + 1));
    var h1: Heap, h2: Heap := h0[x := b], h0[u := Text(s)];
    assert SetWord(h[x := b], 0, USED, u + Pad8(|s| + 1)) == h1;
    assert h1[u := Text(s)] == h2[x := b];
    DupIs(h, s);
    DupIs(h[x := b], s);
  }

  lemma DupIs(h: Heap, s: CString)
    requires HasHeader(h)
    ensures var u := Hdr(h, USED);
            Dup(h, s) == if u + Pad8(|s| + 1) > Hdr(h, SIZE) then (h, 0)
                         else (SetWord(h, 0, USED, u + Pad8(|s| + 1))[u := Text(s)], u)
  {
    var u := Hdr(h, USED);
    var h0: Heap := SetWord(h, 0, USED, u + Pad8(|s| + 1));
    var h1: Heap := h0[u := Raw(|s| + 1)];
    assert h1[u := Text(s)] == h0[u := Text(s)];
  }

  /** A new array that starts with the `n` words of the array at `off`, if there is one. */
  method CopyArray(a: Arena, kind: Kind, room: nat, off: nat, n: nat) returns (x: nat)
    requires a.Wf() && 0 < room && 4 * room <= MAX_STRING && n <= room
    requires off != 0 ==> off in a.heap && a.heap[off].Words? && |a.heap[off].ws| == n
    modifies a.mem, a`heap
    ensures a.Wf() && HasHeader(old(a.heap)) && x == Alloc(old(a.heap), 4 * room).1
    ensures a.heap == if x == 0 then old(a.heap)
                      else Alloc(old(a.heap), 4 * room).0[x := Words(kind, WordsOf(old(a.heap), off), room)]
    ensures x <= MAX_ARENA && (x != 0 ==> x !in old(a.heap))
    ensures forall y | y in old(a.heap) && y != 0 :: y in a.heap && a.heap[y] == old(a.heap)[y]
  {
    hide Arena.Wf, Pad8;
    WfHeader(a);
    x := a.SAlloc(4 * room);
    if x == 0 { return; }
    a.MakeWords(x, kind, room);
    if off != 0 { a.CopyWords(x, off, n); }
  }

  /** A larger array for list or patch `owner`, whose offset and capacity words are at `i` and `i + 2`. */
  method GrowOwned(a: Arena, kind: Kind, width: nat, owner: nat, i: nat) returns (ok: bool)
    requires a.Wf() && (width == 2 || width == 5) && owner in a.heap && owner != 0 && a.heap[owner].Words? &&
             i + 2 < |a.heap[owner].ws|
    requires var ws := a.heap[owner].ws;
             ArrayOk(a.heap, kind, ws[i], width, ws[i + 1], ws[i + 2]) && ws[i + 1] == ws[i + 2]
    modifies a.mem, a`heap
    ensures a.Wf() && HasHeader(old(a.heap)) && (a.heap, ok) == GrownOwned(old(a.heap), kind, width, owner, i)
  {
    hide Arena.Wf, Pad8, Alloc, WordsOf;
    ghost var h := a.heap;
    WfHeader(a);
    OwnedFits(a, kind, width, owner, i);
    var off := a.LoadWord(owner, i);
    var cap := a.LoadWord(owner, i + 2);
    var newCap := if cap != 0 then cap * 2 else 4;
    var x := CopyArray(a, kind, width * newCap, off, width * cap);
    if x == 0 { return false; }
    ghost var h1 := a.heap;
    a.StoreWord(owner, i, x);
    a.StoreWord(owner, i + 2, newCap);
    ok := true;
    StoredTwice(h1, owner, i, x, newCap);
  }

  lemma StoredTwice(h: Heap, owner: nat, i: nat, v: nat, w: nat)
    requires owner in h && h[owner].Words? && i + 2 < |h[owner].ws|
    ensures SetWord(SetWord(h, owner, i, v), owner, i + 2, w) ==
            h[owner := h[owner].(ws := h[owner].ws[i := v][i + 2 := w])]
  {
  }

  function GrownOwned(h: Heap, kind: Kind, width: nat, owner: nat, i: nat): (Heap, bool)
    requires HasHeader(h) && owner in h && h[owner].Words? && i + 2 < |h[owner].ws|
  {
    var cap := NewCapacity(h[owner].ws[i + 2]);
    var (h1, x) := Alloc(h, 4 * (width * cap));
    if x == 0 then (h, false)
    else (h1[x := Words(kind, WordsOf(h, h[owner].ws[i]), width * cap)]
            [owner := h[owner].(ws := h[owner].ws[i := x][i + 2 := cap])], true)
  }

  lemma OwnedFits(a: Arena, kind: Kind, width: nat, owner: nat, i: nat)
    requires a.Wf() && (width == 2 || width == 5) && owner in a.heap && a.heap[owner].Words? &&
             i + 2 < |a.heap[owner].ws|
    requires var ws := a.heap[owner].ws; ArrayOk(a.heap, kind, ws[i], width, ws[i + 1], ws[i + 2])
    ensures 4 * (width * NewCapacity(a.heap[owner].ws[i + 2])) <= MAX_STRING
    ensures NewCapacity(a.heap[owner].ws[i + 2]) <= MAX_STRING
    ensures |a.heap[owner].ws| <= a.heap[owner].room
  {
    hide Word32;
    assert Holds(a.mem[..], owner, a.heap[owner]);
  }

  lemma GrowListIs(h: Heap, i: nat)
    requires ListAt(h, i)
    ensures GrownOwned(h, Patches, 5, ValuesOff(h), 3 * i) == GrowList(h, i)
  {
    hide RowOk, Pad8;
  }

  lemma GrowTransformsIs(h: Heap, i: nat, j: nat)
    requires PatchAt(h, i, j)
    ensures GrownOwned(h, Transforms, 2, RowAt(h, i).off, 5 * j + 2) == GrowTransforms(h, i, j)
  {
    ListArray(h, i);
    hide RowOk, Pad8;
  }

  /** A block keeps its place in the heap while a pair of strings is copied and two arrays are written. */
  lemma DupPairCommutes(h: Heap, x: nat, b: Block, y: nat, c: Block, s: CString, t: CString)
    requires HeaderOk(h) && x in h && x != 0 && y in h && y != 0
    ensures HasHeader(h[x := b]) && HasHeader(Dup(h[x := b], s).0[y := c])
    ensures var (h2, f, g) := DupPair(h, s, t);
            && Dup(h[x := b], s).1 == f
            && Dup(Dup(h[x := b], s).0[y := c], t) == (h2[x := b][y := c], g)
  {
    hide Dup, HeaderOk;
    DupHeader(h, s);
    DupCommutes(h, x, b, s);
    var h1 := Dup(h, s).0;
    DupCommutes(h1, x, b, t);
    var h1x: Heap, h2x: Heap := h1[x := b], Dup(h1, t).0[x := b];
    if x == y {
      assert h1x[y := c] == h1[y := c];
      DupCommutes(h1, y, c, t);
      assert h2x[y := c] == Dup(h1, t).0[y := c];
    } else {
      DupCommutes2(h1, x, b, y, c, t);
    }
  }

  lemma DupHeader(h: Heap, s: CString)
    requires HeaderOk(h)
    ensures HeaderOk(Dup(h, s).0)
  {
    if Pad8(|s| + 1) <= Free(h) { DupFacts(h, s); }
  }

  lemma DupCommutes2(h: Heap, x: nat, b: Block, y: nat, c: Block, s: CString)
    requires HeaderOk(h) && x in h && x != 0 && y in h && y != 0 && x != y
    ensures HasHeader(h[x := b][y := c]) && Dup(h[x := b][y := c], s) == (Dup(h, s).0[x := b][y := c], Dup(h, s).1)
  {
    hide Dup, Pad8;
    DupIs(h, s);
    var hb: Heap := h[x := b];
    var hc: Heap := hb[y := c];
    DupIs(hc, s);
    var u := Hdr(h, USED);
    assert u !in h && HasHeader(hc) && Hdr(hc, USED) == u && Hdr(hc, SIZE) == Hdr(h, SIZE);
    UpdatesCommute(h, x, b, y, c, u, Text(s), u + Pad8(|s| + 1));
  }

  lemma UpdatesCommute(h: Heap, x: nat, b: Block, y: nat, c: Block, u: nat, t: Block, w: nat)
    requires HasHeader(h) && x != 0 && y != 0 && u != 0 && u != x && u != y && x != y
    ensures HasHeader(h[x := b][y := c])
    ensures SetWord(h[x := b][y := c], 0, USED, w)[u := t] == SetWord(h, 0, USED, w)[u := t][x := b][y := c]
  {
  }

  /** The count word of `owner` set, and two strings copied into the next two words of the array `x`. */
  ghost function WithStrings(h: Heap, owner: nat, ci: nat, n: nat, x: nat, s: CString, t: CString): Heap
    requires HasHeader(h) && owner in h && x in h && h[owner].Words? && h[x].Words? && ci < |h[owner].ws|
  {
    var (h2, f, g) := DupPair(h, s, t);
    var b, c := h[x].(ws := h[x].ws + [f, g]), h[owner].(ws := h[owner].ws[ci := n]);
    h2[x := b][owner := c]
  }

  function WithString(h: Heap, x: nat, s: CString): Heap
    requires HasHeader(h) && x in h && h[x].Words?
  {
    var (h1, f) := Dup(h, s);
    h1[x := h[x].(ws := h[x].ws + [f])]
  }

  method PutString(a: Arena, x: nat, at: nat, s: CString)
    requires a.Wf() && x in a.heap && x != 0 && a.heap[x].Words? && at == |a.heap[x].ws| && at < a.heap[x].room
    requires 0 !in s && |s| < MAX_STRING
    modifies a.mem, a`heap
    ensures a.Wf() && HasHeader(old(a.heap)) && a.heap == WithString(old(a.heap), x, s)
  {
    hide Arena.Wf, Dup, HasHeader;
    WfHeaderOk(a);
    var f := a.StrDup(s);
    a.StoreWord(x, at, f);
  }

  lemma StringsAre(h: Heap, owner: nat, ci: nat, n: nat, x: nat, s: CString, t: CString)
    requires HeaderOk(h) && owner in h && x in h && owner != x && owner != 0 && x != 0
    requires h[owner].Words? && h[x].Words? && ci < |h[owner].ws|
    ensures var h1 := SetWord(h, owner, ci, n);
            && HasHeader(h1) && x in h1 && h1[x].Words?
            && var h2 := WithString(h1, x, s);
            && HasHeader(h2) && x in h2 && h2[x].Words?
            && WithString(h2, x, t) == WithStrings(h, owner, ci, n, x, s, t)
  {
    hide Dup, HeaderOk;
    HeaderHas(h);
    var h1 := SetWord(h, owner, ci, n);
    var ob := h1[owner];
    var (d1, f) := Dup(h1, s);
    var xb := h[x].(ws := h[x].ws + [f]);
    DupPairCommutes(h, owner, ob, x, xb, s, t);
    var h2 := WithString(h1, x, s);
    var (d2, g) := Dup(h2, t);
    assert h2[x].ws + [g] == h[x].ws + [f, g];
    assert d2[x := h[x].(ws := h[x].ws + [f, g])] == WithStrings(h, owner, ci, n, x, s, t);
  }

  method PutStrings(a: Arena, owner: nat, ci: nat, n: nat, x: nat, at: nat, s: CString, t: CString)
    requires a.Wf() && owner in a.heap && x in a.heap && owner != x && owner != 0 && x != 0
    requires a.heap[owner].Words? && a.heap[x].Words? && ci < |a.heap[owner].ws| <= a.heap[owner].room
    requires at == |a.heap[x].ws| && at + 1 < a.heap[x].room && n < TWO32
    requires 0 !in s && 0 !in t && |s| < MAX_STRING && |t| < MAX_STRING
    modifies a.mem, a`heap
    ensures a.Wf() && HasHeader(old(a.heap)) && a.heap == WithStrings(old(a.heap), owner, ci, n, x, s, t)
  {
    hide Arena.Wf, Dup, WithStrings, HeaderOk, HasHeader;
    WfHeaderOk(a);
    StringsAre(a.heap, owner, ci, n, x, s, t);
    a.StoreWord(owner, ci, n);
    PutString(a, x, at, s);
    PutString(a, x, at + 1, t);
  }

  lemma WfHeaderOk(a: Arena)
    requires a.Wf()
    ensures HeaderOk(a.heap) && HasHeader(a.heap)
  {
  }

  /** The end of `patchlist_add`: the next patch filled in. */
  method PutPatch(a: Arena, i: nat, file: CString, find: CString) returns (slot: nat)
    requires a.Wf() && ListAt(a.heap, i) && RowAt(a.heap, i).off != 0 && RowAt(a.heap, i).count < RowAt(a.heap, i).cap
    requires 0 !in file && 0 !in find && |file| < MAX_STRING && |find| < MAX_STRING
    modifies a.mem, a`heap
    ensures a.Wf() && slot == RowAt(old(a.heap), i).count && a.heap == AppendPatch(old(a.heap), i, file, find)
  {
    hide Arena.Wf, DupPair, RowOk;
    ghost var h := a.heap;
    WfHeader(a);
    ListArray(h, i);
    ListFits(a, i);
    var values := a.LoadWord(0, VALUES_OFF);
    var x := a.LoadWord(values, 3 * i);
    slot := a.LoadWord(values, 3 * i + 1);
    PutStrings(a, values, 3 * i + 1, slot + 1, x, 5 * slot, file, find);
    ZeroRow(a, x, 5 * slot + 2);
    ghost var (d, f, g) := DupPair(h, file, find);
    assert a.heap[x] == h[x].(ws := h[x].ws + [f, g, 0, 0, 0]);
    assert a.heap == AppendPatch(h, i, file, find);
  }

  method AddPatchBlocks(a: Arena, i: nat, file: CString, find: CString) returns (slot: Option<nat>)
    requires a.Wf() && Inv(a.heap) && i < Count(a.heap)
    requires 0 !in file && 0 !in find && |file| < MAX_STRING && |find| < MAX_STRING
    modifies a.mem, a`heap
    ensures a.Wf() && (a.heap, slot) == AddPatch(old(a.heap), i, file, find)
  {
    hide Arena.Wf, GrowList, AppendPatch, RowOk, Owned, DistinctKeys, GrownOwned;
    WfHeader(a);
    InvList(a.heap, i);
    var values := a.LoadWord(0, VALUES_OFF);
    var count := a.LoadWord(values, 3 * i + 1);
    var cap := a.LoadWord(values, 3 * i + 2);
    var ok := true;
    slot := None;
    if count >= cap {
      GrowListOk(a.heap, i);
      GrowListIs(a.heap, i);
      ghost var h := a.heap;
      ok := GrowOwned(a, Patches, 5, values, 3 * i);
      if ok { GrowListKeeps(h, i); }
    }
    if ok {
      var n := PutPatch(a, i, file, find);
      slot := Some(n);
    }
  }

  /** The end of `patch_add_transform`: the next transform filled in. */
  method PutTransform(a: Arena, i: nat, j: nat, pattern: CString, replace: CString)
    requires a.Wf() && PatchAt(a.heap, i, j)
    requires var p := PatchRowAt(a.heap, RowAt(a.heap, i).off, j); p.off != 0 && p.count < p.cap
    requires 0 !in pattern && 0 !in replace && |pattern| < MAX_STRING && |replace| < MAX_STRING
    modifies a.mem, a`heap
    ensures a.Wf() && a.heap == AppendTransform(old(a.heap), i, j, pattern, replace)
  {
    hide Arena.Wf, DupPair, RowOk, PatchOk;
    ghost var h := a.heap;
    WfHeader(a);
    PatchArrays(h, i, j);
    PatchFits(a, i, j);
    var values := a.LoadWord(0, VALUES_OFF);
    var x := a.LoadWord(values, 3 * i);
    var t := a.LoadWord(x, 5 * j + 2);
    var n := a.LoadWord(x, 5 * j + 3);
    PutStrings(a, x, 5 * j + 3, n + 1, t, 2 * n, pattern, replace);
  }

  lemma PatchFits(a: Arena, i: nat, j: nat)
    requires a.Wf() && PatchAt(a.heap, i, j)
    ensures PatchRowAt(a.heap, RowAt(a.heap, i).off, j).cap <= MAX_ARENA
    ensures var x := RowAt(a.heap, i).off; x in a.heap && a.heap[x].Words? && |a.heap[x].ws| <= a.heap[x].room
  {
    hide Word32;
    PatchArrays(a.heap, i, j);
    var x := RowAt(a.heap, i).off;
    assert Holds(a.mem[..], x, a.heap[x]);
  }

  method AddTransformBlocks(a: Arena, i: nat, j: nat, pattern: CString, replace: CString)
    requires a.Wf() && Inv(a.heap) && i < Count(a.heap) && j < RowAt(a.heap, i).count
    requires 0 !in pattern && 0 !in replace && |pattern| < MAX_STRING && |replace| < MAX_STRING
    modifies a.mem, a`heap
    ensures a.Wf() && a.heap == AddTransform(old(a.heap), i, j, pattern, replace)
  {
    hide Arena.Wf, GrowTransforms, AppendTransform, RowOk, Owned, DistinctKeys, GrownOwned, PatchOk;
    WfHeader(a);
    InvPatch(a.heap, i, j);
    ListArray(a.heap, i);
    var values := a.LoadWord(0, VALUES_OFF);
    var x := a.LoadWord(values, 3 * i);
    var count := a.LoadWord(x, 5 * j + 3);
    var cap := a.LoadWord(x, 5 * j + 4);
    var ok := true;
    if count >= cap {
      GrowTransformsOk(a.heap, i, j);
      GrowTransformsIs(a.heap, i, j);
      ghost var h := a.heap;
      ok := GrowOwned(a, Transforms, 2, x, 5 * j + 2);
      if ok { GrowTransformsKeeps(h, i, j); }
    }
    if ok { PutTransform(a, i, j, pattern, replace); }
  }

  lemma ListFits(a: Arena, i: nat)
    requires a.Wf() && ListAt(a.heap, i)
    ensures HeaderOk(a.heap) && RowAt(a.heap, i).cap <= MAX_ARENA
    ensures |a.heap[ValuesOff(a.heap)].ws| <= a.heap[ValuesOff(a.heap)].room
  {
    hide Word32;
    ListArray(a.heap, i);
    assert Holds(a.mem[..], ValuesOff(a.heap), a.heap[ValuesOff(a.heap)]);
  }

  // The operations as their callers see them

  method HashmapAddKey(a: Arena, key: CString) returns (slot: Option<nat>)
    requires a.Wf() && Inv(a.heap) && 0 !in key && |key| < MAX_STRING
    modifies a.mem, a`heap
    ensures a.Wf() && (a.heap, slot) == AddKey(old(a.heap), key)
    ensures Performed(old(a.mem[..]), old(a.heap), a.mem[..], a.heap, Add(key))
  {
    hide Arena.Wf, Inv, Stored, AddKey, RemoveKey, AddPatch, AddTransform, Performed, RowAt, Count;
    ghost var m := a.mem[..];
    WfStored(a);
    slot := AddKeyBlocks(a, key);
    WfStored(a);
    IsPerformed(m, old(a.heap), a.mem[..], Add(key));
  }

  method HashmapRemove(a: Arena, key: CString)
    requires a.Wf() && Inv(a.heap) && 0 !in key
    modifies a.mem, a`heap
    ensures a.Wf() && HasHeader(old(a.heap)) && a.heap == RemoveKey(old(a.heap), key)
    ensures Performed(old(a.mem[..]), old(a.heap), a.mem[..], a.heap, Remove(key))
  {
    hide Arena.Wf, Inv, Stored, AddKey, RemoveKey, AddPatch, AddTransform, Performed, RowAt, Count;
    ghost var m := a.mem[..];
    WfStored(a);
    RemoveKeyBlocks(a, key);
    WfStored(a);
    IsPerformed(m, old(a.heap), a.mem[..], Remove(key));
  }

  method PatchlistAdd(a: Arena, i: nat, file: CString, find: CString) returns (slot: Option<nat>)
    requires a.Wf() && Inv(a.heap) && i < Count(a.heap)
    requires 0 !in file && 0 !in find && |file| < MAX_STRING && |find| < MAX_STRING
    modifies a.mem, a`heap
    ensures a.Wf() && (a.heap, slot) == AddPatch(old(a.heap), i, file, find)
    ensures Performed(old(a.mem[..]), old(a.heap), a.mem[..], a.heap, NewPatch(i, file, find))
  {
    hide Arena.Wf, Inv, Stored, AddKey, RemoveKey, AddPatch, AddTransform, Performed, RowAt, Count;
    ghost var m := a.mem[..];
    WfStored(a);
    slot := AddPatchBlocks(a, i, file, find);
    WfStored(a);
    IsPerformed(m, old(a.heap), a.mem[..], NewPatch(i, file, find));
  }

  method PatchAddTransform(a: Arena, i: nat, j: nat, pattern: CString, replace: CString)
    requires a.Wf() && Inv(a.heap) && i < Count(a.heap) && j < RowAt(a.heap, i).count
    requires 0 !in pattern && 0 !in replace && |pattern| < MAX_STRING && |replace| < MAX_STRING
    modifies a.mem, a`heap
    ensures a.Wf() && a.heap == AddTransform(old(a.heap), i, j, pattern, replace)
    ensures Performed(old(a.mem[..]), old(a.heap), a.mem[..], a.heap, NewTransform(i, j, pattern, replace))
  {
    hide Arena.Wf, Inv, Stored, AddKey, RemoveKey, AddPatch, AddTransform, Performed, RowAt, Count;
    ghost var m := a.mem[..];
    WfStored(a);
    AddTransformBlocks(a, i, j, pattern, replace);
    WfStored(a);
    IsPerformed(m, old(a.heap), a.mem[..], NewTransform(i, j, pattern, replace));
  }

  // ---------------------------------------------------------------------------------------------
  // Sequences of calls on the arena
  // ---------------------------------------------------------------------------------------------

  predicate CText(s: CString) {
    0 !in s && |s| < MAX_STRING
  }

  /** The strings of a call can be passed. */
  predicate Passable(c: Call) {
    match c
    case Add(key) => CText(key)
    case Remove(key) => CText(key)
    case NewPatch(_, file, find) => CText(file) && CText(find)
    case NewTransform(_, _, pattern, replace) => CText(pattern) && CText(replace)
  }

  /** One call; a list or patch that is not there is not passed on. */
  method Execute(a: Arena, c: Call)
    requires a.Wf() && Inv(a.heap) && Passable(c)
    modifies a.mem, a`heap
    ensures a.Wf() && a.heap == Do(old(a.heap), c)
    ensures Performed(old(a.mem[..]), old(a.heap), a.mem[..], a.heap, c)
  {
    hide Arena.Wf, Inv, Stored, AddKey, RemoveKey, AddPatch, AddTransform, Performed, RowAt, Count;
    WfHeader(a);
    match c {
      case Add(key) => var slot := HashmapAddKey(a, key);
      case Remove(key) => HashmapRemove(a, key);
      case NewPatch(i, file, find) =>
        var n := Rows(a);
        if i < n { var slot := PatchlistAdd(a, i, file, find); } else { Skipped(a, c); }
      case NewTransform(i, j, pattern, replace) =>
        var n := Rows(a);
        if i < n {
          var k := PatchCount(a, i);
          if j < k { PatchAddTransform(a, i, j, pattern, replace); } else { Skipped(a, c); }
        } else {
          Skipped(a, c);
        }
    }
  }

  /** A call that is not passed on has no effect. */
  lemma Skipped(a: Arena, c: Call)
    requires a.Wf() && Inv(a.heap) && Do(a.heap, c) == a.heap
    ensures Performed(a.mem[..], a.heap, a.mem[..], a.heap, c)
  {
    hide Arena.Wf, Inv, Stored, Do, Performed;
    WfStored(a);
    IsPerformed(a.mem[..], a.heap, a.mem[..], c);
  }

  method Rows(a: Arena) returns (n: nat)
    requires a.Wf() && Inv(a.heap)
    ensures n == Count(a.heap)
  {
    hide Arena.Wf, RowOk, Owned, DistinctKeys;
    WfHeader(a);
    n := a.LoadWord(0, COUNT);
  }

  method PatchCount(a: Arena, i: nat) returns (n: nat)
    requires a.Wf() && Inv(a.heap) && i < Count(a.heap)
    ensures n == RowAt(a.heap, i).count
  {
    hide Arena.Wf, RowOk, Owned, DistinctKeys;
    WfHeader(a);
    var values := a.LoadWord(0, VALUES_OFF);
    n := a.LoadWord(values, 3 * i + 1);
  }

  /**
   Any sequence of calls with enough room, run on the byte array: decoding the bytes afterwards gives
   what the same calls make of the map decoded before.
   */
  method ExecuteAll(a: Arena, calls: seq<Call>)
    requires a.Wf() && Inv(a.heap) && AllHaveRoom(a.heap, calls)
    requires forall i | 0 <= i < |calls| :: Passable(calls[i])
    modifies a.mem, a`heap
    ensures a.Wf() && Inv(a.heap) && a.heap == DoAll(old(a.heap), calls)
    ensures ReadMap(a.mem[..]) == ApplyAll(ReadMap(old(a.mem[..])), calls)
  {
    hide Arena.Wf, Inv, HasRoom, Do, ReadMap, Apply;
    ghost var (m, h) := (a.mem[..], a.heap);
    var k := 0;
    assert calls[0..] == calls;
    while k < |calls|
      invariant 0 <= k <= |calls| && a.Wf() && Inv(a.heap) && AllHaveRoom(a.heap, calls[k..])
      invariant DoAll(a.heap, calls[k..]) == DoAll(h, calls)
      invariant ApplyAll(ReadMap(a.mem[..]), calls[k..]) == ApplyAll(ReadMap(m), calls)
    {
      assert calls[k..][0] == calls[k] && calls[k..][1..] == calls[k + 1..];
      Execute(a, calls[k]);
      k := k + 1;
    }
    assert calls[k..] == [];
  }
}
