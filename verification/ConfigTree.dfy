/**
 The configuration tree: reading, writing and merging defaults, on JSON values.
 */
module ConfigTree {
  import opened Options
  import Text

  datatype Json =
    | Null
    | Bool(b: bool)
    | Number(n: real)
    | Text(s: string)
    | Arr(items: seq<Json>)
    | Obj(fields: Fields)

  type Fields = map<string, Json>
  type Path = seq<string>

  predicate Contains(j: Json, k: string) {
    j.Obj? && k in j.fields
  }

  /** What is at a path; the empty path is the tree itself. */
  function Lookup(j: Json, p: Path): Option<Json>
    decreases |p|
  {
    if p == [] then Some(j)
    else if Contains(j, p[0]) then Lookup(j.fields[p[0]], p[1..])
    else None
  }

  // ---------------------------------------------------------------------------------------------
  // set
  // ---------------------------------------------------------------------------------------------

  /** The fields of an object, none for anything else. */
  function FieldsOf(j: Json): Fields {
    if j.Obj? then j.fields else map[]
  }

  /** The fields below `k`, none when nothing or no object is there. */
  function Below(c: Fields, k: string): Fields {
    if k in c then FieldsOf(c[k]) else map[]
  }

  /** Writing below an object: every missing or scalar step on the way becomes an object. */
  function SetFields(f: Fields, p: Path, v: Json): Fields
    requires p != []
    decreases |p|
  {
    var k := p[0];
    if |p| == 1 then
      var was := if k in f then f[k] else Null;
      if was == v then f else f[k := v]
    else f[k := Obj(SetFields(Below(f, k), p[1..], v))]
  }

  /**
   `set`: nothing (an exception) for a longer path below a root that is neither an object nor null.
   */
  function Set(j: Json, p: Path, v: Json): Option<Json>
    requires p != []
  {
    if |p| > 1 && !j.Obj? && !j.Null? then None else Some(Obj(SetFields(FieldsOf(j), p, v)))
  }

  /** One path is the beginning of the other. */
  predicate Comparable(p: Path, q: Path) {
    p <= q || q <= p
  }

  /** After writing a value that is not null, everything below the path reads inside that value. */
  lemma {:induction false} SetThenGetBelow(f: Fields, p: Path, v: Json, r: Path)
    requires p != [] && v != Null
    ensures Lookup(Obj(SetFields(f, p, v)), p + r) == Lookup(v, r)
    decreases |p|
  {
    assert (p + r)[0] == p[0] && (p + r)[1..] == p[1..] + r;
    if |p| == 1 {
      assert p[1..] + r == r;
    } else {
      SetThenGetBelow(Below(f, p[0]), p[1..], v, r);
    }
  }

  /** The written value is found exactly when it is not null or the path existed. */
  lemma {:induction false} SetThenGetIff(f: Fields, p: Path, v: Json)
    requires p != []
    ensures Lookup(Obj(SetFields(f, p, v)), p) == Some(v) <==> v != Null || Lookup(Obj(f), p).Some?
    decreases |p|
  {
    var k := p[0];
    if |p| == 1 {
      assert p[1..] == [];
    } else {
      var g := Below(f, k);
      SetThenGetIff(g, p[1..], v);
      LookupFields(f, p);
    }
  }

  /** Null at a missing key: nothing is written, so nothing is found. */
  lemma NullIsNotWritten(k: string)
    ensures SetFields(map[], [k], Null) == map[] && Lookup(Obj(SetFields(map[], [k], Null)), [k]) == None
  {
  }

  lemma LookupFields(f: Fields, p: Path)
    requires |p| > 1
    ensures Lookup(Obj(f), p) == Lookup(Obj(Below(f, p[0])), p[1..])
  {
  }

  lemma LookupShort(f: Fields, p: Path)
    requires |p| == 1
    ensures Lookup(Obj(f), p) == if p[0] in f then Some(f[p[0]]) else None
  {
    if p[0] in f { assert Lookup(f[p[0]], p[1..]) == Some(f[p[0]]); }
  }

  /** A path that neither leads to nor passes through the written one reads as before. */
  lemma {:induction false} SetElsewhere(f: Fields, p: Path, v: Json, q: Path)
    requires p != [] && !Comparable(p, q)
    ensures Lookup(Obj(SetFields(f, p, v)), q) == Lookup(Obj(f), q)
    decreases |p|
  {
    assert q != [];
    if p[0] == q[0] {
      var g := Below(f, p[0]);
      assert p == [p[0]] + p[1..] && q == [q[0]] + q[1..];
      assert !Comparable(p[1..], q[1..]);
      SetElsewhere(g, p[1..], v, q[1..]);
      LookupFields(f, q);
    }
  }

  /** Every proper beginning of the written path is an object afterwards. */
  lemma {:induction false} SetMakesObjects(f: Fields, p: Path, v: Json, n: nat)
    requires n < |p|
    ensures var r := Lookup(Obj(SetFields(f, p, v)), p[..n]); r.Some? && r.value.Obj?
    decreases |p|
  {
    if n > 0 {
      SetMakesObjects(Below(f, p[0]), p[1..], v, n - 1);
      assert p[..n][0] == p[0] && p[..n][1..] == p[1..][..n - 1];
    }
  }

  lemma SetLong(f: Fields, p: Path, v: Json)
    requires |p| > 1
    ensures SetFields(f, p, v) == f[p[0] := Obj(SetFields(Below(f, p[0]), p[1..], v))]
  {
  }

  lemma SetShort(f: Fields, k: string, v: Json)
    ensures SetFields(f, [k], v) == if k !in f && v == Null then f else f[k := v]
  {
    if k in f && f[k] == v { assert f[k := v] == f; }
  }

  /** What is at a path, null when nothing is. */
  function At(j: Json, p: Path): Json {
    if Lookup(j, p).Some? then Lookup(j, p).value else Null
  }

  lemma AtShort(f: Fields, p: Path)
    requires |p| == 1
    ensures At(Obj(f), p) == if p[0] in f then f[p[0]] else Null
  {
    LookupShort(f, p);
  }

  lemma AtLong(f: Fields, p: Path)
    requires |p| > 1
    ensures At(Obj(f), p) == At(Obj(Below(f, p[0])), p[1..])
  {
    LookupFields(f, p);
  }

  /**
   The walk of `set` below an object: a missing or scalar step is replaced by an object, and at the end
   the value is stored unless it is there already. `changed` says that it was stored.
   */
  method SetInto(f: Fields, p: Path, v: Json) returns (r: Fields, changed: bool)
    requires p != []
    ensures r == SetFields(f, p, v)
    ensures changed <==> At(Obj(f), p) != v
    decreases |p|
  {
    hide Lookup;
    var k := p[0];
    if |p| == 1 {
      AtShort(f, p);
      var was := Null;
      if k in f { was := f[k]; }
      changed := was != v;
      r := f;
      if changed { r := r[k := v]; }
    } else {
      AtLong(f, p);
      r := f;
      if k !in r || !r[k].Obj? { r := r[k := Obj(map[])]; }
      var sub;
      sub, changed := SetInto(r[k].fields, p[1..], v);
      assert r[k].fields == Below(f, k) && r[k := Obj(sub)] == f[k := Obj(sub)];
      r := r[k := Obj(sub)];
    }
  }

  /** Only the last write counts, exactly when it is not a null written where nothing was before a first write. */
  lemma {:induction false} LastSetWinsIff(f: Fields, p: Path, v: Json, w: Json)
    requires p != []
    ensures SetFields(SetFields(f, p, v), p, w) == SetFields(f, p, w) <==>
            w != Null || v == Null || Lookup(Obj(f), p).Some?
    decreases |p|
  {
    hide SetFields;
    var k := p[0];
    if |p| == 1 {
      assert p == [k];
      LastShortSetWinsIff(f, k, v, w);
    } else {
      var g := Below(f, k);
      var (a, b) := (Obj(SetFields(g, p[1..], v)), Obj(SetFields(g, p[1..], w)));
      SetLong(f, p, v);
      SetLong(f, p, w);
      SetLong(f[k := a], p, w);
      LastSetWinsIff(g, p[1..], v, w);
      LookupFields(f, p);
      SameFieldIff(f, k, a, Obj(SetFields(a.fields, p[1..], w)), b);
    }
  }

  lemma LastShortSetWinsIff(f: Fields, k: string, v: Json, w: Json)
    ensures SetFields(SetFields(f, [k], v), [k], w) == SetFields(f, [k], w) <==>
            w != Null || v == Null || Lookup(Obj(f), [k]).Some?
  {
    hide SetFields;
    SetShort(f, k, v);
    SetShort(f, k, w);
    SetShort(SetFields(f, [k], v), k, w);
    assert [k][1..] == [];
    if k in f || w != Null {
      assert f[k := v][k := w] == f[k := w];
    } else if v != Null {
      assert k in f[k := v][k := w];
    }
  }

  lemma SameFieldIff(f: Fields, k: string, a: Json, c: Json, b: Json)
    ensures f[k := a][k := c] == f[k := b] <==> c == b
  {
    assert f[k := a][k := c] == f[k := c];
    assert f[k := c][k] == c && f[k := b][k] == b;
  }

  // ---------------------------------------------------------------------------------------------
  // merge_default_config
  // ---------------------------------------------------------------------------------------------

  /** Defaults `d` merged into an object `c`: objects field by field, other defaults only where nothing is. */
  function Merge(c: Fields, d: Json): (r: Fields)
    requires d.Obj?
    ensures r.Keys == c.Keys + d.fields.Keys
    decreases d, 1
  {
    map k | k in c.Keys + d.fields.Keys :: MergeOne(c, d, k)
  }

  /** What the field `k` is after merging. */
  function MergeOne(c: Fields, d: Json, k: string): Json
    requires d.Obj? && (k in c || k in d.fields)
    decreases d, 0
  {
    if k in d.fields && d.fields[k].Obj? then Obj(Merge(Below(c, k), d.fields[k]))
    else if k in c then c[k]
    else d.fields[k]
  }

  lemma MergeAt(c: Fields, d: Json, k: string)
    requires d.Obj? && (k in c || k in d.fields)
    ensures Merge(c, d)[k] == if k in d.fields && d.fields[k].Obj? then Obj(Merge(Below(c, k), d.fields[k]))
                              else if k in c then c[k] else d.fields[k]
  {
  }

  /** `r` is `c` with the fields of the defaults outside `rest` merged in. */
  ghost predicate PartlyMerged(c: Fields, d: Json, rest: set<string>, r: Fields)
    requires d.Obj?
  {
    && rest <= d.fields.Keys && r.Keys == c.Keys + (d.fields.Keys - rest)
    && forall k | k in r :: r[k] == if k in rest then c[k] else Merge(c, d)[k]
  }

  lemma MergeStarts(c: Fields, d: Json)
    requires d.Obj?
    ensures PartlyMerged(c, d, d.fields.Keys, c)
  {
    hide Merge, MergeOne;
    forall k | k in c && k !in d.fields ensures Merge(c, d)[k] == c[k] { MergeAt(c, d, k); }
  }

  lemma MergeAdvances(c: Fields, d: Json, rest: set<string>, r: Fields, k: string, t: Fields)
    requires d.Obj? && PartlyMerged(c, d, rest, r) && k in rest
    requires t == if d.fields[k].Obj? then r[k := Obj(Merge(Below(r, k), d.fields[k]))]
                  else if k in r then r else r[k := d.fields[k]]
    ensures PartlyMerged(c, d, rest - {k}, t)
  {
    hide Merge, MergeOne;
    MergeAt(c, d, k);
    assert Below(r, k) == Below(c, k);
    assert t.Keys == c.Keys + (d.fields.Keys - (rest - {k}));
  }

  lemma MergeEnds(c: Fields, d: Json, r: Fields)
    requires d.Obj? && PartlyMerged(c, d, {}, r)
    ensures r == Merge(c, d)
  {
    hide MergeOne;
  }

  /** The loop of `merge_default_config` over the fields of the defaults, with its recursive calls. */
  method MergeInto(c: Fields, d: Json) returns (r: Fields)
    requires d.Obj?
    ensures r == Merge(c, d)
    decreases d
  {
    hide Merge, MergeOne, PartlyMerged;
    MergeStarts(c, d);
    r := c;
    var rest := d.fields.Keys;
    while rest != {}
      invariant rest <= d.fields.Keys
      invariant PartlyMerged(c, d, rest, r)
      decreases |rest|
    {
      ghost var was := r;
      var k :| k in rest;
      var v := d.fields[k];
      if v.Obj? {
        var sub := MergeInto(Below(r, k), v);
        r := r[k := Obj(sub)];
      } else if k !in r {
        r := r[k := v];
      }
      MergeAdvances(c, d, rest, was, k, r);
      rest := rest - {k};
    }
    MergeEnds(c, d, r);
  }

  /** Merging the same defaults again changes nothing. */
  lemma {:induction false} MergeIdempotent(c: Fields, d: Json)
    requires d.Obj?
    ensures Merge(Merge(c, d), d) == Merge(c, d)
    decreases d
  {
    hide Merge, MergeOne;
    var m := Merge(c, d);
    forall k | k in m ensures Merge(m, d)[k] == m[k] {
      MergeAt(c, d, k);
      MergeAt(m, d, k);
      if k in d.fields && d.fields[k].Obj? {
        MergeIdempotent(Below(c, k), d.fields[k]);
      }
    }
  }

  /** Every path of the defaults resolves afterwards. */
  lemma {:induction false} DefaultsResolve(c: Fields, d: Json, p: Path)
    requires d.Obj? && Lookup(d, p).Some?
    ensures Lookup(Obj(Merge(c, d)), p).Some?
    decreases |p|
  {
    if p != [] && d.fields[p[0]].Obj? {
      DefaultsResolve(Below(c, p[0]), d.fields[p[0]], p[1..]);
    } else if p != [] {
      assert p[1..] == [];
    }
  }

  /**
   A value of the user that is not an object survives at its path exactly when the defaults do not
   hold an object at that very path.
   */
  lemma {:induction false} UserValueSurvivesIff(c: Fields, d: Json, p: Path, u: Json)
    requires d.Obj? && Lookup(Obj(c), p) == Some(u) && !u.Obj?
    ensures Lookup(Obj(Merge(c, d)), p) == Some(u) <==>
            !(Lookup(d, p).Some? && Lookup(d, p).value.Obj?)
    decreases |p|
  {
    var k := p[0];
    if k in d.fields && d.fields[k].Obj? && |p| > 1 {
      assert c[k].Obj?;
      UserValueSurvivesIff(c[k].fields, d.fields[k], p[1..], u);
    } else if |p| == 1 {
      assert p[1..] == [];
    }
  }

  /** Every path afterwards was a path of the user's tree or of the defaults. */
  lemma {:induction false} NothingInvented(c: Fields, d: Json, p: Path)
    requires d.Obj? && Lookup(Obj(Merge(c, d)), p).Some?
    ensures Lookup(Obj(c), p).Some? || Lookup(d, p).Some?
    decreases |p|
  {
    if p != [] && p[0] in d.fields && d.fields[p[0]].Obj? {
      NothingInvented(Below(c, p[0]), d.fields[p[0]], p[1..]);
    }
  }

  // ---------------------------------------------------------------------------------------------
  // The manager
  // ---------------------------------------------------------------------------------------------

  /** `get`: the default for the empty path and for a path that is not there. */
  function Get(j: Json, p: Path, def: Json): Json {
    if p != [] && Lookup(j, p).Some? then Lookup(j, p).value else def
  }

  /** The tree after loading, nothing (an exception) for a root that cannot take fields. */
  function MergeRoot(j: Json, d: Json): Option<Json>
    requires d.Obj?
  {
    if d.fields == map[] then Some(j)
    else if j.Obj? || j.Null? then Some(Obj(Merge(FieldsOf(j), d)))
    else None
  }

  /** A value that is no object, at a path. */
  predicate Leaf(j: Json, p: Path, v: Json) {
    Lookup(j, p) == Some(v) && !v.Obj?
  }

  predicate ObjectAt(j: Json, p: Path) {
    Lookup(j, p).Some? && Lookup(j, p).value.Obj?
  }

  /**
   The tree `t` holds what the user's tree `u` and the defaults `d` say at every path: everything in the defaults is
   there, the objects are those of either, and a value that is no object is the user's or, where the user has nothing,
   that of the defaults, except that an object of the defaults replaces it.
   */
  ghost predicate Combines(u: Json, d: Json, t: Json) {
    && (forall p: Path | p != [] && Lookup(d, p).Some? :: Lookup(t, p).Some?)
    && (forall p: Path | p != [] :: ObjectAt(t, p) <==> ObjectAt(u, p) || ObjectAt(d, p))
    && (forall p: Path, v | p != [] :: Leaf(t, p, v) <==> LeafOfEither(u, d, p, v))
  }

  predicate LeafOfEither(u: Json, d: Json, p: Path, v: Json) {
    !ObjectAt(d, p) && (Leaf(u, p, v) || (Lookup(u, p).None? && Leaf(d, p, v)))
  }

  lemma {:induction false} MergedObjects(c: Fields, d: Json, p: Path)
    requires d.Obj? && p != []
    ensures ObjectAt(Obj(Merge(c, d)), p) <==> ObjectAt(Obj(c), p) || ObjectAt(d, p)
    decreases |p|
  {
    hide Merge, MergeOne;
    var k := p[0];
    if k in c || k in d.fields { MergeAt(c, d, k); }
    if |p| == 1 {
      LookupShort(c, p);
      LookupShort(d.fields, p);
      LookupShort(Merge(c, d), p);
    } else {
      LookupFields(c, p);
      LookupFields(d.fields, p);
      LookupFields(Merge(c, d), p);
      if k in d.fields && d.fields[k].Obj? { MergedObjects(Below(c, k), d.fields[k], p[1..]); }
    }
  }

  lemma {:induction false} MergedLeaves(c: Fields, d: Json, p: Path, v: Json)
    requires d.Obj? && p != []
    ensures Leaf(Obj(Merge(c, d)), p, v) <==> LeafOfEither(Obj(c), d, p, v)
    decreases |p|
  {
    hide Merge, MergeOne;
    var k := p[0];
    if k in c || k in d.fields { MergeAt(c, d, k); }
    if |p| == 1 {
      LookupShort(c, p);
      LookupShort(d.fields, p);
      LookupShort(Merge(c, d), p);
    } else {
      LookupFields(c, p);
      LookupFields(d.fields, p);
      LookupFields(Merge(c, d), p);
      if k in d.fields && d.fields[k].Obj? { MergedLeaves(Below(c, k), d.fields[k], p[1..], v); }
    }
  }

  /** Loading, path by path. */
  lemma MergeRootCombines(j: Json, d: Json)
    requires d.Obj?
    ensures MergeRoot(j, d).None? <==> d.fields != map[] && !j.Obj? && !j.Null?
    ensures MergeRoot(j, d).Some? ==> Combines(j, d, MergeRoot(j, d).value)
  {
    hide Merge, Lookup;
    if MergeRoot(j, d).Some? && d.fields == map[] {
      EmptyCombines(j, d);
    } else if MergeRoot(j, d).Some? {
      var c := FieldsOf(j);
      var t := Obj(Merge(c, d));
      forall p: Path | p != [] && Lookup(d, p).Some? ensures Lookup(t, p).Some? { DefaultsResolve(c, d, p); }
      forall p: Path | p != [] ensures ObjectAt(t, p) <==> ObjectAt(j, p) || ObjectAt(d, p) {
        MergedObjects(c, d, p);
        RootLookup(j, p);
      }
      forall p: Path, v | p != [] ensures Leaf(t, p, v) <==> LeafOfEither(j, d, p, v) {
        MergedLeaves(c, d, p, v);
        RootLookup(j, p);
      }
    }
  }

  lemma RootLookup(j: Json, p: Path)
    requires p != []
    ensures Lookup(j, p) == Lookup(Obj(FieldsOf(j)), p)
  {
  }

  lemma EmptyCombines(j: Json, d: Json)
    requires d == Obj(map[])
    ensures Combines(j, d, j)
  {
    forall p: Path | p != [] ensures Lookup(d, p).None? { }
  }

  /** A write as it is read back: `t` is the tree `j` with `v` at the path. */
  ghost predicate WrittenAt(j: Json, p: Path, v: Json, t: Json) {
    && (Lookup(t, p) == Some(v) <==> v != Null || Lookup(j, p).Some?)
    && (v != Null ==> forall r: Path :: Lookup(t, p + r) == Lookup(v, r))
    && (forall q: Path | !Comparable(p, q) :: Lookup(t, q) == Lookup(j, q))
    && (forall n | 0 <= n < |p| :: ObjectAt(t, p[..n]))
  }

  /** `set` throws exactly below a root that takes no fields, and is a write otherwise. */
  lemma SetWrites(j: Json, p: Path, v: Json)
    requires p != []
    ensures Set(j, p, v).None? <==> |p| > 1 && !j.Obj? && !j.Null?
    ensures Set(j, p, v).Some? ==> WrittenAt(j, p, v, Set(j, p, v).value)
  {
    hide SetFields, Lookup, Comparable;
    var f := FieldsOf(j);
    SetThenGetIff(f, p, v);
    RootLookup(j, p);
    if v != Null {
      forall r: Path ensures Lookup(Obj(SetFields(f, p, v)), p + r) == Lookup(v, r) { SetThenGetBelow(f, p, v, r); }
    }
    forall q: Path | !Comparable(p, q) ensures Lookup(Obj(SetFields(f, p, v)), q) == Lookup(j, q) {
      SetElsewhere(f, p, v, q);
      NotEmpty(p, q);
      RootLookup(j, q);
    }
    forall n | 0 <= n < |p| ensures ObjectAt(Obj(SetFields(f, p, v)), p[..n]) { SetMakesObjects(f, p, v, n); }
  }

  lemma NotEmpty(p: Path, q: Path)
    requires !Comparable(p, q)
    ensures q != []
  {
  }

  /**
   What iterating a value gives, by key: the fields of an object, the elements of an array under their
   positions, a scalar under the empty key, and nothing for null.
   */
  function Items(j: Json): Fields {
    match j
    case Obj(fields) => fields
    case Arr(items) => Positions(items)
    case Null => map[]
    case _ => map["" := j]
  }

  function Positions(items: seq<Json>): Fields {
    if items == [] then map[]
    else
      var n := |items| - 1;
      Positions(items[..n])[Text.Decimal(n) := items[n]]
  }

  /** Every element of an array is found under its own position. */
  lemma {:induction false} PositionsAt(items: seq<Json>, i: nat)
    requires i < |items|
    ensures Text.Decimal(i) in Positions(items) && Positions(items)[Text.Decimal(i)] == items[i]
  {
    hide Text.Decimal;
    var n := |items| - 1;
    if i < n {
      PositionsAt(items[..n], i);
      Text.DecimalValue(i);
      Text.DecimalValue(n);
    }
  }

  /** An array has no other keys. */
  lemma {:induction false} PositionsOnly(items: seq<Json>, k: string)
    requires k in Positions(items)
    ensures exists i: nat :: IsPosition(items, i, k)
  {
    hide Text.Decimal;
    var n := |items| - 1;
    if k == Text.Decimal(n) {
      assert IsPosition(items, n, k);
    } else {
      PositionsOnly(items[..n], k);
      var i: nat :| IsPosition(items[..n], i, k);
      assert IsPosition(items, i, k);
    }
  }

  predicate IsPosition(items: seq<Json>, i: nat, k: string) {
    i < |items| && k == Text.Decimal(i)
  }

  /** `get_all`: the user's top-level fields laid over the defaults, as they are. */
  function Overlay(d: Fields, c: Fields): Fields {
    d + c
  }

  /** Everything a reader gets, by the kind of the root: the user's entries first, the defaults under other keys. */
  ghost predicate Shown(d: Fields, j: Json, r: Fields) {
    match j
    case Obj(f) => r.Keys == d.Keys + f.Keys && forall k | k in r :: r[k] == if k in f then f[k] else d[k]
    case Arr(items) => ShownArray(d, items, r)
    case Null => r == d
    case _ => r == d["" := j]
  }

  ghost predicate ShownArray(d: Fields, items: seq<Json>, r: Fields) {
    && d.Keys <= r.Keys
    && (forall i: nat | i < |items| :: Text.Decimal(i) in r && r[Text.Decimal(i)] == items[i])
    && (forall k | k in r :: (k in d && r[k] == d[k]) || exists i: nat :: IsPosition(items, i, k))
  }

  lemma OverlayByKind(d: Fields, j: Json)
    ensures Shown(d, j, Overlay(d, Items(j)))
  {
    hide Positions, ShownArray;
    if j.Arr? { OverlayArray(d, j.items); }
  }

  lemma OverlayArray(d: Fields, items: seq<Json>)
    ensures ShownArray(d, items, Overlay(d, Positions(items)))
  {
    hide Positions, Text.Decimal, IsPosition;
    forall i: nat | i < |items|
      ensures Text.Decimal(i) in Positions(items) && Positions(items)[Text.Decimal(i)] == items[i]
    {
      PositionsAt(items, i);
    }
    forall k | k in Positions(items) ensures exists i: nat :: IsPosition(items, i, k) { PositionsOnly(items, k); }
  }

  /** After the defaults were merged, everything a reader gets is the tree itself. */
  lemma OverlayAfterMerge(c: Fields, d: Json)
    requires d.Obj?
    ensures Overlay(d.fields, Merge(c, d)) == Merge(c, d)
  {
    hide MergeOne;
    var m := Merge(c, d);
    assert Overlay(d.fields, m).Keys == m.Keys;
  }

  /** `r` is `d` with the fields of `c` outside `rest` laid over it. */
  ghost predicate PartlyLaid(d: Fields, c: Fields, rest: set<string>, r: Fields) {
    && rest <= c.Keys && r.Keys == d.Keys + (c.Keys - rest)
    && forall k | k in r :: if k in c.Keys - rest then r[k] == c[k] else r[k] == d[k]
  }

  lemma LaidStarts(d: Fields, c: Fields)
    ensures PartlyLaid(d, c, c.Keys, d)
  {
  }

  lemma LaidAdvances(d: Fields, c: Fields, rest: set<string>, r: Fields, k: string)
    requires PartlyLaid(d, c, rest, r) && k in rest
    ensures PartlyLaid(d, c, rest - {k}, r[k := c[k]])
  {
    assert r[k := c[k]].Keys == d.Keys + (c.Keys - (rest - {k}));
  }

  lemma LaidEnds(d: Fields, c: Fields, r: Fields)
    requires PartlyLaid(d, c, {}, r)
    ensures r == Overlay(d, c)
  {
    assert r.Keys == Overlay(d, c).Keys;
  }

  /** Below a root that is no object nothing is found. */
  lemma RootFields(j: Json, p: Path)
    requires p != []
    ensures At(j, p) == At(Obj(FieldsOf(j)), p)
  {
  }

  class ConfigManager {
    var data: Json
    var defaults: Json

    constructor (loaded: Json, defaultConfig: Json)
      ensures data == loaded && defaults == defaultConfig
    {
      data, defaults := loaded, defaultConfig;
    }

    /** Making a manager: the defaults are merged into what the file holds. There is none when that throws. */
    static method Open(loaded: Json, defaultConfig: Json) returns (r: Option<ConfigManager>)
      requires defaultConfig.Obj?
      ensures r.Some? <==> MergeRoot(loaded, defaultConfig).Some?
      ensures r.Some? ==> fresh(r.value) && r.value.defaults == defaultConfig
      ensures r.Some? ==> Some(r.value.data) == MergeRoot(loaded, defaultConfig)
      ensures r.None? <==> defaultConfig.fields != map[] && !loaded.Obj? && !loaded.Null?
      ensures r.Some? ==> Combines(loaded, defaultConfig, r.value.data)
    {
      hide Combines;
      var c := new ConfigManager(loaded, defaultConfig);
      var ok := c.MergeDefaults();
      r := if ok then Some(c) else None;
    }

    method GetPath(segments: Path, def: Json) returns (r: Json)
      ensures r == Get(data, segments, def)
      ensures segments != [] && Lookup(data, segments).Some? ==> Some(r) == Lookup(data, segments)
      ensures segments == [] || Lookup(data, segments).None? ==> r == def
    {
      var current, i := data, 0;
      while i < |segments|
        invariant i <= |segments|
        invariant i == |segments| ==> segments == []
        invariant i < |segments| ==> Lookup(data, segments) == Lookup(current, segments[i..])
      {
        var k := segments[i];
        assert segments[i..][1..] == segments[i + 1..];
        if !Contains(current, k) { return def; }
        if i + 1 < |segments| {
          current := current.fields[k];
        } else {
          return current.fields[k];
        }
        i := i + 1;
      }
      r := def;
    }

    /** The flag `changed` says that listeners are told and the file is written. */
    method SetPath(segments: Path, value: Json) returns (ok: bool, changed: bool)
      requires segments != []
      modifies this`data
      ensures ok <==> Set(old(data), segments, value).Some?
      ensures Some(data) == if ok then Set(old(data), segments, value) else Some(old(data))
      ensures !ok <==> |segments| > 1 && !old(data).Obj? && !old(data).Null?
      ensures if ok then WrittenAt(old(data), segments, value, data) else data == old(data)
      ensures changed <==> ok && At(old(data), segments) != value
    {
      hide WrittenAt, SetFields;
      if |segments| > 1 && !data.Obj? && !data.Null? { return false, false; }
      SetWrites(data, segments, value);
      RootFields(data, segments);
      ok := true;
      if !data.Obj? { data := Obj(map[]); }
      var f;
      f, changed := SetInto(data.fields, segments, value);
      data := Obj(f);
    }

    method MergeDefaults() returns (ok: bool)
      requires defaults.Obj?
      modifies this`data
      ensures ok <==> MergeRoot(old(data), defaults).Some?
      ensures Some(data) == if ok then MergeRoot(old(data), defaults) else Some(old(data))
      ensures !ok <==> defaults.fields != map[] && !old(data).Obj? && !old(data).Null?
      ensures if ok then Combines(old(data), defaults, data) else data == old(data)
    {
      hide Combines, Merge;
      MergeRootCombines(data, defaults);
      if defaults.fields == map[] { return true; }
      if !data.Obj? && !data.Null? { return false; }
      var m := MergeInto(FieldsOf(data), defaults);
      data := Obj(m);
      ok := true;
    }

    method GetAll() returns (r: Fields)
      requires defaults.Obj?
      ensures r == Overlay(defaults.fields, Items(data))
      ensures Shown(defaults.fields, data, r)
    {
      hide PartlyLaid, Items, Shown, Overlay;
      OverlayByKind(defaults.fields, data);
      r := defaults.fields;
      var c := Items(data);
      var rest := c.Keys;
      LaidStarts(defaults.fields, c);
      while rest != {}
        invariant rest <= c.Keys && PartlyLaid(defaults.fields, c, rest, r)
        decreases |rest|
      {
        var k :| k in rest;
        LaidAdvances(defaults.fields, c, rest, r, k);
        r := r[k := c[k]];
        rest := rest - {k};
      }
      LaidEnds(defaults.fields, c, r);
    }
  }
}
