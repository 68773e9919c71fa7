/** Strings cut at a character, strings compared, and decimals. */
module Text {

  /** `std::string::find`: the first position of `d` from `from` on, or the length. */
  function Find(s: string, d: char, from: nat): (p: nat)
    requires from <= |s|
    ensures from <= p <= |s|
    ensures p < |s| ==> s[p] == d
    ensures forall k | from <= k < p :: s[k] != d
    decreases |s| - from
  {
    if from == |s| || s[from] == d then from else Find(s, d, from + 1)
  }

  lemma FindIs(s: string, d: char, from: nat, p: nat)
    requires from <= p <= |s| && (p < |s| ==> s[p] == d)
    requires forall k | from <= k < p :: s[k] != d
    ensures Find(s, d, from) == p
  {
  }

  function Split(s: string, d: char): (parts: seq<string>)
    ensures parts != []
    decreases |s|
  {
    var p := Find(s, d, 0);
    if p == |s| then [s] else [s[..p]] + Split(s[p + 1..], d)
  }

  function Join(parts: seq<string>, d: char): string {
    if parts == [] then "" else if |parts| == 1 then parts[0] else parts[0] + [d] + Join(parts[1..], d)
  }

  ghost predicate FreeOf(parts: seq<string>, d: char) {
    forall i | 0 <= i < |parts| :: d !in parts[i]
  }

  /** Cutting and joining are inverse to each other. */
  lemma {:induction false} SplitJoins(s: string, d: char)
    ensures Join(Split(s, d), d) == s && FreeOf(Split(s, d), d)
    decreases |s|
  {
    var p := Find(s, d, 0);
    if p < |s| {
      SplitJoins(s[p + 1..], d);
      assert s == s[..p] + [d] + s[p + 1..];
    }
  }

  lemma {:induction false} JoinSplits(parts: seq<string>, d: char)
    requires parts != [] && FreeOf(parts, d)
    ensures Split(Join(parts, d), d) == parts
    decreases |parts|
  {
    var s := Join(parts, d);
    if |parts| == 1 {
      FindIs(s, d, 0, |s|);
    } else {
      var p := |parts[0]|;
      FindIs(s, d, 0, p);
      assert s[..p] == parts[0] && s[p + 1..] == Join(parts[1..], d);
      JoinSplits(parts[1..], d);
    }
  }

  /** The loop of `split`. */
  method SplitLoop(s: string, d: char) returns (parts: seq<string>)
    ensures parts == Split(s, d)
  {
    hide Split, Find;
    parts := [];
    var start := 0;
    var end := FindLoop(s, d, 0);
    assert s[0..] == s;
    while end < |s|
      invariant start <= end <= |s| && end == Find(s, d, start)
      invariant parts + Split(s[start..], d) == Split(s, d)
    {
      SplitAt(s, d, start);
      parts := parts + [s[start..end]];
      start := end + 1;
      end := FindLoop(s, d, start);
    }
    SplitAt(s, d, start);
    parts := parts + [s[start..]];
  }

  lemma SplitOnce(s: string, d: char)
    ensures var p := Find(s, d, 0); Split(s, d) == if p == |s| then [s] else [s[..p]] + Split(s[p + 1..], d)
  {
    hide Find;
  }

  lemma SplitAt(s: string, d: char, start: nat)
    requires start <= |s|
    ensures var end := Find(s, d, start);
            Split(s[start..], d) == if end == |s| then [s[start..]] else [s[start..end]] + Split(s[end + 1..], d)
  {
    hide Find, Split;
    var end := Find(s, d, start);
    FindShift(s, d, start);
    SplitOnce(s[start..], d);
    if end < |s| {
      assert s[start..][..end - start] == s[start..end] && s[start..][end - start + 1..] == s[end + 1..];
    }
  }

  method FindLoop(s: string, d: char, from: nat) returns (p: nat)
    requires from <= |s|
    ensures p == Find(s, d, from)
  {
    p := from;
    while p < |s| && s[p] != d
      invariant from <= p <= |s| && Find(s, d, p) == Find(s, d, from)
    {
      p := p + 1;
    }
  }

  lemma FindShift(s: string, d: char, from: nat)
    requires from <= |s|
    ensures Find(s[from..], d, 0) == Find(s, d, from) - from
  {
    FindIs(s[from..], d, 0, Find(s, d, from) - from);
  }

  // ---------------------------------------------------------------------------------------------
  // Comparison
  // ---------------------------------------------------------------------------------------------

  /** A three-way comparison that is a total preorder. */
  ghost predicate Preorder<T(!new)>(c: (T, T) -> int) {
    && (forall a, b :: -1 <= c(a, b) <= 1 && c(a, b) == -c(b, a))
    && (forall a, b, d :: c(a, b) <= 0 && c(b, d) <= 0 ==> c(a, d) <= 0)
  }

  /** Element by element; a proper prefix comes first. */
  function Lex<T>(c: (T, T) -> int, x: seq<T>, y: seq<T>): int {
    if x == [] then (if y == [] then 0 else -1)
    else if y == [] then 1
    else if c(x[0], y[0]) != 0 then c(x[0], y[0])
    else Lex(c, x[1..], y[1..])
  }

  lemma {:induction false} LexOpposite<T(!new)>(c: (T, T) -> int, x: seq<T>, y: seq<T>)
    requires Preorder(c)
    ensures -1 <= Lex(c, x, y) <= 1 && Lex(c, x, y) == -Lex(c, y, x)
  {
    if x != [] && y != [] {
      assert c(x[0], y[0]) == -c(y[0], x[0]);
      LexOpposite(c, x[1..], y[1..]);
    }
  }

  lemma {:induction false} LexTransitive<T(!new)>(c: (T, T) -> int, x: seq<T>, y: seq<T>, z: seq<T>)
    requires Preorder(c) && Lex(c, x, y) <= 0 && Lex(c, y, z) <= 0
    ensures Lex(c, x, z) <= 0
  {
    if x != [] && y != [] && z != [] {
      var a, b, d := x[0], y[0], z[0];
      assert c(a, b) <= 0 && c(b, d) <= 0 && c(a, d) <= 0;
      if c(a, d) == 0 {
        assert c(d, a) == 0 && c(b, a) <= 0 && c(d, b) <= 0;
        LexTransitive(c, x[1..], y[1..], z[1..]);
      }
    }
  }

  /** The sequences agree up to `k`, where the first ends or has a lower element. */
  predicate LowerAt<T(==)>(lower: (T, T) -> bool, x: seq<T>, y: seq<T>, k: nat) {
    && k <= |x| && k < |y| && x[..k] == y[..k]
    && (k == |x| || lower(x[k], y[k]))
  }

  /** Dictionary order. */
  ghost predicate LowerSeq<T>(lower: (T, T) -> bool, x: seq<T>, y: seq<T>) {
    exists k: nat :: LowerAt(lower, x, y, k)
  }

  lemma LowerStep<T>(lower: (T, T) -> bool, x: seq<T>, y: seq<T>, k: nat)
    requires x != [] && y != [] && x[0] == y[0]
    ensures LowerAt(lower, x, y, k + 1) <==> LowerAt(lower, x[1..], y[1..], k)
  {
    if k + 1 <= |x| && k + 1 < |y| {
      assert x[..k + 1] == [x[0]] + x[1..][..k] && y[..k + 1] == [y[0]] + y[1..][..k];
      assert x[..k + 1][1..] == x[1..][..k] && y[..k + 1][1..] == y[1..][..k];
    }
  }

  lemma LowerRest<T>(lower: (T, T) -> bool, x: seq<T>, y: seq<T>)
    requires x != [] && y != [] && x[0] == y[0] && !lower(x[0], y[0])
    ensures LowerSeq(lower, x, y) <==> LowerSeq(lower, x[1..], y[1..])
  {
    hide LowerAt;
    if LowerSeq(lower, x[1..], y[1..]) {
      var k: nat :| LowerAt(lower, x[1..], y[1..], k);
      LowerStep(lower, x, y, k);
    }
    if LowerSeq(lower, x, y) {
      var k: nat :| LowerAt(lower, x, y, k);
      NotAtFirst(lower, x, y, k);
      LowerStep(lower, x, y, k - 1);
    }
  }

  lemma NotAtFirst<T>(lower: (T, T) -> bool, x: seq<T>, y: seq<T>, k: nat)
    requires x != [] && y != [] && !lower(x[0], y[0]) && LowerAt(lower, x, y, k)
    ensures k > 0
  {
  }

  lemma DecidedAtFirst<T>(lower: (T, T) -> bool, x: seq<T>, y: seq<T>)
    requires x != [] && y != [] && x[0] != y[0]
    ensures LowerSeq(lower, x, y) <==> lower(x[0], y[0])
  {
    if lower(x[0], y[0]) { assert LowerAt(lower, x, y, 0); }
    forall k: nat | k > 0 ensures !LowerAt(lower, x, y, k) {
      if k <= |x| && k < |y| { assert x[..k][0] != y[..k][0]; }
    }
  }

  /** The comparison decides the order `lower` on the elements of two sequences. */
  ghost predicate Decides<T(!new)>(c: (T, T) -> int, lower: (T, T) -> bool, x: seq<T>, y: seq<T>) {
    forall a, b | a in x && b in y :: (c(a, b) == 0 <==> a == b) && (c(a, b) < 0 <==> lower(a, b))
  }

  /** Comparing element by element decides the dictionary order. */
  lemma {:induction false} LexLowerIff<T(!new)>(c: (T, T) -> int, lower: (T, T) -> bool, x: seq<T>, y: seq<T>)
    requires Decides(c, lower, x, y)
    ensures Lex(c, x, y) < 0 <==> LowerSeq(lower, x, y)
  {
    hide LowerSeq;
    if x == [] || y == [] {
      LowerEnds(lower, x, y);
    } else if x[0] == y[0] {
      LexLowerIff(c, lower, x[1..], y[1..]);
      LowerRest(lower, x, y);
    } else {
      DecidedAtFirst(lower, x, y);
    }
  }

  lemma LowerEnds<T>(lower: (T, T) -> bool, x: seq<T>, y: seq<T>)
    requires x == [] || y == []
    ensures LowerSeq(lower, x, y) <==> x == [] && y != []
  {
    if x == [] && y != [] { assert LowerAt(lower, x, y, 0); }
  }

  function CharCmp(a: char, b: char): int {
    if a < b then -1 else if a == b then 0 else 1
  }

  /** `std::string` comparison. */
  function StrCmp(a: string, b: string): int {
    Lex(CharCmp, a, b)
  }

  lemma {:induction false} StrCmpZero(a: string, b: string)
    ensures StrCmp(a, b) == 0 <==> a == b
    decreases |a|
  {
    if a != [] && b != [] {
      StrCmpZero(a[1..], b[1..]);
      assert a == [a[0]] + a[1..] && b == [b[0]] + b[1..];
    }
  }

  // ---------------------------------------------------------------------------------------------
  // Decimals
  // ---------------------------------------------------------------------------------------------

  predicate IsDigit(c: char) { '0' <= c <= '9' }

  predicate AllDigits(s: string) { forall i | 0 <= i < |s| :: IsDigit(s[i]) }

  predicate LeadingZero(s: string) { |s| > 1 && s[0] == '0' }

  /** The number a string of digits denotes; `strtol` without its upper limit. */
  function Value(s: string): nat
    requires AllDigits(s)
  {
    if s == "" then 0 else Value(s[..|s| - 1]) * 10 + (s[|s| - 1] as int - '0' as int)
  }

  function Decimal(n: nat): (s: string)
    ensures s != "" && AllDigits(s)
  {
    var d := [('0' as int + n % 10) as char];
    if n < 10 then d else Decimal(n / 10) + d
  }

  lemma {:induction false} DecimalValue(n: nat)
    ensures Value(Decimal(n)) == n && !LeadingZero(Decimal(n))
    ensures n > 0 ==> Decimal(n)[0] != '0'
  {
    var s := Decimal(n);
    if n >= 10 {
      DecimalValue(n / 10);
      assert s[..|s| - 1] == Decimal(n / 10);
    } else {
      assert s[..0] == "";
    }
  }

  /** Decimals without leading zeros are unique. */
  lemma {:induction false} ValueDecimal(s: string)
    requires s != "" && AllDigits(s) && !LeadingZero(s)
    ensures Decimal(Value(s)) == s
    ensures |s| > 1 ==> Value(s) >= 10
  {
    hide Value, Decimal;
    var (t, c) := (s[..|s| - 1], s[|s| - 1]);
    assert s == t + [c];
    ValueLast(t, c);
    if |s| > 1 {
      ValueDecimal(t);
      if |t| == 1 {
        assert t == "" + [t[0]];
        ValueLast("", t[0]);
      }
      assert Value(t) > 0;
      DecimalLast(Value(t), c as int - '0' as int);
    } else {
      DecimalDigit(c);
    }
  }

  lemma ValueLast(t: string, c: char)
    requires AllDigits(t + [c])
    ensures AllDigits(t) && Value(t + [c]) == Value(t) * 10 + (c as int - '0' as int)
    ensures Value("") == 0
  {
    assert (t + [c])[..|t|] == t && forall k | 0 <= k < |t| :: (t + [c])[k] == t[k];
  }

  lemma DecimalLast(n: nat, d: nat)
    requires n > 0 && d < 10
    ensures Decimal(n * 10 + d) == Decimal(n) + [('0' as int + d) as char]
  {
  }

  lemma DecimalDigit(c: char)
    requires '0' <= c <= '9'
    ensures Decimal(c as int - '0' as int) == [c]
  {
    var n := c as int - '0' as int;
    assert n < 10 && n % 10 == n && ('0' as int + n) as char == c;
  }
}
