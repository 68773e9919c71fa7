/**
 Semantic Versioning 2.0.0: parsing (items 2, 9 and 10), printing, and precedence (item 11).
 */
module Semver {
  import opened Text
  import opened Options

  const INT_MAX: nat := 0x7FFF_FFFF

  datatype Version = Version(major: nat, minor: nat, patch: nat, prerelease: string, build: string)

  // ---------------------------------------------------------------------------------------------
  // Numbers
  // ---------------------------------------------------------------------------------------------

  /** `parse_int`: the error cases are an empty part, a character that is no digit, a leading zero, and overflow. */
  function ParseInt(s: string): (r: Option<nat>) {
    if s == "" || !AllDigits(s) || LeadingZero(s) || Value(s) > INT_MAX then None else Some(Value(s))
  }

  lemma ParseIntIff(s: string, n: nat)
    ensures ParseInt(s) == Some(n) <==> n <= INT_MAX && s == Decimal(n)
  {
    DecimalValue(n);
    if ParseInt(s) == Some(n) { ValueDecimal(s); }
  }

  // ---------------------------------------------------------------------------------------------
  // Identifiers
  // ---------------------------------------------------------------------------------------------

  predicate IsAlnum(c: char) { IsDigit(c) || 'a' <= c <= 'z' || 'A' <= c <= 'Z' }

  predicate IsIdentifier(id: string) {
    id != "" && forall i | 0 <= i < |id| :: IsAlnum(id[i]) || id[i] == '-'
  }

  /** Codes of the ASCII digits, letters and the hyphen. */
  predicate IdentifierCode(n: int) {
    48 <= n <= 57 || 65 <= n <= 90 || 97 <= n <= 122 || n == 45
  }

  /** Identifiers are made of the characters of item 9, by their codes. */
  lemma IdentifierIff(id: string)
    ensures IsIdentifier(id) <==> id != "" && forall i | 0 <= i < |id| :: IdentifierCode(id[i] as int)
  {
    forall i | 0 <= i < |id| ensures IsAlnum(id[i]) || id[i] == '-' <==> IdentifierCode(id[i] as int) { }
  }

  /** One part of `validate`: leading zeros matter in a prerelease only. */
  predicate PartOk(id: string, prerelease: bool) {
    IsIdentifier(id) && !(prerelease && AllDigits(id) && LeadingZero(id))
  }

  predicate PartsOk(parts: seq<string>, prerelease: bool) {
    forall i | 0 <= i < |parts| :: PartOk(parts[i], prerelease)
  }

  /** `validate`. */
  method Validate(s: string, prerelease: bool) returns (ok: bool)
    ensures ok <==> s != "" && PartsOk(Split(s, '.'), prerelease)
  {
    if s == "" { return false; }
    var parts := SplitLoop(s, '.');
    for i := 0 to |parts|
      invariant forall k | 0 <= k < i :: PartOk(parts[k], prerelease)
    {
      if !PartOk(parts[i], prerelease) { return false; }
    }
    return true;
  }

  /** Dot-separated identifiers: nothing at all, or a list of valid ones. */
  predicate FieldOk(s: string, prerelease: bool) {
    s == "" || PartsOk(Split(s, '.'), prerelease)
  }

  lemma FieldChars(s: string, prerelease: bool)
    requires s != "" && FieldOk(s, prerelease)
    ensures '+' !in s && s[0] != '.' && s[|s| - 1] != '.'
  {
    SplitJoins(s, '.');
    JoinChars(Split(s, '.'), prerelease);
  }

  lemma {:induction false} JoinChars(parts: seq<string>, prerelease: bool)
    requires parts != [] && PartsOk(parts, prerelease)
    ensures var s := Join(parts, '.'); s != "" && '+' !in s && s[0] != '.' && s[|s| - 1] != '.'
  {
    assert PartOk(parts[0], prerelease);
    if |parts| > 1 { JoinChars(parts[1..], prerelease); }
  }

  // ---------------------------------------------------------------------------------------------
  // Parsing
  // ---------------------------------------------------------------------------------------------

  function ParseCore(core: string, pre: string, build: string): Option<Version> {
    var parts := Split(core, '.');
    if |parts| != 3 then None
    else
      match (ParseInt(parts[0]), ParseInt(parts[1]), ParseInt(parts[2]))
      case (Some(a), Some(b), Some(c)) => Some(Version(a, b, c, pre, build))
      case _ => None
  }

  /** From the part before `+` on. */
  function ParsePre(core: string, build: string): Option<Version> {
    var p := Find(core, '-', 0);
    if p == |core| then ParseCore(core, "", build)
    else
      var pre := core[p + 1..];
      if pre == "" || !PartsOk(Split(pre, '.'), true) then None else ParseCore(core[..p], pre, build)
  }

  function Parse(s: string): Option<Version> {
    if s == "" || s[0] == '.' || s[|s| - 1] == '.' then None
    else
      var p := Find(s, '+', 0);
      if p == |s| then ParsePre(s, "")
      else
        var build := s[p + 1..];
        if build == "" || !PartsOk(Split(build, '.'), false) then None else ParsePre(s[..p], build)
  }

  /** `semver::parse` with its loops. */
  method ParseString(s: string) returns (r: Option<Version>)
    ensures r == Parse(s)
  {
    hide Find, Split, ParseInt, PartsOk;
    if s == "" || s[0] == '.' || s[|s| - 1] == '.' { return None; }
    var core, build, pre := s, "", "";
    var p := FindLoop(core, '+', 0);
    if p < |core| {
      if p == |core| - 1 { return None; }
      build, core := core[p + 1..], core[..p];
      var ok := Validate(build, false);
      if !ok { return None; }
    }
    p := FindLoop(core, '-', 0);
    if p < |core| {
      if p == |core| - 1 { return None; }
      pre, core := core[p + 1..], core[..p];
      var ok := Validate(pre, true);
      if !ok { return None; }
    }
    var parts := SplitLoop(core, '.');
    if |parts| != 3 { return None; }
    var a, b, c := ParseInt(parts[0]), ParseInt(parts[1]), ParseInt(parts[2]);
    if a.None? || b.None? || c.None? { return None; }
    r := Some(Version(a.value, b.value, c.value, pre, build));
  }

  /** Items 2, 9 and 10, with core numbers up to INT_MAX. */
  predicate Valid(v: Version) {
    && v.major <= INT_MAX && v.minor <= INT_MAX && v.patch <= INT_MAX
    && FieldOk(v.prerelease, true) && FieldOk(v.build, false)
  }

  function PrintCore(v: Version): string {
    Join([Decimal(v.major), Decimal(v.minor), Decimal(v.patch)], '.')
  }

  function Print(v: Version): string {
    PrintCore(v) + (if v.prerelease == "" then "" else "-" + v.prerelease) + (if v.build == "" then
        "" else "+" + v.build)
  }

  predicate CoreChar(c: char) { IsDigit(c) || c == '.' }

  lemma CoreChars(v: Version)
    ensures var s := PrintCore(v);
            s != "" && (forall i | 0 <= i < |s| :: CoreChar(s[i])) && s[0] != '.' && s[|s| - 1] != '.'
  {
    hide PrintCore, Decimal;
    CoreIs(v);
  }

  lemma CoreIs(v: Version)
    ensures PrintCore(v) == Decimal(v.major) + "." + Decimal(v.minor) + "." + Decimal(v.patch)
  {
    hide Decimal;
    var (a, b, c) := (Decimal(v.major), Decimal(v.minor), Decimal(v.patch));
    assert [a, b, c][1..] == [b, c] && [b, c][1..] == [c];
    assert Join([c], '.') == c && Join([b, c], '.') == b + ['.'] + c;
    assert a + ['.'] + (b + ['.'] + c) == a + "." + b + "." + c;
  }

  lemma ParseCoreIff(core: string, pre: string, build: string, v: Version)
    ensures ParseCore(core, pre, build) == Some(v) <==>
            && core == PrintCore(v) && v.major <= INT_MAX && v.minor <= INT_MAX && v.patch <= INT_MAX
            && v.prerelease == pre && v.build == build
  {
    var ds := [Decimal(v.major), Decimal(v.minor), Decimal(v.patch)];
    if core == PrintCore(v) {
      assert FreeOf(ds, '.');
      JoinSplits(ds, '.');
    }
    SplitJoins(core, '.');
    var parts := Split(core, '.');
    if |parts| == 3 {
      ParseIntIff(parts[0], v.major);
      ParseIntIff(parts[1], v.minor);
      ParseIntIff(parts[2], v.patch);
      if parts[0] == ds[0] && parts[1] == ds[1] && parts[2] == ds[2] { assert parts == ds; }
    }
  }

  /**
   `parse` accepts exactly the versions of the grammar, and printing the parsed fields gives back
   the text: `s` parses to `v` if and only if `v` is valid and `s` is its text.
   */
  lemma ParseIff(s: string, v: Version)
    ensures Parse(s) == Some(v) <==> Valid(v) && s == Print(v)
  {
    if Parse(s) == Some(v) { ParseSound(s, v); }
    if Valid(v) { ParseComplete(v); }
  }

  lemma ParseSound(s: string, v: Version)
    requires Parse(s) == Some(v)
    ensures Valid(v) && s == Print(v)
  {
    hide ParsePre, PrintCore, PartsOk, Split, Find, Valid;
    var p := Find(s, '+', 0);
    if p == |s| {
      ParsePreSound(s, "", v);
    } else {
      ParsePreSound(s[..p], s[p + 1..], v);
      assert s == s[..p] + ("+" + s[p + 1..]);
    }
  }

  lemma ParsePreSound(core: string, build: string, v: Version)
    requires ParsePre(core, build) == Some(v) && FieldOk(build, false)
    ensures Valid(v) && v.build == build
    ensures core == PrintCore(v) + if v.prerelease == "" then "" else "-" + v.prerelease
  {
    hide ParseCore, PrintCore, PartsOk, Split, Find;
    var p := Find(core, '-', 0);
    if p == |core| {
      ParseCoreIff(core, "", build, v);
    } else {
      ParseCoreIff(core[..p], core[p + 1..], build, v);
      assert core == core[..p] + ("-" + core[p + 1..]);
    }
  }

  lemma ParseComplete(v: Version)
    requires Valid(v)
    ensures Parse(Print(v)) == Some(v)
  {
    hide ParsePre, PrintCore, PartsOk, Split, Find, Parse;
    var head := PrintCore(v) + if v.prerelease == "" then "" else "-" + v.prerelease;
    HeadChars(v, head);
    ParsePreComplete(v, head);
    if v.build == "" {
      assert Print(v) == head;
      ParseHead(head, v);
    } else {
      FieldChars(v.build, false);
      assert Print(v) == head + ("+" + v.build);
      ParseBuild(head, v.build, v);
    }
  }

  lemma ParseHead(head: string, v: Version)
    requires head != "" && '+' !in head && head[0] != '.' && head[|head| - 1] != '.' && ParsePre(head, "") == Some(v)
    ensures Parse(head) == Some(v)
  {
    hide ParsePre;
    FindIs(head, '+', 0, |head|);
  }

  lemma ParseBuild(head: string, build: string, v: Version)
    requires head != "" && '+' !in head && head[0] != '.' && ParsePre(head, build) == Some(v)
    requires build != "" && PartsOk(Split(build, '.'), false) && build[|build| - 1] != '.'
    ensures Parse(head + ("+" + build)) == Some(v)
  {
    hide ParsePre, PartsOk, Split, Find;
    var s := head + ("+" + build);
    FindIs(s, '+', 0, |head|);
    assert s[..|head|] == head && s[|head| + 1..] == build;
  }

  lemma HeadChars(v: Version, head: string)
    requires Valid(v) && head == PrintCore(v) + if v.prerelease == "" then "" else "-" + v.prerelease
    ensures head != "" && '+' !in head && head[0] != '.' && head[|head| - 1] != '.'
  {
    CoreChars(v);
    if v.prerelease != "" { FieldChars(v.prerelease, true); }
  }

  lemma ParsePreComplete(v: Version, head: string)
    requires Valid(v) && head == PrintCore(v) + if v.prerelease == "" then "" else "-" + v.prerelease
    ensures ParsePre(head, v.build) == Some(v)
  {
    hide ParseCore, PrintCore, PartsOk, Split, Find;
    var core := PrintCore(v);
    CoreChars(v);
    ParseCoreIff(core, v.prerelease, v.build, v);
    if v.prerelease == "" {
      assert head == core;
      FindIs(head, '-', 0, |head|);
    } else {
      FindIs(head, '-', 0, |core|);
      assert head[..|core|] == core && head[|core| + 1..] == v.prerelease;
    }
  }

  // ---------------------------------------------------------------------------------------------
  // Precedence
  // ---------------------------------------------------------------------------------------------

  datatype Compared = Sign(sign: int) | Invalid

  function NatCmp(a: nat, b: nat): int {
    if a < b then -1 else if a == b then 0 else 1
  }

  /** Item 11.4: numeric identifiers by value, below all others; the others in ASCII order. */
  function IdCmp(a: string, b: string): int {
    if AllDigits(a) then (if AllDigits(b) then NatCmp(Value(a), Value(b)) else -1)
    else if AllDigits(b) then 1
    else StrCmp(a, b)
  }

  /** Item 11.3 and 11.4: no prerelease above any; otherwise field by field, a longer list above its prefix. */
  function PreCmp(a: string, b: string): int {
    if a == "" then (if b == "" then 0 else 1)
    else if b == "" then -1
    else Lex(IdCmp, Split(a, '.'), Split(b, '.'))
  }

  /** Item 11: the precedence of two versions. */
  function Precedence(v: Version, w: Version): int {
    if v.major != w.major then NatCmp(v.major, w.major)
    else if v.minor != w.minor then NatCmp(v.minor, w.minor)
    else if v.patch != w.patch then NatCmp(v.patch, w.patch)
    else PreCmp(v.prerelease, w.prerelease)
  }

  /** One round of the loop in `cmp_pre_release`: `Sign(0)` goes on. */
  function PartCmp(a: string, b: string): Compared {
    if a == "" || b == "" then Invalid
    else if AllDigits(a) && AllDigits(b) then
      if Value(a) > INT_MAX || Value(b) > INT_MAX then Invalid else Sign(NatCmp(Value(a), Value(b)))
    else if AllDigits(a) then Sign(-1)
    else if AllDigits(b) then Sign(1)
    else if a != b then Sign(if StrCmp(a, b) < 0 then -1 else 1)
    else Sign(0)
  }

  function CmpFrom(xs: seq<string>, ys: seq<string>, i: nat): Compared
    requires i <= |xs| && i <= |ys|
    decreases |xs| - i
  {
    if i == |xs| || i == |ys| then Sign(NatCmp(|xs|, |ys|))
    else
      var c := PartCmp(xs[i], ys[i]);
      if c == Sign(0) then CmpFrom(xs, ys, i + 1) else c
  }

  method CmpPreRelease(a: string, b: string) returns (r: Compared)
    ensures r == if a == "" || b == "" then Sign(PreCmp(a, b)) else CmpFrom(Split(a, '.'), Split(b, '.'), 0)
  {
    if a == "" && b == "" { return Sign(0); }
    if a == "" { return Sign(1); }
    if b == "" { return Sign(-1); }
    var xs := SplitLoop(a, '.');
    var ys := SplitLoop(b, '.');
    var n := if |xs| < |ys| then |xs| else |ys|;
    for i := 0 to n
      invariant CmpFrom(xs, ys, i) == CmpFrom(xs, ys, 0)
    {
      var c := PartCmp(xs[i], ys[i]);
      if c != Sign(0) { return c; }
    }
    if |xs| != |ys| { return Sign(if |xs| < |ys| then -1 else 1); }
    return Sign(0);
  }

  /** `semver::cmp`. */
  method Cmp(s: string, t: string) returns (r: Compared)
    ensures r == CmpStrings(s, t)
    ensures r.Invalid? <==> Parse(s).None? || Parse(t).None? || CannotCompare(Parse(s).value, Parse(t).value)
    ensures r.Sign? ==> Orders(Parse(s).value, Parse(t).value, r.sign)
  {
    hide Parse, Orders, SomeMeets, CmpFrom, Split;
    var v := ParseString(s);
    if v.None? { return Invalid; }
    var w := ParseString(t);
    if w.None? { return Invalid; }
    var a, b := v.value, w.value;
    CmpFailsIff(s, t, a, b);
    if CmpStrings(s, t).Sign? { CmpOrders(s, t, a, b); }
    if a.major != b.major { return Sign(if a.major < b.major then -1 else 1); }
    if a.minor != b.minor { return Sign(if a.minor < b.minor then -1 else 1); }
    if a.patch != b.patch { return Sign(if a.patch < b.patch then -1 else 1); }
    r := CmpPreRelease(a.prerelease, b.prerelease);
  }

  function CmpStrings(s: string, t: string): Compared {
    match (Parse(s), Parse(t))
    case (Some(v), Some(w)) =>
      if v.major != w.major || v.minor != w.minor || v.patch != w.patch || v.prerelease == "" || w.prerelease == "" then
        Sign(Precedence(v, w))
      else CmpFrom(Split(v.prerelease, '.'), Split(w.prerelease, '.'), 0)
    case _ => Invalid
  }

  /** Numeric identifiers of the prerelease fit in an `int`. */
  predicate Fits(v: Version) {
    forall i | 0 <= i < |Split(v.prerelease, '.')| :: PartFits(Split(v.prerelease, '.')[i])
  }

  predicate PartFits(p: string) {
    AllDigits(p) ==> Value(p) <= INT_MAX
  }

  lemma {:induction false} CmpFromIsLex(xs: seq<string>, ys: seq<string>, i: nat)
    requires i <= |xs| && i <= |ys| && CmpFrom(xs, ys, i).Sign?
    ensures CmpFrom(xs, ys, i) == Sign(Lex(IdCmp, xs[i..], ys[i..]))
    decreases |xs| - i
  {
    if i < |xs| && i < |ys| {
      PartIsId(xs[i], ys[i]);
      if PartCmp(xs[i], ys[i]) == Sign(0) { CmpFromIsLex(xs, ys, i + 1); }
      assert xs[i..][1..] == xs[i + 1..] && ys[i..][1..] == ys[i + 1..];
      assert xs[i..][0] == xs[i] && ys[i..][0] == ys[i];
    }
  }

  lemma PartIsId(a: string, b: string)
    requires PartCmp(a, b).Sign?
    ensures PartCmp(a, b) == Sign(IdCmp(a, b))
  {
    StrCmpZero(a, b);
    CharPreorder();
    LexOpposite(CharCmp, a, b);
  }

  lemma CharPreorder()
    ensures Preorder(CharCmp)
  {
  }

  /** Whenever `cmp` gives a sign, it is the precedence of item 11. */
  lemma CmpIsPrecedence(s: string, t: string, v: Version, w: Version)
    requires Parse(s) == Some(v) && Parse(t) == Some(w) && CmpStrings(s, t).Sign?
    ensures CmpStrings(s, t) == Sign(Precedence(v, w))
  {
    hide Parse, Split, CmpFrom, Lex;
    var xs, ys := Split(v.prerelease, '.'), Split(w.prerelease, '.');
    if CmpFrom(xs, ys, 0).Sign? {
      CmpFromIsLex(xs, ys, 0);
      assert xs[0..] == xs && ys[0..] == ys;
    }
  }

  /** Versions whose numeric identifiers fit can be compared. */
  lemma FitsCompares(s: string, t: string, v: Version, w: Version)
    requires Parse(s) == Some(v) && Parse(t) == Some(w) && Fits(v) && Fits(w)
    ensures CmpStrings(s, t).Sign?
  {
    hide Parse, CmpStrings, Split;
    CmpFailsIff(s, t, v, w);
  }

  // ---------------------------------------------------------------------------------------------
  // Item 11 by first differences
  // ---------------------------------------------------------------------------------------------

  predicate CharLower(a: char, b: char) { a < b }

  /** Numbers by value, below everything else; the rest in dictionary order. */
  ghost predicate IdLower(a: string, b: string) {
    if AllDigits(a) && AllDigits(b) then Value(a) < Value(b)
    else AllDigits(a) || (!AllDigits(b) && LowerSeq(CharLower, a, b))
  }

  /** Any prerelease is below none; two are ordered at the first identifier that differs, or by length. */
  ghost predicate PreLower(a: string, b: string) {
    a != "" && (b == "" || LowerSeq(IdLower, Split(a, '.'), Split(b, '.')))
  }

  ghost predicate Lower(v: Version, w: Version) {
    || v.major < w.major
    || (v.major == w.major && v.minor < w.minor)
    || (v.major == w.major && v.minor == w.minor && v.patch < w.patch)
    || (v.major == w.major && v.minor == w.minor && v.patch == w.patch && PreLower(v.prerelease, w.prerelease))
  }

  lemma IdDecides(xs: seq<string>, ys: seq<string>)
    requires PartsOk(xs, true) && PartsOk(ys, true)
    ensures Decides(IdCmp, IdLower, xs, ys)
  {
    forall a, b | a in xs && b in ys ensures (IdCmp(a, b) == 0 <==> a == b) && (IdCmp(a, b) < 0 <==> IdLower(a, b)) {
      assert PartOk(a, true) && PartOk(b, true);
      IdZero(a, b);
      LexLowerIff(CharCmp, CharLower, a, b);
    }
  }

  lemma PrecedenceLower(v: Version, w: Version)
    requires Valid(v) && Valid(w)
    ensures Precedence(v, w) < 0 <==> Lower(v, w)
  {
    hide Split, PartsOk, Lex, LowerSeq;
    var (xs, ys) := (Split(v.prerelease, '.'), Split(w.prerelease, '.'));
    if v.prerelease != "" && w.prerelease != "" {
      IdDecides(xs, ys);
      LexLowerIff(IdCmp, IdLower, xs, ys);
    }
  }

  /** The sign says which of two versions is lower. */
  ghost predicate Orders(v: Version, w: Version, sign: int) {
    && -1 <= sign <= 1
    && (sign == -1 <==> Lower(v, w))
    && (sign == 1 <==> Lower(w, v))
  }

  /** Whenever `cmp` gives a sign, it is negative exactly for the lower version and positive exactly for the higher. */
  lemma CmpOrders(s: string, t: string, v: Version, w: Version)
    requires Parse(s) == Some(v) && Parse(t) == Some(w) && CmpStrings(s, t).Sign?
    ensures Orders(v, w, CmpStrings(s, t).sign)
  {
    hide Parse, CmpStrings, Precedence, Lower, Valid;
    ParseSound(s, v);
    ParseSound(t, w);
    CmpIsPrecedence(s, t, v, w);
    PrecedenceOpposite(v, w);
    PrecedenceLower(v, w);
    PrecedenceLower(w, v);
  }

  /** A version in text, part by part. */
  lemma PrintIs(v: Version)
    ensures Print(v) == Decimal(v.major) + "." + Decimal(v.minor) + "." + Decimal(v.patch) +
                        (if v.prerelease == "" then "" else "-" + v.prerelease) +
                        (if v.build == "" then "" else "+" + v.build)
  {
    hide Decimal, PrintCore;
    CoreIs(v);
  }

  // ---------------------------------------------------------------------------------------------
  // Precedence is a total preorder
  // ---------------------------------------------------------------------------------------------

  lemma IdPreorder()
    ensures Preorder(IdCmp)
  {
    CharPreorder();
    forall a, b: string ensures -1 <= StrCmp(a, b) <= 1 && StrCmp(a, b) == -StrCmp(b, a) {
      LexOpposite(CharCmp, a, b);
    }
    forall a, b, c: string | StrCmp(a, b) <= 0 && StrCmp(b, c) <= 0 ensures StrCmp(a, c) <= 0 {
      LexTransitive(CharCmp, a, b, c);
    }
    hide StrCmp, AllDigits, Value;
  }

  lemma PreCmpOpposite(a: string, b: string)
    ensures -1 <= PreCmp(a, b) <= 1 && PreCmp(a, b) == -PreCmp(b, a)
  {
    IdPreorder();
    LexOpposite(IdCmp, Split(a, '.'), Split(b, '.'));
  }

  lemma PreCmpTransitive(a: string, b: string, c: string)
    requires PreCmp(a, b) <= 0 && PreCmp(b, c) <= 0
    ensures PreCmp(a, c) <= 0
  {
    IdPreorder();
    if a != "" && b != "" && c != "" { LexTransitive(IdCmp, Split(a, '.'), Split(b, '.'), Split(c, '.')); }
  }

  /** Antisymmetric in sign, on all versions. */
  lemma PrecedenceOpposite(v: Version, w: Version)
    ensures -1 <= Precedence(v, w) <= 1 && Precedence(v, w) == -Precedence(w, v)
  {
    PreCmpOpposite(v.prerelease, w.prerelease);
  }

  lemma PrecedenceTransitive(u: Version, v: Version, w: Version)
    requires Precedence(u, v) <= 0 && Precedence(v, w) <= 0
    ensures Precedence(u, w) <= 0
  {
    hide PreCmp;
    PreCmpOpposite(u.prerelease, v.prerelease);
    PreCmpOpposite(v.prerelease, w.prerelease);
    PreCmpOpposite(u.prerelease, w.prerelease);
    if PreCmp(u.prerelease, v.prerelease) <= 0 && PreCmp(v.prerelease, w.prerelease) <= 0 {
      PreCmpTransitive(u.prerelease, v.prerelease, w.prerelease);
    }
  }

  lemma {:induction false} LexIdZero(xs: seq<string>, ys: seq<string>)
    requires PartsOk(xs, true) && PartsOk(ys, true)
    ensures Lex(IdCmp, xs, ys) == 0 <==> xs == ys
    decreases |xs|
  {
    if xs != [] && ys != [] {
      assert PartOk(xs[0], true) && PartOk(ys[0], true);
      IdZero(xs[0], ys[0]);
      LexIdZero(xs[1..], ys[1..]);
      assert xs == [xs[0]] + xs[1..] && ys == [ys[0]] + ys[1..];
    }
  }

  /** Two valid identifiers compare equal only when they are the same text. */
  lemma IdZero(a: string, b: string)
    requires PartOk(a, true) && PartOk(b, true)
    ensures IdCmp(a, b) == 0 <==> a == b
  {
    StrCmpZero(a, b);
    if AllDigits(a) && AllDigits(b) {
      ValueDecimal(a);
      ValueDecimal(b);
    }
  }

  /** `cmp` gives 0 exactly for version texts that are the same up to build metadata. */
  lemma EqualApartFromBuild(s: string, t: string, v: Version, w: Version)
    requires Parse(s) == Some(v) && Parse(t) == Some(w) && CmpStrings(s, t).Sign?
    ensures CmpStrings(s, t) == Sign(0) <==> Print(v.(build := "")) == Print(w.(build := ""))
  {
    hide Parse, Print, CmpStrings;
    ParseSound(s, v);
    ParseSound(t, w);
    CmpIsPrecedence(s, t, v, w);
    PrecedenceZero(v, w);
    var v', w' := v.(build := ""), w.(build := "");
    ParseComplete(v');
    ParseComplete(w');
    if Print(v') == Print(w') { assert v' == w'; }
  }

  lemma PrecedenceZero(v: Version, w: Version)
    requires Valid(v) && Valid(w)
    ensures Precedence(v, w) == 0 <==> v.(build := "") == w.(build := "")
  {
    hide PartsOk, Split, Lex;
    var a, b := v.prerelease, w.prerelease;
    if a != "" && b != "" {
      LexIdZero(Split(a, '.'), Split(b, '.'));
      SplitJoins(a, '.');
      SplitJoins(b, '.');
    }
  }

  /** `cmp` on texts: antisymmetric in sign and transitive wherever the numeric identifiers fit. */
  lemma CmpIsPreorder(r: string, s: string, t: string, u: Version, v: Version, w: Version)
    requires Parse(r) == Some(u) && Parse(s) == Some(v) && Parse(t) == Some(w) && Fits(u) && Fits(v) && Fits(w)
    ensures CmpStrings(r, s).Sign? && CmpStrings(s, t).Sign? && CmpStrings(r, t).Sign? && CmpStrings(s, r).Sign?
    ensures CmpStrings(r, s).sign == -CmpStrings(s, r).sign
    ensures CmpStrings(r, s).sign <= 0 && CmpStrings(s, t).sign <= 0 ==> CmpStrings(r, t).sign <= 0
  {
    hide Parse, CmpStrings, Precedence, Fits;
    FitsCompares(r, s, u, v);
    FitsCompares(s, r, v, u);
    FitsCompares(s, t, v, w);
    FitsCompares(r, t, u, w);
    CmpIsPrecedence(r, s, u, v);
    CmpIsPrecedence(s, r, v, u);
    CmpIsPrecedence(s, t, v, w);
    CmpIsPrecedence(r, t, u, w);
    PrecedenceOpposite(u, v);
    if Precedence(u, v) <= 0 && Precedence(v, w) <= 0 { PrecedenceTransitive(u, v, w); }
  }

  // ---------------------------------------------------------------------------------------------
  // Identifiers that do not fit
  // ---------------------------------------------------------------------------------------------

  predicate Overflows(a: string, b: string) {
    AllDigits(a) && AllDigits(b) && (Value(a) > INT_MAX || Value(b) > INT_MAX)
  }

  /** The first difference, or the first common part, at or behind `i` that does not fit. */
  predicate Meets(xs: seq<string>, ys: seq<string>, i: nat, k: nat) {
    i <= k < |xs| && k < |ys| && xs[i..k] == ys[i..k] && Overflows(xs[k], ys[k])
  }

  ghost predicate SomeMeets(xs: seq<string>, ys: seq<string>, i: nat) {
    exists k: nat :: Meets(xs, ys, i, k)
  }

  ghost predicate CannotCompare(v: Version, w: Version) {
    && v.major == w.major && v.minor == w.minor && v.patch == w.patch
    && v.prerelease != "" && w.prerelease != ""
    && SomeMeets(Split(v.prerelease, '.'), Split(w.prerelease, '.'), 0)
  }

  lemma {:induction false} CmpFromFailsIff(xs: seq<string>, ys: seq<string>, i: nat)
    requires i <= |xs| && i <= |ys| && PartsOk(xs, true) && PartsOk(ys, true)
    ensures CmpFrom(xs, ys, i).Invalid? <==> SomeMeets(xs, ys, i)
    decreases |xs| - i
  {
    if i < |xs| && i < |ys| {
      assert PartOk(xs[i], true) && PartOk(ys[i], true);
      CmpFromFailsIff(xs, ys, i + 1);
      if Overflows(xs[i], ys[i]) {
        assert Meets(xs, ys, i, i);
      } else {
        PartZero(xs[i], ys[i]);
        if xs[i] == ys[i] {
          if SomeMeets(xs, ys, i + 1) {
            var k: nat :| Meets(xs, ys, i + 1, k);
            MeetsStep(xs, ys, i, k);
          }
          if SomeMeets(xs, ys, i) {
            var k: nat :| Meets(xs, ys, i, k);
            MeetsStep(xs, ys, i, k);
          }
        } else if SomeMeets(xs, ys, i) {
          var k: nat :| Meets(xs, ys, i, k);
          if k > i { SamePart(xs, ys, i, k); }
        }
      }
    }
  }

  lemma SamePart(xs: seq<string>, ys: seq<string>, i: nat, k: nat)
    requires Meets(xs, ys, i, k) && k > i
    ensures xs[i] == ys[i]
  {
    assert xs[i] == xs[i..k][0] && ys[i] == ys[i..k][0];
  }

  lemma PartZero(a: string, b: string)
    requires PartOk(a, true) && PartOk(b, true) && !Overflows(a, b)
    ensures PartCmp(a, b) == Sign(0) <==> a == b
    ensures PartCmp(a, b).Sign?
  {
    IdZero(a, b);
  }

  /** Two parts cannot be compared when one is empty, or when both are numbers of which one does not fit. */
  lemma PartFailsIff(a: string, b: string)
    ensures PartCmp(a, b).Invalid? <==> a == "" || b == "" || Overflows(a, b)
  {
  }

  lemma MeetsStep(xs: seq<string>, ys: seq<string>, i: nat, k: nat)
    requires i < |xs| && i < |ys| && xs[i] == ys[i] && !Overflows(xs[i], ys[i])
    ensures Meets(xs, ys, i, k) <==> Meets(xs, ys, i + 1, k)
  {
    if i < k < |xs| && k < |ys| {
      assert xs[i..k] == [xs[i]] + xs[i + 1..k] && ys[i..k] == [ys[i]] + ys[i + 1..k];
    }
  }

  /**
   Two valid texts cannot be compared exactly when their cores are equal, both have a prerelease, and
   behind equal parts both have a number of which one does not fit in an `int`.
   */
  lemma CmpFailsIff(s: string, t: string, v: Version, w: Version)
    requires Parse(s) == Some(v) && Parse(t) == Some(w)
    ensures CmpStrings(s, t).Invalid? <==> CannotCompare(v, w)
  {
    hide Parse, SomeMeets, CmpFrom, PartsOk, Split;
    ParseSound(s, v);
    ParseSound(t, w);
    if v.prerelease != "" && w.prerelease != "" {
      CmpFromFailsIff(Split(v.prerelease, '.'), Split(w.prerelease, '.'), 0);
    }
  }

  /** A version that cannot be compared even with itself: its prerelease is a number too large for an `int`. */
  lemma TooLargeForItself(n: nat)
    requires n > INT_MAX
    ensures var s := "1.0.0-" + Decimal(n); Parse(s).Some? && CmpStrings(s, s).Invalid?
  {
    hide Parse, CmpStrings, Decimal, Print, PartsOk, Split;
    var (d, s) := (Decimal(n), "1.0.0-" + Decimal(n));
    var v := Version(1, 0, 0, d, "");
    NumberAlone(n);
    PrintOne(v);
    ParseComplete(v);
    assert Meets(Split(d, '.'), Split(d, '.'), 0, 0);
    CmpFailsIff(s, s, v, v);
  }

  lemma NumberAlone(n: nat)
    ensures Split(Decimal(n), '.') == [Decimal(n)] && FieldOk(Decimal(n), true) && Value(Decimal(n)) == n
  {
    hide Decimal, Value, Split;
    var d := Decimal(n);
    DecimalValue(n);
    FindIs(d, '.', 0, |d|);
    SplitOnce(d, '.');
  }

  lemma PrintOne(v: Version)
    requires v.major == 1 && v.minor == 0 && v.patch == 0 && v.prerelease != "" && v.build == ""
    ensures Print(v) == "1.0.0-" + v.prerelease
  {
    DecimalDigit('1');
    DecimalDigit('0');
    CoreIs(v);
  }
}
