/** Version strings and their precedence (sections 2, 9, 10 and 11 of Semantic Versioning 2.0.0), with short forms. */
module Semver {
  import opened Wrappers
  import opened Strings
  import EnvVars

  predicate Digit(c: char) { '0' <= c <= '9' }

  /** A numeric identifier has no leading zero. */
  predicate Number(s: string) {
    s != "" && (forall c | c in s :: Digit(c)) && (s[0] == '0' ==> |s| == 1)
  }

  function DigitRun(s: string): (n: nat)
    ensures n <= |s| && (forall i | 0 <= i < n :: Digit(s[i])) && (n < |s| ==> !Digit(s[n]))
  {
    if s == "" || !Digit(s[0]) then 0 else 1 + DigitRun(s[1..])
  }

  predicate NotMoreDigits(s: string) { s == "" || !Digit(s[0]) }

  function ParseNumber(s: string): (r: Option<(string, string)>)
    ensures r.Some? ==> Number(r.value.0) && NotMoreDigits(r.value.1) && r.value.0 + r.value.1 == s
  {
    var n := DigitRun(s);
    if n == 0 || (s[0] == '0' && n != 1) then None else Some((s[..n], s[n..]))
  }

  predicate IdentifierChar(c: char) { 'A' <= c <= 'Z' || 'a' <= c <= 'z' || Digit(c) || c == '-' }

  predicate IdentifierOk(s: string, strict: bool) {
    && s != "" && (forall c | c in s :: IdentifierChar(c))
    && (strict && (forall c | c in s :: Digit(c)) ==> Number(s))
  }

  /** Dot-separated identifiers, none empty. */
  predicate IdentifiersOk(s: string, strict: bool)
    decreases |s|
  {
    var i := IndexOf(s, '.');
    IdentifierOk(s[..i], strict) && (i < |s| ==> IdentifiersOk(s[i + 1..], strict))
  }

  /** `pre` and `build` keep their leading sign; missing numbers of a short form are "0". */
  datatype Version = Version(major: string, minor: string, patch: string, pre: string, build: string, parts: nat)

  function ParseTail(s: string): (r: Option<(string, string)>)
    ensures r.Some? ==> r.value.0 + r.value.1 == s
  {
    var k := if s != "" && s[0] == '-' then IndexOf(s, '+') else 0;
    var pre, build := s[..k], s[k..];
    if (pre == "" || IdentifiersOk(pre[1..], true)) && (build == "" || (build[0] == '+' && IdentifiersOk(build[1..], false)))
    then Some((pre, build)) else None
  }

  function Parse(v: string): (r: Option<Version>)
    ensures r.Some? ==> Unparse(r.value) == v && Proper(r.value)
  {
    if v == "" || v[0] != 'v' then None else
      match ParseNumber(v[1..])
      case None => None
      case Some((major, rest)) =>
        if rest == "" then Some(Version(major, "0", "0", "", "", 1))
        else if rest[0] != '.' then None
        else ParseMinor(v, major, rest)
  }

  function ParseMinor(v: string, major: string, rest: string): (r: Option<Version>)
    requires Number(major) && v == "v" + major + rest && rest != "" && rest[0] == '.'
    ensures r.Some? ==> Unparse(r.value) == v && Proper(r.value) && r.value.parts >= 2 && r.value.major == major
  {
    match ParseNumber(rest[1..])
    case None => None
    case Some((minor, rest2)) =>
      assert rest == "." + minor + rest2;
      if rest2 == "" then Some(Version(major, minor, "0", "", "", 2))
      else if rest2[0] != '.' then None
      else ParsePatch(v, major, minor, rest2)
  }

  lemma Reassemble(p: Version, v: string, rest: string, tail: string)
    requires p.parts == 3 && v == MinorPart(p) + rest && rest != "" && rest[0] == '.'
    requires p.patch + tail == rest[1..] && p.pre + p.build == tail
    ensures v == Unparse(p)
  {
    assert rest == "." + rest[1..];
    assert v == CorePart(p) + tail;
  }

  function ParsePatch(v: string, major: string, minor: string, rest: string): (r: Option<Version>)
    requires Number(major) && Number(minor) && v == "v" + major + "." + minor + rest && rest != "" && rest[0] == '.'
    ensures r.Some? ==> Unparse(r.value) == v && Proper(r.value) && r.value.parts == 3 && r.value.major == major
  {
    match ParseNumber(rest[1..])
    case None => None
    case Some((patch, tail)) =>
      match ParseTail(tail)
      case None => None
      case Some((pre, build)) =>
        var p := Version(major, minor, patch, pre, build, 3);
        assert v == Unparse(p) by { Reassemble(p, v, rest, tail); }
        Some(p)
  }

  predicate Proper(p: Version) {
    && Number(p.major) && Number(p.minor) && Number(p.patch) && 1 <= p.parts <= 3
    && (p.parts < 3 ==> p.patch == "0" && p.pre == "" && p.build == "")
    && (p.parts < 2 ==> p.minor == "0")
    && (p.pre == "" || (p.pre[0] == '-' && '+' !in p.pre))
    && (p.build == "" || p.build[0] == '+')
  }

  function Unparse(p: Version): string {
    if p.parts <= 1 then MajorPart(p)
    else if p.parts == 2 then MinorPart(p)
    else CorePart(p) + p.pre + p.build
  }

  function MajorPart(p: Version): string { "v" + p.major }

  function MinorPart(p: Version): string { "v" + p.major + "." + p.minor }

  function CorePart(p: Version): string { "v" + p.major + "." + p.minor + "." + p.patch }

  predicate IsValid(v: string) { Parse(v).Some? }

  /** A valid version that is no pre-release. */
  predicate Release(v: string) { IsValid(v) && Parse(v).value.pre == "" }

  function Major(v: string): string {
    match Parse(v)
    case None => ""
    case Some(p) => v[..1 + |p.major|]
  }

  function MajorMinor(v: string): string {
    match Parse(v)
    case None => ""
    case Some(p) => CutMinor(v, p)
  }

  function CutMinor(v: string, p: Version): string
    requires v == Unparse(p) && Proper(p)
  {
    var i := 1 + |p.major|;
    var j := i + 1 + |p.minor|;
    if j <= |v| && v[i] == '.' && v[i + 1..j] == p.minor then v[..j] else v[..i] + "." + p.minor
  }

  function Canonical(v: string): string {
    match Parse(v)
    case None => ""
    case Some(p) => CutBuild(v, p)
  }

  function CutBuild(v: string, p: Version): string
    requires v == Unparse(p) && Proper(p)
  {
    if p.build != "" then v[..|v| - |p.build|]
    else if p.parts == 1 then v + ".0.0"
    else if p.parts == 2 then v + ".0"
    else v
  }

  lemma CutMinorIsMinorPart(v: string, p: Version)
    requires v == Unparse(p) && Proper(p)
    ensures CutMinor(v, p) == MinorPart(p)
  {
    var i := 1 + |p.major|;
    MajorIsPrefix(p);
    assert v[..i] == MajorPart(p);
    if p.parts >= 2 {
      var m := MinorPart(p);
      assert m <= v by { if p.parts == 3 { assert v == m + ("." + p.patch + p.pre + p.build); } }
      assert m[i] == '.' && m[i + 1..] == p.minor;
      assert v[i + 1..|m|] == m[i + 1..];
    }
  }

  lemma CutBuildIsCore(v: string, p: Version)
    requires v == Unparse(p) && Proper(p)
    ensures CutBuild(v, p) == CorePart(p) + p.pre
  {
    if p.parts == 3 {
      assert v == (CorePart(p) + p.pre) + p.build;
    }
  }

  /** What the three abbreviations are, in terms of the parsed version. */
  lemma Abbreviations(v: string, p: Version)
    requires Parse(v) == Some(p)
    ensures Major(v) == MajorPart(p) && MajorMinor(v) == MinorPart(p) && Canonical(v) == CorePart(p) + p.pre
  {
    CutMinorIsMinorPart(v, p);
    CutBuildIsCore(v, p);
    MajorIsPrefix(p);
    assert v[..1 + |p.major|] == MajorPart(p);
  }

  lemma MajorIsPrefix(p: Version)
    requires Proper(p)
    ensures MajorPart(p) <= Unparse(p)
  {
  }

  // ---------------------------------------------------------------- the grammar

  predicate Grammatical(p: Version) {
    && Proper(p)
    && (p.pre == "" || IdentifiersOk(p.pre[1..], true))
    && (p.build == "" || IdentifiersOk(p.build[1..], false))
  }

  lemma ParseNumberOf(number: string, rest: string)
    requires Number(number) && NotMoreDigits(rest)
    ensures ParseNumber(number + rest) == Some((number, rest))
  {
    var s := number + rest;
    assert forall i | 0 <= i < |number| :: number[i] in number && s[i] == number[i];
    assert rest != "" ==> s[|number|] == rest[0];
    assert DigitRun(s) == |number|;
    assert s[..|number|] == number && s[|number|..] == rest;
  }

  lemma ParseTailOf(pre: string, build: string)
    requires pre == "" || (pre[0] == '-' && '+' !in pre && IdentifiersOk(pre[1..], true))
    requires build == "" || (build[0] == '+' && IdentifiersOk(build[1..], false))
    ensures ParseTail(pre + build) == Some((pre, build))
  {
    var s := pre + build;
    if pre != "" {
      assert forall i | 0 <= i < |pre| :: pre[i] in pre && s[i] == pre[i];
      assert build != "" ==> s[|pre|] == build[0];
      assert IndexOf(s, '+') == |pre|;
    }
    assert s[..|pre|] == pre && s[|pre|..] == build;
  }

  lemma TailIsGrammatical(s: string)
    requires ParseTail(s).Some?
    ensures
      var (pre, build) := ParseTail(s).value;
      && (pre == "" || IdentifiersOk(pre[1..], true))
      && (build == "" || IdentifiersOk(build[1..], false))
  {
  }

  /** Parsing accepts exactly the grammar, and reads every version in one way only. */
  lemma ParseIsGrammar(v: string, p: Version)
    ensures Parse(v) == Some(p) <==> Grammatical(p) && Unparse(p) == v
  {
    if Grammatical(p) && Unparse(p) == v {
      ParseUnparse(p);
    }
    if Parse(v) == Some(p) {
      ParsedIsGrammatical(v);
    }
  }

  lemma ParsedIsGrammatical(v: string)
    requires IsValid(v)
    ensures Grammatical(Parse(v).value)
  {
    var (major, rest) := ParseNumber(v[1..]).value;
    if rest != "" {
      var (minor, rest2) := ParseNumber(rest[1..]).value;
      if rest2 != "" {
        var (patch, tail) := ParseNumber(rest2[1..]).value;
        TailIsGrammatical(tail);
      }
    }
  }

  /** What follows the minor number, and what follows the major one. */
  function AfterMinor(p: Version): string { if p.parts == 3 then "." + (p.patch + (p.pre + p.build)) else "" }

  function AfterMajor(p: Version): string { if p.parts >= 2 then "." + (p.minor + AfterMinor(p)) else "" }

  lemma ParsePatchOf(v: string, p: Version)
    requires Grammatical(p) && p.parts == 3 && v == "v" + p.major + "." + p.minor + AfterMinor(p)
    ensures ParsePatch(v, p.major, p.minor, AfterMinor(p)) == Some(p)
  {
    var tail := p.pre + p.build;
    assert AfterMinor(p)[1..] == p.patch + tail;
    ParseNumberOf(p.patch, tail);
    ParseTailOf(p.pre, p.build);
  }

  lemma ParseMinorOf(v: string, p: Version)
    requires Grammatical(p) && p.parts >= 2 && v == "v" + p.major + AfterMajor(p)
    ensures ParseMinor(v, p.major, AfterMajor(p)) == Some(p)
  {
    assert AfterMajor(p)[1..] == p.minor + AfterMinor(p);
    ParseNumberOf(p.minor, AfterMinor(p));
    if p.parts == 3 {
      assert v == "v" + p.major + "." + p.minor + AfterMinor(p);
      ParsePatchOf(v, p);
    }
  }

  lemma UnparseShape(p: Version)
    requires Proper(p)
    ensures Unparse(p) == "v" + p.major + AfterMajor(p)
  {
    if p.parts == 3 {
      assert Unparse(p) == "v" + p.major + ("." + (p.minor + ("." + (p.patch + (p.pre + p.build)))));
    }
  }

  lemma ParseUnparse(p: Version)
    requires Grammatical(p)
    ensures Parse(Unparse(p)) == Some(p)
  {
    UnparseShape(p);
    if p.parts == 1 {
      ParseShort("v" + p.major, p);
    } else {
      ParseLong("v" + p.major + AfterMajor(p), p);
    }
  }

  lemma ParseShort(v: string, p: Version)
    requires Grammatical(p) && p.parts == 1 && v == "v" + p.major
    ensures Parse(v) == Some(p)
  {
    assert v[1..] == p.major + "";
    ParseNumberOf(p.major, "");
  }

  lemma ParseLong(v: string, p: Version)
    requires Grammatical(p) && p.parts >= 2 && v == "v" + p.major + AfterMajor(p)
    ensures Parse(v) == Some(p)
  {
    assert v[1..] == p.major + AfterMajor(p);
    ParseNumberOf(p.major, AfterMajor(p));
    assert ParseNumber(v[1..]) == Some((p.major, AfterMajor(p)));
    ParseMinorOf(v, p);
  }

  // ---------------------------------------------------------------- precedence

  function CompareNumbers(x: string, y: string): int {
    if x == y then 0
    else if |x| < |y| then -1
    else if |x| > |y| then 1
    else if EnvVars.LessEq(x, y) then -1 else 1
  }

  /** Precedence of two versions without pre-release parts. */
  function Compare(v: Version, w: Version): int {
    var major := CompareNumbers(v.major, w.major);
    if major != 0 then major else
      var minor := CompareNumbers(v.minor, w.minor);
      if minor != 0 then minor else CompareNumbers(v.patch, w.patch)
  }

  ghost function Pow10(n: nat): (p: nat)
    ensures p > 0
  {
    if n == 0 then 1 else 10 * Pow10(n - 1)
  }

  ghost predicate AllDigits(s: string) { forall i | 0 <= i < |s| :: Digit(s[i]) }

  ghost function Value(s: string): nat
    requires AllDigits(s)
  {
    if s == "" then 0 else Scaled((s[0] - '0') as nat, Pow10(|s| - 1)) + Value(s[1..])
  }

  ghost function Scaled(d: nat, p: nat): nat { d * p }

  lemma ScaledGrows(a: nat, b: nat, p: nat)
    ensures a < b ==> Scaled(a, p) + p <= Scaled(b, p)
    ensures Scaled(10, p) == 10 * p && Scaled(0, p) == 0
  {
    if a < b { assert (a + 1) * p <= b * p; }
  }

  lemma {:induction false} ValueIsBounded(s: string)
    requires AllDigits(s)
    ensures Value(s) < Pow10(|s|)
    ensures s != "" && s[0] != '0' ==> Value(s) >= Pow10(|s| - 1)
  {
    if s != "" {
      ValueIsBounded(s[1..]);
      var d, p := (s[0] - '0') as nat, Pow10(|s| - 1);
      ScaledGrows(d, 10, p);
      ScaledGrows(0, d, p);
    }
  }

  /** Strings of the same length compare like their values. */
  lemma {:induction false} SameLengthOrder(x: string, y: string)
    requires AllDigits(x) && AllDigits(y) && |x| == |y|
    ensures x != y && EnvVars.LessEq(x, y) ==> Value(x) < Value(y)
    ensures !EnvVars.LessEq(x, y) ==> Value(x) > Value(y)
  {
    if x != "" {
      SameLengthOrder(x[1..], y[1..]);
      ValueIsBounded(x[1..]);
      ValueIsBounded(y[1..]);
      var a, b, p := (x[0] - '0') as nat, (y[0] - '0') as nat, Pow10(|x| - 1);
      assert x == [x[0]] + x[1..] && y == [y[0]] + y[1..];
      ScaledGrows(a, b, p);
      ScaledGrows(b, a, p);
    }
  }

  lemma {:induction false} Pow10Grows(m: nat, n: nat)
    requires m <= n
    ensures Pow10(m) <= Pow10(n)
  {
    if m < n { Pow10Grows(m, n - 1); }
  }

  lemma ShorterIsSmaller(x: string, y: string)
    requires Number(x) && Number(y) && |x| < |y|
    ensures AllDigits(x) && AllDigits(y) && Value(x) < Value(y)
  {
    assert forall i | 0 <= i < |x| :: x[i] in x;
    assert forall i | 0 <= i < |y| :: y[i] in y;
    ValueIsBounded(x);
    ValueIsBounded(y);
    Pow10Grows(|x|, |y| - 1);
  }

  /** Comparing numerals by length and then by characters is comparing numbers. */
  lemma CompareNumbersIsNumeric(x: string, y: string)
    requires Number(x) && Number(y)
    ensures AllDigits(x) && AllDigits(y)
    ensures CompareNumbers(x, y) < 0 <==> Value(x) < Value(y)
    ensures CompareNumbers(x, y) == 0 <==> Value(x) == Value(y)
    ensures CompareNumbers(x, y) > 0 <==> Value(x) > Value(y)
    ensures CompareNumbers(x, y) == 0 <==> x == y
  {
    assert forall i | 0 <= i < |x| :: x[i] in x;
    assert forall i | 0 <= i < |y| :: y[i] in y;
    if |x| < |y| { ShorterIsSmaller(x, y); }
    else if |y| < |x| { ShorterIsSmaller(y, x); }
    else { SameLengthOrder(x, y); }
  }

  ghost function NumberOf(s: string): nat
    requires Number(s)
  {
    assert forall i | 0 <= i < |s| :: s[i] in s;
    Value(s)
  }

  /** Precedence is the lexicographic order of the three numbers. */
  ghost predicate Precedes(v: Version, w: Version)
    requires Proper(v) && Proper(w)
  {
    var a, b := NumberOf(v.major), NumberOf(w.major);
    var c, d := NumberOf(v.minor), NumberOf(w.minor);
    a < b || (a == b && (c < d || (c == d && NumberOf(v.patch) < NumberOf(w.patch))))
  }

  lemma CompareIsPrecedence(v: Version, w: Version)
    requires Proper(v) && Proper(w)
    ensures Compare(v, w) < 0 <==> Precedes(v, w)
    ensures Compare(v, w) > 0 <==> Precedes(w, v)
    ensures Compare(v, w) == 0 <==> v.major == w.major && v.minor == w.minor && v.patch == w.patch
  {
    CompareNumbersIsNumeric(v.major, w.major);
    CompareNumbersIsNumeric(v.minor, w.minor);
    CompareNumbersIsNumeric(v.patch, w.patch);
  }

  // ---------------------------------------------------------------- unique readability

  lemma NumberThenRest(a: string, b: string, x: string, y: string)
    requires Number(a) && Number(b) && NotMoreDigits(x) && NotMoreDigits(y)
    ensures a + x == b + y <==> a == b && x == y
  {
    if a + x == b + y {
      if |a| < |b| { ShorterNumber(a, b, x, y); }
      if |b| < |a| { ShorterNumber(b, a, y, x); }
      assert (a + x)[..|a|] == a && (b + y)[..|b|] == b;
      assert (a + x)[|a|..] == x && (b + y)[|b|..] == y;
    }
  }

  lemma ShorterNumber(a: string, b: string, x: string, y: string)
    requires Number(b) && NotMoreDigits(x) && |a| < |b|
    ensures a + x != b + y
  {
    assert b[|a|] in b && (b + y)[|a|] == b[|a|];
    assert x != "" ==> (a + x)[|a|] == x[0];
  }

  /** A number, a dot and the rest. */
  function Join(number: string, rest: string): string { number + ("." + rest) }

  lemma JoinDetermines(a: string, b: string, x: string, y: string)
    requires Number(a) && Number(b)
    ensures Join(a, x) == Join(b, y) <==> a == b && x == y
  {
    NumberThenRest(a, b, "." + x, "." + y);
    assert ("." + x)[1..] == x && ("." + y)[1..] == y;
  }

  lemma AfterV(x: string, y: string)
    ensures "v" + x == "v" + y <==> x == y
  {
    assert ("v" + x)[1..] == x && ("v" + y)[1..] == y;
  }

  lemma MinorShape(p: Version)
    ensures MinorPart(p) == "v" + Join(p.major, p.minor)
  {
  }

  lemma CoreShape(p: Version, rest: string)
    ensures CorePart(p) + rest == "v" + Join(p.major, Join(p.minor, p.patch + rest))
  {
  }

  lemma MajorPartDetermines(v: Version, w: Version)
    requires Proper(v) && Proper(w)
    ensures MajorPart(v) == MajorPart(w) <==> v.major == w.major
  {
    assert MajorPart(v)[1..] == v.major && MajorPart(w)[1..] == w.major;
  }

  lemma MinorPartDetermines(v: Version, w: Version)
    requires Proper(v) && Proper(w)
    ensures MinorPart(v) == MinorPart(w) <==> v.major == w.major && v.minor == w.minor
  {
    MinorShape(v);
    MinorShape(w);
    AfterV(Join(v.major, v.minor), Join(w.major, w.minor));
    JoinDetermines(v.major, w.major, v.minor, w.minor);
  }

  lemma CanonicalDetermines(v: Version, w: Version)
    requires Proper(v) && Proper(w)
    ensures CorePart(v) + v.pre == CorePart(w) + w.pre
      <==> v.major == w.major && v.minor == w.minor && v.patch == w.patch && v.pre == w.pre
  {
    var x, y := v.patch + v.pre, w.patch + w.pre;
    CoreShape(v, v.pre);
    CoreShape(w, w.pre);
    AfterV(Join(v.major, Join(v.minor, x)), Join(w.major, Join(w.minor, y)));
    JoinDetermines(v.major, w.major, Join(v.minor, x), Join(w.minor, y));
    JoinDetermines(v.minor, w.minor, x, y);
    NumberThenRest(v.patch, w.patch, v.pre, w.pre);
  }

  // ---------------------------------------------------------------- depth

  function CountDots(s: string): nat {
    if s == "" then 0 else (if s[0] == '.' then 1 else 0) + CountDots(s[1..])
  }

  lemma {:induction false} CountDotsConcat(a: string, b: string)
    ensures CountDots(a + b) == CountDots(a) + CountDots(b)
  {
    if a == "" {
      assert a + b == b;
    } else {
      assert (a + b)[1..] == a[1..] + b;
      CountDotsConcat(a[1..], b);
    }
  }

  lemma {:induction false} NoDots(s: string)
    requires '.' !in s
    ensures CountDots(s) == 0
  {
    if s != "" { NoDots(s[1..]); }
  }

  /** Counting dots after the `v` tells the short forms apart. */
  lemma DotsCountParts(p: Version)
    requires Proper(p)
    ensures p.parts == 1 <==> CountDots(Unparse(p)[1..]) == 0
    ensures p.parts == 2 <==> CountDots(Unparse(p)[1..]) == 1
  {
    var v := Unparse(p);
    if p.parts == 1 {
      NoDots(p.major);
      assert v[1..] == p.major;
    } else if p.parts == 2 {
      MinorShape(p);
      JoinAddsDot(p.major, p.minor);
      NoDots(p.minor);
      assert v[1..] == Join(p.major, p.minor);
    } else {
      var tail := p.patch + (p.pre + p.build);
      CoreShape(p, p.pre + p.build);
      assert v == CorePart(p) + (p.pre + p.build);
      assert v[1..] == Join(p.major, Join(p.minor, tail));
      JoinAddsDot(p.major, Join(p.minor, tail));
      JoinAddsDot(p.minor, tail);
    }
  }

  lemma JoinAddsDot(a: string, s: string)
    requires Number(a)
    ensures CountDots(Join(a, s)) == 1 + CountDots(s)
  {
    NoDots(a);
    CountDotsConcat(a, "." + s);
    CountDotsConcat(".", s);
    OneDot();
  }

  lemma OneDot()
    ensures CountDots(".") == 1
  {
    assert "."[1..] == "";
  }
}
