/**
 * src/string_util.cpp: splitting and joining, with the search they rest on.
 * Also the decimal conversions std::to_string and atoll.
 */
module StringUtil {
  import opened Sequences

  // ----- std::string::find -----

  /** The first index from i on at which p occurs in s, or -1 for npos. */
  function Find(s: string, p: string, i: nat): (r: int)
    ensures r == -1 || i <= r <= |s| - |p|
    decreases |s| - i
  {
    if i + |p| > |s| then -1
    else if s[i..i + |p|] == p then i
    else Find(s, p, i + 1)
  }

  predicate OccursAt(s: string, p: string, i: int) {
    0 <= i <= i + |p| <= |s| && s[i..i + |p|] == p
  }

  lemma {:induction false} FindIsFirst(s: string, p: string, i: nat)
    ensures var r := Find(s, p, i);
            && -1 <= r
            && (r >= 0 ==> r >= i && OccursAt(s, p, r))
            && forall k :: i <= k && (r < 0 || k < r) ==> !OccursAt(s, p, k)
    decreases |s| - i
  {
    if i + |p| <= |s| && s[i..i + |p|] != p {
      FindIsFirst(s, p, i + 1);
    }
  }

  lemma {:induction false} FindInSuffix(s: string, p: string, off: nat, i: nat)
    requires off <= |s|
    ensures var r := Find(s[off..], p, i);
            Find(s, p, off + i) == if r < 0 then -1 else off + r
    decreases |s| - i
  {
    if off + i + |p| <= |s| {
      assert s[off..][i..i + |p|] == s[off + i..off + i + |p|];
      FindInSuffix(s, p, off, i + 1);
    }
  }

  // ----- StrSplit and StrJoin -----

  /** The fields between successive occurrences of the delimiter. */
  function Split(s: string, d: string): (fields: seq<string>)
    requires d != ""
    ensures |fields| > 0
    decreases |s|
  {
    var p := Find(s, d, 0);
    if p < 0 then [s] else [s[..p]] + Split(s[p + |d|..], d)
  }

  function Join(fields: seq<string>, d: string): string {
    if fields == [] then ""
    else if |fields| == 1 then fields[0]
    else fields[0] + d + Join(fields[1..], d)
  }

  /** The fields other than x, in order. */
  function Without(fields: seq<string>, x: string): seq<string> {
    if fields == [] then []
    else if fields[0] == x then Without(fields[1..], x)
    else [fields[0]] + Without(fields[1..], x)
  }

  lemma {:induction false} WithoutAppend(a: seq<string>, b: seq<string>, x: string)
    ensures Without(a + b, x) == Without(a, x) + Without(b, x)
  {
    if a == [] {
      assert a + b == b;
    } else {
      WithoutAppend(a[1..], b, x);
      assert (a + b)[0] == a[0] && (a + b)[1..] == a[1..] + b;
      Regroup([a[0]], Without(a[1..], x), Without(b, x));
    }
  }

  /** Splitting loses nothing: joining the fields gives the text back. */
  lemma {:induction false} JoinOfSplit(s: string, d: string)
    requires d != ""
    ensures Join(Split(s, d), d) == s
    decreases |s|
  {
    var p := Find(s, d, 0);
    FindIsFirst(s, d, 0);
    if p >= 0 {
      var rest := Split(s[p + |d|..], d);
      JoinOfSplit(s[p + |d|..], d);
      assert ([s[..p]] + rest)[1..] == rest;
      assert s == s[..p] + s[p..p + |d|] + s[p + |d|..];
    }
  }

  lemma {:induction false} FindChar(s: string, c: char, i: nat)
    requires i <= |s|
    ensures Find(s, [c], i) < 0 <==> c !in s[i..]
    decreases |s| - i
  {
    if i < |s| {
      FindChar(s, c, i + 1);
      assert s[i..] == [s[i]] + s[i + 1..];
    }
  }

  /** No field holds a one-character delimiter. */
  lemma {:induction false} SplitFieldsAreClean(s: string, c: char)
    ensures forall f :: f in Split(s, [c]) ==> c !in f
    decreases |s|
  {
    var p := Find(s, [c], 0);
    FindIsFirst(s, [c], 0);
    if p < 0 {
      FindChar(s, c, 0);
      assert s[0..] == s;
    } else {
      SplitFieldsAreClean(s[p + 1..], c);
      if c in s[..p] {
        var k :| 0 <= k < p && s[k] == c;
        assert OccursAt(s, [c], k);
      }
    }
  }

  /** Cutting after a clean field at the delimiter that ends it. */
  lemma SplitAfterField(f: string, c: char, rest: string)
    requires c !in f
    ensures Split(f + [c] + rest, [c]) == [f] + Split(rest, [c])
  {
    var s := f + [c] + rest;
    FindIsFirst(s, [c], 0);
    assert OccursAt(s, [c], |f|) by { assert s[|f|..|f| + 1] == [c]; }
    var p := Find(s, [c], 0);
    assert s[p..p + 1] == [c] ==> s[p] == c;
    assert p == |f| && s[..p] == f && s[p + 1..] == rest;
  }

  lemma SplitOfCleanField(f: string, c: char)
    requires c !in f
    ensures Split(f, [c]) == [f]
  {
    FindChar(f, c, 0);
  }

  /** Joining clean fields and splitting again gives the fields back. */
  lemma {:induction false} SplitOfJoin(fields: seq<string>, c: char)
    requires fields != [] && forall f :: f in fields ==> c !in f
    ensures Split(Join(fields, [c]), [c]) == fields
  {
    if |fields| == 1 {
      SplitOfCleanField(fields[0], c);
    } else {
      var rest := Join(fields[1..], [c]);
      SplitOfJoin(fields[1..], c);
      assert Split(Join(fields, [c]), [c]) == [fields[0]] + fields[1..] by {
        SplitAfterField(fields[0], c, rest);
        assert Join(fields, [c]) == fields[0] + [c] + rest;
      }
    }
  }

  lemma SplitUnfold(s: string, d: string, p: int, head: string, tail: string)
    requires d != "" && p == Find(s, d, 0) >= 0 && head == s[..p] && tail == s[p + |d|..]
    ensures Split(s, d) == [head] + Split(tail, d)
  {}

  /** One turn of the splitting loop, seen from the rest of the text. */
  lemma SplitStep(src: string, d: string, offset: nat, pos: int)
    requires d != "" && offset <= |src| && pos == Find(src, d, offset)
    ensures pos < 0 ==> Split(src[offset..], d) == [src[offset..]]
    ensures pos >= 0 ==> Split(src[offset..], d) == [src[offset..pos]] + Split(src[pos + |d|..], d)
  {
    FindInSuffix(src, d, offset, 0);
    if pos >= 0 {
      hide Split;
      SplitUnfold(src[offset..], d, pos - offset, src[offset..pos], src[pos + |d|..]);
    }
  }

  /** The fields that StrSplit keeps. */
  function Kept(fields: seq<string>, includeEmptyStr: bool): seq<string> {
    if includeEmptyStr then fields else Without(fields, "")
  }

  lemma KeptSnoc(done: seq<string>, t: string, includeEmptyStr: bool)
    ensures Kept(done + [t], includeEmptyStr) ==
            if |t| > 0 || includeEmptyStr then Kept(done, includeEmptyStr) + [t] else Kept(done, includeEmptyStr)
  {
    WithoutAppend(done, [t], "");
  }

  lemma KeptNone(includeEmptyStr: bool)
    ensures Kept([], includeEmptyStr) == []
  {}

  method StrSplit(src: string, delimiter: string, includeEmptyStr: bool) returns (fields: seq<string>)
    requires delimiter != ""
    ensures fields == Kept(Split(src, delimiter), includeEmptyStr)
  {
    hide Find, Split, Kept;
    fields := [];
    var offset := 0;
    var pos := Find(src, delimiter, 0);
    ghost var done: seq<string> := [];
    KeptNone(includeEmptyStr);
    assert src[0..] == src;
    while pos >= 0
      invariant 0 <= offset <= |src| && pos == Find(src, delimiter, offset)
      invariant done + Split(src[offset..], delimiter) == Split(src, delimiter)
      invariant fields == Kept(done, includeEmptyStr)
      decreases |src| - offset
    {
      SplitStep(src, delimiter, offset, pos);
      var t := src[offset..pos];
      Regroup(done, [t], Split(src[pos + |delimiter|..], delimiter));
      KeptSnoc(done, t, includeEmptyStr);
      done := done + [t];
      if |t| > 0 || includeEmptyStr {
        fields := fields + [t];
      }
      offset := pos + |delimiter|;
      pos := Find(src, delimiter, offset);
    }
    SplitStep(src, delimiter, offset, pos);
    var t := src[offset..];
    KeptSnoc(done, t, includeEmptyStr);
    if |t| > 0 || includeEmptyStr {
      fields := fields + [t];
    }
  }

  /** With an empty delimiter the search finds the place it starts from, and the loop stands there for ever. */
  lemma EmptyDelimiterNeverEnds(src: string, offset: nat)
    requires offset <= |src|
    ensures var pos := Find(src, "", offset); pos == offset && pos + |""| == offset
  {
    assert src[offset..offset] == "";
  }

  lemma {:induction false} JoinGrows(done: seq<string>, f: string, d: string)
    ensures Join(done + [f], d) == if done == [] then f else Join(done, d) + d + f
  {
    if done != [] {
      JoinGrows(done[1..], f, d);
      assert (done + [f])[1..] == done[1..] + [f];
    }
  }

  /** The flag has no effect: leaving an empty field out of the stream writes the same text. */
  method StrJoin(src: seq<string>, delimiter: string, includeEmptyStr: bool) returns (text: string)
    ensures text == Join(src, delimiter)
  {
    text := "";
    for i := 0 to |src|
      invariant text == Join(src[..i], delimiter) + (if 0 < i < |src| then delimiter else "")
    {
      JoinGrows(src[..i], src[i], delimiter);
      assert src[..i + 1] == src[..i] + [src[i]];
      if |src[i]| > 0 {
        text := text + src[i];
      } else if includeEmptyStr {
        text := text + src[i];
      }
      if i + 1 != |src| {
        text := text + delimiter;
      }
    }
    assert src[..|src|] == src;
  }

  // ----- decimal text -----

  function Digit(d: int): char
    requires 0 <= d < 10
  {
    '0' + d as char
  }

  predicate IsDigit(c: char) {
    '0' <= c <= '9'
  }

  function DigitValue(c: char): nat
    requires IsDigit(c)
  {
    c as int - '0' as int
  }

  /** std::to_string of a number that is not negative. */
  function Decimal(n: nat): string {
    if n < 10 then [Digit(n)] else Decimal(n / 10) + [Digit(n % 10)]
  }

  function ToString(n: int): string {
    if n < 0 then "-" + Decimal(-n) else Decimal(n)
  }

  function DigitsValue(s: string, acc: nat): nat {
    if s == "" || !IsDigit(s[0]) then acc
    else DigitsValue(s[1..], 10 * acc + DigitValue(s[0]))
  }

  predicate IsSpace(c: char) {
    c == ' ' || '\t' <= c <= '\r'
  }

  function Saturate(x: int): int {
    if x > 0x7FFF_FFFF_FFFF_FFFF then 0x7FFF_FFFF_FFFF_FFFF
    else if x < -0x8000_0000_0000_0000 then -0x8000_0000_0000_0000
    else x
  }

  /** atoll: leading blanks, a sign, then digits up to the first other character. */
  function Atoll(s: string): int {
    if s == "" then 0
    else if IsSpace(s[0]) then Atoll(s[1..])
    else if s[0] == '-' then (var v: int := DigitsValue(s[1..], 0); Saturate(-v))
    else if s[0] == '+' then Saturate(DigitsValue(s[1..], 0))
    else Saturate(DigitsValue(s, 0))
  }

  predicate AllDigits(s: string) {
    forall i :: 0 <= i < |s| ==> IsDigit(s[i])
  }

  lemma {:induction false} DecimalShape(n: nat)
    ensures |Decimal(n)| > 0 && AllDigits(Decimal(n))
    ensures n > 0 ==> Decimal(n)[0] != '0'
  {
    if n >= 10 { DecimalShape(n / 10); }
  }

  lemma {:induction false} DigitsValueAppend(s: string, d: string, acc: nat)
    requires AllDigits(s)
    ensures DigitsValue(s + d, acc) == DigitsValue(d, DigitsValue(s, acc))
  {
    if s == "" {
      assert s + d == d;
    } else {
      assert IsDigit(s[0]) && (s + d)[1..] == s[1..] + d;
      assert AllDigits(s[1..]);
      DigitsValueAppend(s[1..], d, 10 * acc + DigitValue(s[0]));
    }
  }

  lemma {:induction false} DigitsValueOfDecimal(n: nat)
    ensures DigitsValue(Decimal(n), 0) == n
  {
    if n < 10 {
      assert Decimal(n)[1..] == "";
    } else {
      DigitsValueOfDecimal(n / 10);
      DecimalShape(n / 10);
      DigitsValueAppend(Decimal(n / 10), [Digit(n % 10)], 0);
      assert [Digit(n % 10)][1..] == "";
    }
  }

  /** Reading a printed number back, for every value of the 64-bit type. */
  lemma AtollOfToString(n: int)
    requires -0x8000_0000_0000_0000 <= n <= 0x7FFF_FFFF_FFFF_FFFF
    ensures Atoll(ToString(n)) == n
  {
    var m := if n < 0 then -n else n;
    DecimalShape(m);
    DigitsValueOfDecimal(m);
    assert IsDigit(Decimal(m)[0]);
    if n < 0 {
      assert ToString(n)[1..] == Decimal(m);
    }
  }
}
