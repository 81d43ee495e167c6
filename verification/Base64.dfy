/** src/base64.cpp: encoding, liberal decoding, and line breaking. */
module Base64 {
  import opened Machine
  import opened Options
  import StringUtil

  const UPPER: string := "ABCDEFGHIJKLMNOPQRSTUVWXYZ"
  const LOWER: string := "abcdefghijklmnopqrstuvwxyz"
  const DIGITS: string := "0123456789"

  /** base64Chars: the alphabets differ in their last two characters. */
  function Chars(url: bool): (s: string)
    ensures |s| == 64
  {
    UPPER + LOWER + DIGITS + if url then "-_" else "+/"
  }

  function Trailing(url: bool): char {
    if url then '.' else '='
  }

  predicate IsTrailing(c: char) {
    c == '=' || c == '.'
  }

  /** getPosOfChar: the index of a character of either alphabet, -1 for any other. */
  function PosOfChar(c: char): (p: int)
    ensures -1 <= p < 64
  {
    if 'A' <= c <= 'Z' then c as int - 'A' as int
    else if 'a' <= c <= 'z' then c as int - 'a' as int + 26
    else if '0' <= c <= '9' then c as int - '0' as int + 52
    else if c == '+' || c == '-' then 62
    else if c == '/' || c == '_' then 63
    else -1
  }

  lemma LettersAt(k: int)
    requires 0 <= k < 26
    ensures UPPER[k] as int == 'A' as int + k && LOWER[k] as int == 'a' as int + k
  {}

  lemma DigitsAt(k: int)
    requires 0 <= k < 10
    ensures DIGITS[k] as int == '0' as int + k
  {}

  lemma CharsAt(i: int, url: bool)
    requires 0 <= i < 64
    ensures Chars(url)[i] ==
            if i < 26 then UPPER[i] else if i < 52 then LOWER[i - 26] else if i < 62 then DIGITS[i - 52]
                             else if i == 62 then (if url then '-' else '+') else if url then '_' else '/'
  {}

  /** The code of each alphabet character. */
  function CharCode(i: int, url: bool): int {
    if i < 26 then 'A' as int + i else if i < 52 then 'a' as int + (i - 26) else if i < 62 then '0' as int + (i - 52)
    else if i == 62 then (if url then '-' as int else '+' as int) else if url then '_' as int else '/' as int
  }

  lemma CharsHaveCodes(i: int, url: bool)
    requires 0 <= i < 64
    ensures Chars(url)[i] as int == CharCode(i, url)
  {
    CharsAt(i, url);
    if i < 26 {
      LettersAt(i);
    } else if i < 52 {
      LettersAt(i - 26);
    } else if i < 62 {
      DigitsAt(i - 52);
    }
  }

  lemma PosOfCharInvertsChars(i: int, url: bool)
    requires 0 <= i < 64
    ensures PosOfChar(Chars(url)[i]) == i
    ensures !IsTrailing(Chars(url)[i]) && Chars(url)[i] != '\n'
  {
    hide Chars;
    CharsHaveCodes(i, url);
    PosOfCode(Chars(url)[i], i, url);
  }

  lemma PosOfCode(c: char, i: int, url: bool)
    requires 0 <= i < 64 && c as int == CharCode(i, url)
    ensures PosOfChar(c) == i && !IsTrailing(c) && c != '\n'
  {}

  // ----- encoding -----

  type sextet = x: int | 0 <= x < 64

  // The six-bit and eight-bit regroupings, masks and shifts written as divisions.
  function Sextet0(x: byte): sextet { x / 4 }
  function Sextet1(x: byte, y: byte): sextet { x % 4 * 16 + y / 16 }
  function Sextet2(y: byte, z: byte): sextet { y % 16 * 4 + z / 64 }
  function Sextet3(z: byte): sextet { z % 64 }
  function Octet0(p0: sextet, p1: sextet): byte { (p0 * 4 + p1 / 16) % 256 }
  function Octet1(p1: sextet, p2: sextet): byte { (p1 % 16 * 16 + p2 / 4) % 256 }
  function Octet2(p2: sextet, p3: sextet): byte { (p2 % 4 * 64 + p3) % 256 }

  lemma Octet0Inverts(x: byte, y: byte)
    ensures Octet0(Sextet0(x), Sextet1(x, y)) == x
  {}

  lemma Octet1Inverts(x: byte, y: byte, z: byte)
    ensures Octet1(Sextet1(x, y), Sextet2(y, z)) == y
  {
    assert Sextet1(x, y) % 16 == y / 16 && Sextet2(y, z) / 4 == y % 16;
  }

  lemma Octet2Inverts(y: byte, z: byte)
    ensures Octet2(Sextet2(y, z), Sextet3(z)) == z
  {}

  /** The four characters for the first one to three bytes of b. */
  function Quad(b: seq<byte>, url: bool): (q: string)
    requires b != []
    ensures |q| == 4
  {
    var chars, pad := Chars(url), Trailing(url);
    if |b| == 1 then
      [chars[Sextet0(b[0])], chars[Sextet1(b[0], 0)], pad, pad]
    else if |b| == 2 then
      [chars[Sextet0(b[0])], chars[Sextet1(b[0], b[1])], chars[Sextet2(b[1], 0)], pad]
    else
      [chars[Sextet0(b[0])], chars[Sextet1(b[0], b[1])], chars[Sextet2(b[1], b[2])], chars[Sextet3(b[2])]]
  }

  function AfterQuad(b: seq<byte>): (rest: seq<byte>)
    ensures b != [] ==> |rest| == if |b| <= 3 then 0 else |b| - 3
  {
    if |b| <= 3 then [] else b[3..]
  }

  function Encoding(b: seq<byte>, url: bool): string
    decreases |b|
  {
    if b == [] then "" else Quad(b, url) + Encoding(AfterQuad(b), url)
  }

  /** A full group carries exactly the 24 bits of its three bytes (RFC 4648, section 4). */
  lemma QuadCarries24Bits(b: seq<byte>, url: bool)
    requires |b| >= 3
    ensures var q := Quad(b, url);
            262144 * PosOfChar(q[0]) + 4096 * PosOfChar(q[1]) + 64 * PosOfChar(q[2]) + PosOfChar(q[3])
            == 65536 * (b[0] as int) + 256 * (b[1] as int) + b[2] as int
  {
    hide Chars, PosOfChar;
    PosOfCharInvertsChars(Sextet0(b[0]), url);
    PosOfCharInvertsChars(Sextet1(b[0], b[1]), url);
    PosOfCharInvertsChars(Sextet2(b[1], b[2]), url);
    PosOfCharInvertsChars(Sextet3(b[2]), url);
  }

  lemma {:induction false} EncodingLength(b: seq<byte>, url: bool)
    ensures |Encoding(b, url)| == (|b| + 2) / 3 * 4
    decreases |b|
  {
    hide Quad;
    if b != [] {
      EncodingLength(AfterQuad(b), url);
    }
  }

  /** The loop index is a 32-bit unsigned int: its value after k turns. */
  function LoopIndex(k: nat): uint32 {
    (3 * k) % TWO_TO_32
  }

  /** The encoding loop ends exactly for inputs shorter than 2^32 bytes. */
  lemma EncodeEndsIff(length: nat)
    ensures (exists k: nat :: LoopIndex(k) >= length) <==> length < TWO_TO_32
  {
    if length < TWO_TO_32 {
      var k := (length + 2) / 3;
      assert 3 * k < TWO_TO_32;
      assert LoopIndex(k) >= length;
    }
  }

  lemma NextIndex(pos: int, n: int)
    requires 0 <= pos < n < TWO_TO_32 && pos % 3 == 0
    ensures pos + 3 < TWO_TO_32 && (pos + 3) % 3 == 0 && (pos + 3) % TWO_TO_32 == pos + 3
  {}

  method Encode(bytesToEncode: seq<byte>, url: bool) returns (ret: string)
    requires |bytesToEncode| < TWO_TO_32
    ensures ret == Encoding(bytesToEncode, url)
  {
    var n := |bytesToEncode|;
    var base64Chars, trailing := Chars(url), Trailing(url);
    ret := "";
    var pos: uint32 := 0;
    ghost var rest := bytesToEncode;
    assert pos < n ==> bytesToEncode[0..] == bytesToEncode;
    assert ret + Encoding(rest, url) == Encoding(rest, url) && Encoding([], url) == "";
    hide Chars, Encoding, Sextet0, Sextet1, Sextet2, Sextet3;
    while pos < n
      invariant pos % 3 == 0 && rest == (if pos < n then bytesToEncode[pos..] else [])
      invariant ret + Encoding(rest, url) == Encoding(bytesToEncode, url)
      decreases n - pos
    {
      EncodingUnfold(ret, rest, url);
      NextIndex(pos, n);
      var quad := EncodeGroup(bytesToEncode, pos, base64Chars, trailing, url);
      ret := ret + quad;
      rest := AfterQuad(rest);
      pos := (pos + 3) % TWO_TO_32;
    }
  }

  /** The body of the encoding loop: one group, padded at the end of the input. */
  method EncodeGroup(bytesToEncode: seq<byte>, pos: nat, base64Chars: string, trailing: char, ghost url: bool)
    returns (quad: string)
    requires pos < |bytesToEncode| && base64Chars == Chars(url) && trailing == Trailing(url)
    ensures quad == Quad(bytesToEncode[pos..], url)
  {
    var n := |bytesToEncode|;
    ghost var rest := bytesToEncode[pos..];
    hide Chars, Sextet0, Sextet1, Sextet2, Sextet3;
    quad := [base64Chars[Sextet0(bytesToEncode[pos])]];
    assert rest[0] == bytesToEncode[pos];
    if pos + 1 < n {
      quad := quad + [base64Chars[Sextet1(bytesToEncode[pos], bytesToEncode[pos + 1])]];
      assert rest[1] == bytesToEncode[pos + 1];
      if pos + 2 < n {
        quad := quad + [base64Chars[Sextet2(bytesToEncode[pos + 1], bytesToEncode[pos + 2])]];
        quad := quad + [base64Chars[Sextet3(bytesToEncode[pos + 2])]];
        assert rest[2] == bytesToEncode[pos + 2];
      } else {
        quad := quad + [base64Chars[Sextet2(bytesToEncode[pos + 1], 0)]];
        quad := quad + [trailing];
      }
    } else {
      quad := quad + [base64Chars[Sextet1(bytesToEncode[pos], 0)]];
      quad := quad + [trailing];
      quad := quad + [trailing];
    }
  }

  lemma EncodingUnfold(before: string, b: seq<byte>, url: bool)
    requires b != []
    ensures before + Encoding(b, url) == before + Quad(b, url) + Encoding(AfterQuad(b), url)
  {
    hide Quad;
    assert before + (Quad(b, url) + Encoding(AfterQuad(b), url)) == before + Quad(b, url) + Encoding(AfterQuad(b), url);
  }

  // ----- decoding -----

  /** The bytes of the chunk at the head of s; a missing second character reads as the string's terminator. */
  function Chunk(s: string): Option<seq<byte>>
    requires s != ""
  {
    var p1 := if |s| < 2 then PosOfChar('\0') else PosOfChar(s[1]);
    var p0 := PosOfChar(s[0]);
    if p1 < 0 || p0 < 0 then None
    else
      var b0 := Octet0(p0, p1);
      if |s| <= 2 || IsTrailing(s[2]) then Some([b0])
      else
        var p2 := PosOfChar(s[2]);
        if p2 < 0 then None
        else
          var b1 := Octet1(p1, p2);
          if |s| <= 3 || IsTrailing(s[3]) then Some([b0, b1])
          else
            var p3 := PosOfChar(s[3]);
            if p3 < 0 then None else Some([b0, b1, Octet2(p2, p3)])
  }

  function AfterChunk(s: string): (rest: string)
    ensures s != "" ==> |rest| < |s|
  {
    if |s| <= 4 then "" else s[4..]
  }

  function Decoding(s: string): Option<seq<byte>>
    decreases |s|
  {
    if s == "" then Some([])
    else
      match Chunk(s)
      case None => None
      case Some(b) =>
        match Decoding(AfterChunk(s))
        case None => None
        case Some(r) => Some(b + r)
  }

  /** What Decode returns: a failed decoding is indistinguishable from an empty one. */
  function DecodedBytes(s: string): seq<byte> {
    match Decoding(s)
    case None => []
    case Some(r) => r
  }

  function RemoveNewlines(s: string): string {
    if s == "" then ""
    else if s[0] == '\n' then RemoveNewlines(s[1..])
    else [s[0]] + RemoveNewlines(s[1..])
  }

  lemma ChunkOfQuad(b: seq<byte>, url: bool, rest: string)
    requires b != []
    ensures Chunk(Quad(b, url) + rest) == Some(if |b| <= 3 then b else b[..3])
  {
    hide Chars, PosOfChar, Sextet0, Sextet1, Sextet2, Sextet3, Octet0, Octet1, Octet2;
    var x, y, z := b[0], if |b| > 1 then b[1] else 0, if |b| > 2 then b[2] else 0;
    Octet0Inverts(x, y);
    Octet1Inverts(x, y, z);
    Octet2Inverts(y, z);
    PosOfCharInvertsChars(Sextet0(x), url);
    PosOfCharInvertsChars(Sextet1(x, y), url);
    PosOfCharInvertsChars(Sextet2(y, z), url);
    PosOfCharInvertsChars(Sextet3(z), url);
    assert Trailing(url) == '=' || Trailing(url) == '.';
    if |b| == 1 {
      assert b == [x];
    } else if |b| == 2 {
      assert b == [x, y];
    } else {
      assert b[..3] == [x, y, z] && (|b| == 3 ==> b == b[..3]);
    }
  }

  /** Decoding inverts encoding in both alphabets. */
  lemma {:induction false} DecodingOfEncoding(b: seq<byte>, url: bool)
    ensures Decoding(Encoding(b, url)) == Some(b)
    decreases |b|
  {
    hide Quad, Chunk;
    if b != [] {
      var rest := AfterQuad(b);
      DecodingOfEncoding(rest, url);
      ChunkOfQuad(b, url, Encoding(rest, url));
      assert AfterChunk(Encoding(b, url)) == Encoding(rest, url);
      assert b == (if |b| <= 3 then b else b[..3]) + rest;
    }
  }

  method Decode(s: string, removeLinebreaks: bool) returns (ret: seq<byte>)
    ensures ret == DecodedBytes(if removeLinebreaks then RemoveNewlines(s) else s)
    decreases if removeLinebreaks then 1 else 0
  {
    if s == "" {
      return [];
    }
    if removeLinebreaks {
      ret := Decode(RemoveNewlines(s), false);
      return;
    }
    ret := [];
    var pos := 0;
    ghost var rest := s;
    assert Decoding(s).Some? ==> [] + Decoding(s).value == Decoding(s).value;
    assert Decoding("") == Some([]) && s[0..] == s;
    hide PosOfChar, Decoding, Octet0, Octet1, Octet2;
    while pos < |s|
      invariant rest == if pos < |s| then s[pos..] else ""
      invariant Prefixed(ret, Decoding(rest)) == Decoding(s)
      decreases |s| - pos
    {
      DecodingUnfold(ret, rest);
      assert |rest| == |s| - pos && rest[0] == s[pos] && (|rest| > 1 ==> rest[1] == s[pos + 1]);
      assert (|rest| > 2 ==> rest[2] == s[pos + 2]) && (|rest| > 3 ==> rest[3] == s[pos + 3]);
      var p1 := if pos + 1 < |s| then PosOfChar(s[pos + 1]) else PosOfChar('\0');
      if p1 < 0 {
        return [];
      }
      var p0 := PosOfChar(s[pos]);
      if p0 < 0 {
        return [];
      }
      var chunk := [Octet0(p0, p1)];
      if pos + 2 < |s| && !IsTrailing(s[pos + 2]) {
        var p2 := PosOfChar(s[pos + 2]);
        if p2 < 0 {
          return [];
        }
        chunk := chunk + [Octet1(p1, p2)];
        assert chunk == [Octet0(p0, p1), Octet1(p1, p2)];
        if pos + 3 < |s| && !IsTrailing(s[pos + 3]) {
          var p3 := PosOfChar(s[pos + 3]);
          if p3 < 0 {
            return [];
          }
          chunk := chunk + [Octet2(p2, p3)];
          assert chunk == [Octet0(p0, p1), Octet1(p1, p2), Octet2(p2, p3)];
        }
      }
      assert Chunk(rest) == Some(chunk);
      ret := ret + chunk;
      pos := pos + 4;
      rest := AfterChunk(rest);
    }
  }

  function Prefixed(a: seq<byte>, r: Option<seq<byte>>): Option<seq<byte>> {
    match r
    case None => None
    case Some(b) => Some(a + b)
  }

  lemma DecodingUnfold(before: seq<byte>, s: string)
    requires s != ""
    ensures Chunk(s).None? ==> Prefixed(before, Decoding(s)).None?
    ensures Chunk(s).Some? ==>
              Prefixed(before, Decoding(s)) == Prefixed(before + Chunk(s).value, Decoding(AfterChunk(s)))
  {
    if Chunk(s).Some? && Decoding(AfterChunk(s)).Some? {
      var c, r := Chunk(s).value, Decoding(AfterChunk(s)).value;
      assert before + (c + r) == before + c + r;
    }
  }

  // ----- line breaks -----

  function Wrapped(s: string, distance: nat): string
    requires distance > 0
    decreases |s|
  {
    if |s| <= distance then s else s[..distance] + "\n" + Wrapped(s[distance..], distance)
  }

  method InsertLineBreaks(text: string, distance: nat) returns (str: string)
    requires distance > 0
    ensures str == Wrapped(text, distance)
  {
    if |text| == 0 {
      return "";
    }
    str := text;
    var pos := distance;
    ghost var done, rest := "", text;
    while pos < |str|
      invariant str == done + rest && pos == |done| + distance
      invariant done + Wrapped(rest, distance) == Wrapped(text, distance)
      decreases |rest|
    {
      ghost var line := rest[..distance];
      assert str[..pos] == done + line && str[pos..] == rest[distance..];
      str := str[..pos] + "\n" + str[pos..];
      assert done + (line + "\n" + Wrapped(rest[distance..], distance))
          == (done + line + "\n") + Wrapped(rest[distance..], distance);
      done, rest := done + line + "\n", rest[distance..];
      pos := pos + distance + 1;
    }
  }

  /** Lines of the given length, but for a shorter or equal last one, that make up s. */
  predicate LinesOf(lines: seq<string>, s: string, distance: nat) {
    && |lines| > 0
    && (forall i :: 0 <= i < |lines| - 1 ==> |lines[i]| == distance)
    && 0 < |lines[|lines| - 1]| <= distance
    && StringUtil.Join(lines, "") == s
  }

  lemma LinesOfCons(line: string, lines: seq<string>, rest: string, distance: nat)
    requires LinesOf(lines, rest, distance) && |line| == distance
    ensures LinesOf([line] + lines, line + rest, distance)
  {
    assert ([line] + lines)[1..] == lines;
    assert line + "" + rest == line + rest;
  }

  /** Every line but the last has exactly the given length, and the lines are the text. */
  lemma {:induction false} WrappedLines(s: string, distance: nat)
    requires distance > 0 && s != "" && '\n' !in s
    ensures LinesOf(StringUtil.Split(Wrapped(s, distance), "\n"), s, distance)
    decreases |s|
  {
    hide StringUtil.Split;
    if |s| <= distance {
      StringUtil.SplitOfCleanField(s, '\n');
    } else {
      hide LinesOf;
      var line, rest := s[..distance], s[distance..];
      WrappedLines(rest, distance);
      WrappedLinesStep(line, rest, Wrapped(rest, distance), distance);
      assert line + rest == s;
    }
  }

  lemma WrappedLinesStep(line: string, rest: string, wrapped: string, distance: nat)
    requires |line| == distance && '\n' !in line
    requires LinesOf(StringUtil.Split(wrapped, "\n"), rest, distance)
    ensures LinesOf(StringUtil.Split(line + "\n" + wrapped, "\n"), line + rest, distance)
  {
    hide *;
    StringUtil.SplitAfterField(line, '\n', wrapped);
    LinesOfCons(line, StringUtil.Split(wrapped, "\n"), rest, distance);
  }

  lemma {:induction false} RemoveNewlinesAppend(a: string, b: string)
    ensures RemoveNewlines(a + b) == RemoveNewlines(a) + RemoveNewlines(b)
  {
    if a == "" {
      assert a + b == b;
    } else {
      RemoveNewlinesAppend(a[1..], b);
      assert (a + b)[0] == a[0] && (a + b)[1..] == a[1..] + b;
      var x, y := RemoveNewlines(a[1..]), RemoveNewlines(b);
      assert [a[0]] + (x + y) == [a[0]] + x + y;
    }
  }

  lemma {:induction false} RemoveNewlinesOfClean(s: string)
    requires '\n' !in s
    ensures RemoveNewlines(s) == s
  {
    if s != "" { RemoveNewlinesOfClean(s[1..]); }
  }

  lemma {:induction false} RemoveNewlinesOfWrapped(s: string, distance: nat)
    requires distance > 0 && '\n' !in s
    ensures RemoveNewlines(Wrapped(s, distance)) == s
    decreases |s|
  {
    if |s| <= distance {
      RemoveNewlinesOfClean(s);
    } else {
      var line, rest := s[..distance], s[distance..];
      RemoveNewlinesOfWrapped(rest, distance);
      RemoveNewlinesAppend(line + "\n", Wrapped(rest, distance));
      RemoveNewlinesAppend(line, "\n");
      RemoveNewlinesOfClean(line);
      assert RemoveNewlines("\n") == "";
    }
  }

  lemma {:induction false} EncodingHasNoNewline(b: seq<byte>, url: bool)
    ensures '\n' !in Encoding(b, url)
    decreases |b|
  {
    hide Quad;
    if b != [] {
      EncodingHasNoNewline(AfterQuad(b), url);
      QuadHasNoNewline(b, url);
    }
  }

  lemma QuadHasNoNewline(b: seq<byte>, url: bool)
    requires b != []
    ensures '\n' !in Quad(b, url)
  {
    hide Chars;
    forall i | 0 <= i < 64 ensures Chars(url)[i] != '\n' {
      PosOfCharInvertsChars(i, url);
    }
  }

  /** Text broken into lines still decodes, once newlines are removed (PEM: 64, MIME: 76). */
  lemma WrappedRoundTrip(b: seq<byte>, distance: nat)
    requires distance > 0
    ensures DecodedBytes(RemoveNewlines(Wrapped(Encoding(b, false), distance))) == b
  {
    EncodingHasNoNewline(b, false);
    RemoveNewlinesOfWrapped(Encoding(b, false), distance);
    DecodingOfEncoding(b, false);
  }
}
