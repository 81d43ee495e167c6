/**
 * src/rsa.cpp, text part: keys as padded decimals in Base64, cipher texts as
 * comma lists of decimals in Base64.
 */
module RsaText {
  import opened Machine
  import opened Options
  import opened NumberTheory
  import opened Rsa
  import opened StringUtil
  import Base64

  // ----- bytes and characters of a std::string -----

  predicate IsByteText(s: string) {
    forall i :: 0 <= i < |s| ==> s[i] as int < 256
  }

  function BytesOf(s: string): (b: seq<byte>)
    ensures |b| == |s|
  {
    seq(|s|, i requires 0 <= i < |s| => s[i] as int % 256)
  }

  function TextOf(b: seq<byte>): (s: string)
    ensures |s| == |b| && IsByteText(s)
  {
    seq(|b|, i requires 0 <= i < |b| => b[i] as char)
  }

  lemma TextOfBytesOf(s: string)
    requires IsByteText(s)
    ensures TextOf(BytesOf(s)) == s
  {}

  // ----- zero padding -----

  function Zeros(n: nat): (z: string)
    ensures |z| == n && forall i :: 0 <= i < n ==> z[i] == '0'
  {
    seq(n, _ => '0')
  }

  function AddZeroToFront(src: string, fixedLen: nat): string {
    if |src| > fixedLen then "" else Zeros(fixedLen - |src|) + src
  }

  function StripZeros(s: string): string {
    if s == "" then "" else if s[0] == '0' then StripZeros(s[1..]) else s
  }

  method RemoveFrontZero(src: string) returns (ret: string)
    ensures ret == if |src| == 1 then src else StripZeros(src)
  {
    if |src| == 1 {
      return src;
    }
    var findNoZero := false;
    ret := "";
    assert src[0..] == src;
    for i := 0 to |src|
      invariant if findNoZero then ret + src[i..] == StripZeros(src)
                else ret == "" && StripZeros(src[i..]) == StripZeros(src)
    {
      if findNoZero {
        ret := ret + [src[i]];
      } else if src[i] != '0' {
        ret := ret + [src[i]];
        findNoZero := true;
      }
    }
  }

  lemma {:induction false} StripZerosOfPadded(n: nat, s: string)
    requires s != "" && s[0] != '0'
    ensures StripZeros(Zeros(n) + s) == s
  {
    if n == 0 {
      assert Zeros(0) + s == s;
    } else {
      StripZerosOfPadded(n - 1, s);
      assert (Zeros(n) + s)[1..] == Zeros(n - 1) + s;
    }
  }

  // ----- key text -----

  lemma {:induction false} DecimalLength(n: nat, k: nat)
    requires k > 0 && n < Pow(10, k)
    ensures |Decimal(n)| <= k
  {
    if n >= 10 {
      assert Pow(10, 1) == 10 * Pow(10, 0);
      DecimalLength(n / 10, k - 1);
    }
  }

  /** A positive long long prints as at most 19 digits. */
  lemma Int64Length(n: int)
    requires 0 < n <= INT64_MAX
    ensures |ToString(n)| <= 19
  {
    PowAdd(10, 9, 10);
    assert Pow(10, 9) == 1000000000 && Pow(10, 10) == 10000000000;
    DecimalLength(n, 19);
  }

  /** Any long long prints as at most 20 characters. */
  lemma PrintedLength(n: int)
    requires IsInt64(n)
    ensures |ToString(n)| <= 20
  {
    PowAdd(10, 9, 10);
    assert Pow(10, 9) == 1000000000 && Pow(10, 10) == 10000000000;
    DecimalLength(if n < 0 then -n else n, 19);
  }

  function KeyDigits(key: Key): string {
    AddZeroToFront(ToString(key.modulus), 20) + AddZeroToFront(ToString(key.exponent), 20)
  }

  predicate StorableKey(key: Key) {
    0 < key.modulus <= INT64_MAX && 0 < key.exponent <= INT64_MAX
  }

  lemma PaddedNumber(n: int)
    requires 0 < n <= INT64_MAX
    ensures var t := AddZeroToFront(ToString(n), 20);
            |t| == 20 && IsByteText(t) && Atoll(StripZeros(t)) == n
  {
    Int64Length(n);
    DecimalShape(n);
    StripZerosOfPadded(20 - |ToString(n)|, ToString(n));
    AtollOfToString(n);
  }

  lemma KeyDigitsShape(key: Key)
    requires StorableKey(key)
    ensures |KeyDigits(key)| == 40 && IsByteText(KeyDigits(key))
  {
    PaddedNumber(key.modulus);
    PaddedNumber(key.exponent);
  }

  /** The Base64 text in which a key travels. */
  function KeyText(key: Key): string
  {
    Base64.Encoding(BytesOf(KeyDigits(key)), false)
  }

  function ParseKey(text: string): Option<Key> {
    var digits := TextOf(Base64.DecodedBytes(text));
    if |digits| != 40 then None
    else Some(Key(Atoll(StripZeros(digits[..20])), Atoll(StripZeros(digits[20..]))))
  }

  lemma ParseOfKeyText(key: Key)
    requires StorableKey(key)
    ensures ParseKey(KeyText(key)) == Some(key) && KeyText(key) != ""
  {
    KeyDigitsShape(key);
    PaddedNumber(key.modulus);
    PaddedNumber(key.exponent);
    var digits := KeyDigits(key);
    Base64.DecodingOfEncoding(BytesOf(digits), false);
    Base64.EncodingLength(BytesOf(digits), false);
    TextOfBytesOf(digits);
    assert digits[..20] == AddZeroToFront(ToString(key.modulus), 20);
    assert digits[20..] == AddZeroToFront(ToString(key.exponent), 20);
  }

  // ----- cipher text -----

  function Printed(values: seq<int>): (fields: seq<string>)
    ensures |fields| == |values|
  {
    seq(|values|, i requires 0 <= i < |values| => ToString(values[i]))
  }

  function Parsed(fields: seq<string>): (values: seq<int>)
    ensures |values| == |fields|
  {
    seq(|fields|, i requires 0 <= i < |fields| => Atoll(fields[i]))
  }

  function NumberText(values: seq<int>): string {
    Join(Printed(values), ",")
  }

  lemma ToStringShape(n: int)
    ensures ToString(n) != "" && ',' !in ToString(n) && IsByteText(ToString(n))
  {
    var m := if n < 0 then -n else n;
    DecimalShape(m);
    forall c | c in Decimal(m) ensures IsDigit(c) {
      var i :| 0 <= i < |Decimal(m)| && Decimal(m)[i] == c;
    }
  }

  lemma {:induction false} JoinIsByteText(fields: seq<string>, d: string)
    requires IsByteText(d) && forall i :: 0 <= i < |fields| ==> IsByteText(fields[i])
    ensures IsByteText(Join(fields, d))
  {
    if |fields| > 1 { JoinIsByteText(fields[1..], d); }
  }

  lemma NumberTextShape(values: seq<int>)
    requires values != []
    ensures IsByteText(NumberText(values)) && NumberText(values) != ""
    ensures Split(NumberText(values), ",") == Printed(values)
    ensures "" !in Printed(values)
  {
    forall i | 0 <= i < |values|
      ensures Printed(values)[i] != "" && ',' !in Printed(values)[i] && IsByteText(Printed(values)[i])
    {
      ToStringShape(values[i]);
    }
    JoinIsByteText(Printed(values), ",");
    SplitOfJoin(Printed(values), ',');
  }

  lemma ParsedOfPrinted(values: seq<int>)
    requires forall i :: 0 <= i < |values| ==> IsInt64(values[i])
    ensures Parsed(Printed(values)) == values
  {
    forall i | 0 <= i < |values| ensures Parsed(Printed(values))[i] == values[i] {
      AtollOfToString(values[i]);
    }
  }

  function Encrypted(plain: seq<byte>, pub: string): Option<string> {
    if plain == [] || pub == "" then None
    else
      match ParseKey(pub)
      case None => None
      case Some(key) =>
        var values := EncryptedValues(plain, key);
        if -1 in values then None
        else Some(Base64.Encoding(BytesOf(NumberText(values)), false))
  }

  function Decrypted(cipher: string, priv: string): Option<seq<byte>> {
    if cipher == "" || priv == "" then None
    else
      match ParseKey(priv)
      case None => None
      case Some(key) =>
        var bytes := Base64.DecodedBytes(cipher);
        var fields := Split(TextOf(bytes), ",");
        if bytes == [] || "" in fields then None
        else Some(DecryptedBytes(Parsed(fields), key))
  }

  /** Decrypting the cipher text of any non-empty message with the matching key gives the message back. */
  lemma TextRoundTrip(p: int, q: int, pub: Key, priv: Key, plain: seq<byte>)
    requires KeyPair(p, q, pub, priv) && plain != []
    ensures Encrypted(plain, KeyText(pub)).Some?
    ensures Decrypted(Encrypted(plain, KeyText(pub)).value, KeyText(priv)) == Some(plain)
  {
    ParseOfKeyText(pub);
    ParseOfKeyText(priv);
    var values := EncryptedValues(plain, pub);
    ValuesAreResidues(plain, pub);
    NumberTextShape(values);
    var bytes := BytesOf(NumberText(values));
    Base64.DecodingOfEncoding(bytes, false);
    Base64.EncodingLength(bytes, false);
    TextOfBytesOf(NumberText(values));
    ParsedOfPrinted(values);
    RoundTripBytes(p, q, pub, priv, plain);
  }

  lemma ValuesAreResidues(plain: seq<byte>, key: Key)
    requires StorableKey(key) && 1 < key.modulus <= TWO_TO_62
    ensures forall i :: 0 <= i < |plain| ==> 0 <= EncryptedValues(plain, key)[i] < key.modulus
    ensures -1 !in EncryptedValues(plain, key)
  {
    hide ModExpValue, Pow;
    forall i | 0 <= i < |plain| ensures 0 <= EncryptedValues(plain, key)[i] < key.modulus {
      ModExpCorrect(plain[i], key.exponent, key.modulus);
    }
  }

  lemma {:induction false} AtollIsInt64(s: string)
    ensures IsInt64(Atoll(s))
  {
    if s != "" && IsSpace(s[0]) { AtollIsInt64(s[1..]); }
  }

  lemma ParsedKeyIsInt64(text: string)
    ensures ParseKey(text).Some? ==> IsInt64(ParseKey(text).value.modulus) && IsInt64(ParseKey(text).value.exponent)
  {
    hide Atoll, StripZeros;
    var digits := TextOf(Base64.DecodedBytes(text));
    if |digits| == 40 {
      AtollIsInt64(StripZeros(digits[..20]));
      AtollIsInt64(StripZeros(digits[20..]));
    }
  }

  // ----- the string interface -----

  method GenKeysText(p: int, q: int) returns (pub: string, priv: string)
    requires IsPrime(p) && IsPrime(q) && p != q && 255 < p * q <= TWO_TO_62
    requires (p - 1) * (q - 1) > 2 && Gcd((p - 1) * (q - 1), PUBLIC_EXPONENT) == 1
    ensures exists a, b :: KeyPair(p, q, a, b) && pub == KeyText(a) && priv == KeyText(b)
  {
    var a, b := GenKeys(p, q);
    KeyDigitsShape(a);
    KeyDigitsShape(b);
    var pub1 := AddZeroToFront(ToString(a.modulus), 20);
    var pub2 := AddZeroToFront(ToString(a.exponent), 20);
    var priv1 := AddZeroToFront(ToString(b.modulus), 20);
    var priv2 := AddZeroToFront(ToString(b.exponent), 20);
    pub := Base64.Encode(BytesOf(pub1 + pub2), false);
    priv := Base64.Encode(BytesOf(priv1 + priv2), false);
  }

  method ReadKey(text: string) returns (r: Option<Key>)
    ensures r == ParseKey(text)
  {
    var un64 := Base64.Decode(text, false);
    if |un64| != 40 {
      return None;
    }
    var digits := TextOf(un64);
    var modulus := RemoveFrontZero(digits[..20]);
    var exponent := RemoveFrontZero(digits[20..]);
    return Some(Key(Atoll(modulus), Atoll(exponent)));
  }

  /** The joined fields, with a comma after them when more are to come. */
  ghost function CommaEnded(fields: seq<string>, more: bool): string {
    if fields != [] && more then Join(fields, ",") + "," else Join(fields, ",")
  }

  lemma CommaEndedStart(fields: seq<string>)
    ensures CommaEnded(fields[..0], true) == "" == CommaEnded(fields[..0], false)
  {}

  lemma CommaEndedGrows(done: seq<string>, f: string)
    ensures CommaEnded(done + [f], false) == CommaEnded(done, true) + f
    ensures CommaEnded(done + [f], true) == CommaEnded(done, true) + f + ","
  {
    JoinGrows(done, f, ",");
  }

  lemma CommaEndedDone(fields: seq<string>)
    ensures CommaEnded(fields, false) == Join(fields, ",")
  {}

  /** The loop that prints the encrypted numbers, commas between them. */
  method PrintNumbers(numbers: array<int>) returns (s: string)
    ensures s == NumberText(numbers[..])
  {
    s := "";
    ghost var fields := Printed(numbers[..]);
    CommaEndedStart(fields);
    hide Join, ToString, CommaEnded;
    for i := 0 to numbers.Length
      invariant s == CommaEnded(fields[..i], i < numbers.Length)
    {
      CommaEndedGrows(fields[..i], fields[i]);
      assert fields[..i + 1] == fields[..i] + [fields[i]];
      s := s + ToString(numbers[i]);
      if i != numbers.Length - 1 {
        s := s + ",";
      }
    }
    assert fields[..numbers.Length] == fields;
    CommaEndedDone(fields);
  }

  /** The loop that reads the fields of a cipher text; an empty field is an error. */
  method ReadNumbers(fields: seq<string>) returns (numbers: Option<seq<int>>)
    ensures numbers == if "" in fields then None else Some(Parsed(fields))
  {
    var list: seq<int> := [];
    for i := 0 to |fields|
      invariant list == Parsed(fields)[..i] && "" !in fields[..i]
    {
      if fields[i] == "" {
        return None;
      }
      assert fields[..i + 1] == fields[..i] + [fields[i]];
      list := list + [Atoll(fields[i])];
    }
    assert fields[..|fields|] == fields && Parsed(fields)[..|fields|] == Parsed(fields);
    return Some(list);
  }

  lemma {:induction false} JoinLength(fields: seq<string>)
    requires forall f :: f in fields ==> |f| <= 20
    ensures |Join(fields, ",")| <= 21 * |fields|
  {
    if |fields| > 1 { JoinLength(fields[1..]); }
  }

  /** Up to 204522252 bytes the printed numbers are short enough for Base64, whatever the key. */
  lemma NumberTextFits(plain: seq<byte>, key: Key)
    requires IsInt64(key.modulus) && 21 * |plain| < TWO_TO_32
    ensures |NumberText(EncryptedValues(plain, key))| < TWO_TO_32
  {
    hide ModExpValue, ToString, Join;
    var fields := Printed(EncryptedValues(plain, key));
    forall f | f in fields ensures |f| <= 20 {
      var i :| 0 <= i < |fields| && fields[i] == f;
      PrintedLength(EncryptedValues(plain, key)[i]);
    }
    JoinLength(fields);
  }

  method EncryptText(plain: seq<byte>, pub: string) returns (cipher: Option<string>)
    requires ParseKey(pub).Some? ==> |NumberText(EncryptedValues(plain, ParseKey(pub).value))| < TWO_TO_32
    ensures cipher == Encrypted(plain, pub)
  {
    if plain == [] || pub == "" {
      return None;
    }
    var key := ReadKey(pub);
    if key == None {
      return None;
    }
    ParsedKeyIsInt64(pub);
    hide ParseKey, EncryptedValues, NumberText;
    var message := new byte[|plain|](i requires 0 <= i < |plain| => plain[i]);
    assert message[..] == plain;
    var numbers := Rsa.Encrypt(message, key.value);
    if numbers == null {
      return None;
    }
    var s := PrintNumbers(numbers);
    var text := Base64.Encode(BytesOf(s), false);
    cipher := Some(text);
  }

  method CopyOut(buffer: array<byte>) returns (plain: seq<byte>)
    ensures plain == buffer[..]
  {
    plain := [];
    for i := 0 to buffer.Length
      invariant plain == buffer[..i]
    {
      plain := plain + [buffer[i]];
    }
    assert buffer[..buffer.Length] == buffer[..];
  }

  /** The array of parsed numbers, eight bytes each, handed to the numeric decryption. */
  method DecryptNumbers(numbers: seq<int>, priv: Key) returns (plain: seq<byte>)
    requires forall i :: 0 <= i < |numbers| ==> IsInt64(numbers[i])
    requires IsInt64(priv.exponent) && IsInt64(priv.modulus)
    ensures plain == DecryptedBytes(numbers, priv)
  {
    hide DecryptedBytes;
    var message := new int[|numbers|](i requires 0 <= i < |numbers| => numbers[i]);
    assert message[..|numbers|] == numbers;
    var buffer := Rsa.Decrypt(message, |numbers| * 8, priv);
    plain := CopyOut(buffer);
  }

  method DecryptText(cipher: string, priv: string) returns (plain: Option<seq<byte>>)
    ensures plain == Decrypted(cipher, priv)
  {
    if cipher == "" || priv == "" {
      return None;
    }
    var key := ReadKey(priv);
    if key == None {
      return None;
    }
    ParsedKeyIsInt64(priv);
    hide ParseKey, DecryptedBytes, Split, Atoll, Base64.DecodedBytes;
    var un64 := Base64.Decode(cipher, false);
    if un64 == [] {
      return None;
    }
    var fields := StrSplit(TextOf(un64), ",", true);
    var list := ReadNumbers(fields);
    if list == None {
      return None;
    }
    forall i | 0 <= i < |fields| ensures IsInt64(list.value[i]) {
      AtollIsInt64(fields[i]);
    }
    var result := DecryptNumbers(list.value, key.value);
    plain := Some(result);
  }

  /** The use the string interface is made for: new keys, encryption, decryption. */
  method EncryptAndDecrypt(p: int, q: int, plain: seq<byte>) returns (again: Option<seq<byte>>)
    requires IsPrime(p) && IsPrime(q) && p != q && 255 < p * q <= TWO_TO_62
    requires (p - 1) * (q - 1) > 2 && Gcd((p - 1) * (q - 1), PUBLIC_EXPONENT) == 1
    requires plain != [] && 21 * |plain| < TWO_TO_32
    ensures again == Some(plain)
  {
    hide ParseKey, KeyText, NumberText, EncryptedValues, Encrypted, Decrypted, IsPrime, Gcd;
    var pub, priv := GenKeysText(p, q);
    ghost var a, b :| KeyPair(p, q, a, b) && pub == KeyText(a) && priv == KeyText(b);
    ParseOfKeyText(a);
    NumberTextFits(plain, a);
    TextRoundTrip(p, q, a, b, plain);
    var cipher := EncryptText(plain, pub);
    again := DecryptText(cipher.value, priv);
  }
}
