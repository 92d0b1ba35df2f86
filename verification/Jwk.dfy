/** RSA public keys as JSON Web Keys: minimal big-endian bytes (section 6.3.1 of RFC 7518) in
    unpadded base64url (section 5 of RFC 4648). */
module Jwk {
  import opened Wrappers

  type byte = x: int | 0 <= x < 256

  // ----- big-endian integers -----

  /** The bytes of a natural number without leading zeros. */
  function ToBytes(n: nat): (bs: seq<byte>)
    ensures bs == [] <==> n == 0
    ensures bs != [] ==> bs[0] != 0
  {
    if n == 0 then [] else ToBytes(n / 256) + [n % 256]
  }

  function FromBytes(bs: seq<byte>): (n: nat)
  {
    if bs == [] then 0 else 256 * FromBytes(bs[..|bs| - 1]) + bs[|bs| - 1]
  }

  lemma {:induction false} BytesRoundTrip(n: nat)
    ensures FromBytes(ToBytes(n)) == n
  {
    if n > 0 {
      BytesRoundTrip(n / 256);
      var bs := ToBytes(n);
      assert bs[..|bs| - 1] == ToBytes(n / 256);
    }
  }

  // ----- base64url -----

  function Digit(v: int): (c: char)
    requires 0 <= v < 64
  {
    if v < 26 then (65 + v) as char
    else if v < 52 then (71 + v) as char
    else if v < 62 then (v - 4) as char
    else if v == 62 then '-' else '_'
  }

  function DigitValue(c: char): (v: Option<int>)
    ensures v.Some? ==> 0 <= v.value < 64
  {
    if 'A' <= c <= 'Z' then Some(c as int - 65)
    else if 'a' <= c <= 'z' then Some(c as int - 71)
    else if '0' <= c <= '9' then Some(c as int + 4)
    else if c == '-' then Some(62)
    else if c == '_' then Some(63)
    else None
  }

  lemma DigitRoundTrip(v: int)
    requires 0 <= v < 64
    ensures DigitValue(Digit(v)) == Some(v)
    ensures Digit(v) != '\n' && Digit(v) != '\r'
  {
  }

  /** Three bytes make four digits; a rest of one or two bytes makes two or three. */
  function Encode(bs: seq<byte>): (s: string)
  {
    if bs == [] then ""
    else if |bs| == 1 then
      [Digit(bs[0] / 4), Digit(bs[0] % 4 * 16)]
    else if |bs| == 2 then
      [Digit(bs[0] / 4), Digit(bs[0] % 4 * 16 + bs[1] / 16), Digit(bs[1] % 16 * 4)]
    else
      [Digit(bs[0] / 4), Digit(bs[0] % 4 * 16 + bs[1] / 16), Digit(bs[1] % 16 * 4 + bs[2] / 64), Digit(bs[2] % 64)]
      + Encode(bs[3..])
  }

  /** Line breaks anywhere in the input are skipped. */
  function StripLineBreaks(s: string): string {
    if s == "" then ""
    else (if s[0] == '\n' || s[0] == '\r' then "" else [s[0]]) + StripLineBreaks(s[1..])
  }

  /** Decoding of a string without line breaks. Left-over low bits are ignored; a foreign
      character or a single left-over digit is an error. */
  function DecodeDigits(s: string): (r: Option<seq<byte>>)
  {
    if s == "" then Some([])
    else if |s| == 1 || DigitValue(s[0]).None? || DigitValue(s[1]).None? then None
    else
      var a, b := DigitValue(s[0]).value, DigitValue(s[1]).value;
      var first := a * 4 + b / 16;
      if |s| == 2 then Some([first])
      else if DigitValue(s[2]).None? then None
      else
        var c := DigitValue(s[2]).value;
        var second := b % 16 * 16 + c / 4;
        if |s| == 3 then Some([first, second])
        else if DigitValue(s[3]).None? then None
        else
          var rest := DecodeDigits(s[4..]);
          if rest.None? then None
          else Some([first, second, c % 4 * 64 + DigitValue(s[3]).value] + rest.value)
  }

  function Decode(s: string): Option<seq<byte>> { DecodeDigits(StripLineBreaks(s)) }

  lemma {:induction false} EncodeHasNoLineBreaks(bs: seq<byte>)
    ensures forall i :: 0 <= i < |Encode(bs)| ==> Encode(bs)[i] != '\n' && Encode(bs)[i] != '\r'
  {
    if |bs| >= 3 {
      EncodeHasNoLineBreaks(bs[3..]);
    }
  }

  lemma {:induction false} StripNothing(s: string)
    requires forall i :: 0 <= i < |s| ==> s[i] != '\n' && s[i] != '\r'
    ensures StripLineBreaks(s) == s
  {
    if s != "" {
      StripNothing(s[1..]);
      assert s == [s[0]] + s[1..];
    }
  }

  /** The bits of a byte are split over two digits and come back together. */
  lemma SplitByte(a: byte, b: byte, c: byte)
    ensures 0 <= a / 4 < 64 && 0 <= a % 4 * 16 + b / 16 < 64 && 0 <= b % 16 * 4 + c / 64 < 64
    ensures a / 4 * 4 + (a % 4 * 16 + b / 16) / 16 == a
    ensures (a % 4 * 16 + b / 16) % 16 * 16 + (b % 16 * 4 + c / 64) / 4 == b
    ensures (b % 16 * 4 + c / 64) % 4 * 64 + c % 64 == c
  {
  }

  lemma DecodeGroup(a: byte, b: byte, c: byte, rest: string)
    ensures var s := [Digit(a / 4), Digit(a % 4 * 16 + b / 16), Digit(b % 16 * 4 + c / 64), Digit(c % 64)] + rest;
            DecodeDigits(s) == (match DecodeDigits(rest) case None => None case Some(bs) => Some([a, b, c] + bs))
  {
    SplitByte(a, b, c);
    DigitRoundTrip(a / 4);
    DigitRoundTrip(a % 4 * 16 + b / 16);
    DigitRoundTrip(b % 16 * 4 + c / 64);
    DigitRoundTrip(c % 64);
    var four := [Digit(a / 4), Digit(a % 4 * 16 + b / 16), Digit(b % 16 * 4 + c / 64), Digit(c % 64)];
    assert (four + rest)[4..] == rest;
  }

  lemma DecodeOne(a: byte)
    ensures DecodeDigits(Encode([a])) == Some([a])
  {
    SplitByte(a, 0, 0);
    DigitRoundTrip(a / 4);
    DigitRoundTrip(a % 4 * 16);
    var s := Encode([a]);
    assert |s| == 2 && s[0] == Digit(a / 4) && s[1] == Digit(a % 4 * 16);
  }

  lemma DecodeTwo(a: byte, b: byte)
    ensures DecodeDigits(Encode([a, b])) == Some([a, b])
  {
    SplitByte(a, b, 0);
    var x, y, z := a / 4, a % 4 * 16 + b / 16, b % 16 * 4;
    DigitRoundTrip(x);
    DigitRoundTrip(y);
    DigitRoundTrip(z);
    var s := Encode([a, b]);
    assert |s| == 3 && s[0] == Digit(x) && s[1] == Digit(y) && s[2] == Digit(z);
    assert x * 4 + y / 16 == a && y % 16 * 16 + z / 4 == b;
  }

  lemma {:induction false} DigitsRoundTrip(bs: seq<byte>)
    ensures DecodeDigits(Encode(bs)) == Some(bs)
  {
    if |bs| >= 3 {
      DigitsRoundTrip(bs[3..]);
      DecodeGroup(bs[0], bs[1], bs[2], Encode(bs[3..]));
      assert bs == [bs[0], bs[1], bs[2]] + bs[3..];
    } else if |bs| == 2 {
      DecodeTwo(bs[0], bs[1]);
      assert bs == [bs[0], bs[1]];
    } else if |bs| == 1 {
      DecodeOne(bs[0]);
      assert bs == [bs[0]];
    }
  }

  /** Decoding undoes encoding for every byte string. */
  lemma Base64RoundTrip(bs: seq<byte>)
    ensures Decode(Encode(bs)) == Some(bs)
  {
    EncodeHasNoLineBreaks(bs);
    StripNothing(Encode(bs));
    DigitsRoundTrip(bs);
  }

  // ----- keys -----

  const TWO_63: int := 0x8000_0000_0000_0000
  const TWO_64: int := 0x1_0000_0000_0000_0000

  /** A 64-bit signed integer, as Go's int is on the platforms served. */
  type int64 = x: int | -TWO_63 <= x < TWO_63

  /** An RSA public key: modulus and exponent. */
  datatype RsaKey = RsaKey(n: nat, e: int64)

  datatype PublicKey = PublicKey(kty: string, use: string, alg: string, kid: string, n: string, e: string)

  function Abs(x: int): nat { if x < 0 then -x else x }

  /** The low 64 bits of a number, read as a signed integer. */
  function LowInt64(x: nat): int64 {
    var u := x % TWO_64;
    if u < TWO_63 then u else u - TWO_64
  }

  function NewPublicKey(key: RsaKey, kid: string): PublicKey {
    PublicKey("RSA", "sig", "RS256", kid, Encode(ToBytes(key.n)), Encode(ToBytes(Abs(key.e))))
  }

  function DecodeKey(n: string, e: string): (r: Option<RsaKey>) {
    var nBytes := Decode(n);
    var eBytes := Decode(e);
    if nBytes.None? || eBytes.None? then None
    else Some(RsaKey(FromBytes(nBytes.value), LowInt64(FromBytes(eBytes.value))))
  }

  lemma BytesOf65537()
    ensures ToBytes(65537) == [1, 0, 1]
  {
    assert ToBytes(1) == ToBytes(0) + [1];
    assert ToBytes(256) == ToBytes(1) + [0];
    assert ToBytes(65537) == ToBytes(256) + [1];
  }

  lemma DigitsOf65537()
    ensures Encode([1, 0, 1]) == "AQAB"
  {
    var bs: seq<byte> := [1, 0, 1];
    assert bs[3..] == [];
    assert Digit(0) == 'A' && Digit(16) == 'Q' && Digit(1) == 'B';
  }

  /** A published key is an RSA signing key under its id; the usual exponent is written AQAB. */
  lemma PublishedForm(key: RsaKey, kid: string)
    ensures var jwk := NewPublicKey(key, kid);
            jwk.kty == "RSA" && jwk.use == "sig" && jwk.alg == "RS256" && jwk.kid == kid && (key.e == 65537 ==> jwk.e == "AQAB")
  {
    BytesOf65537();
    DigitsOf65537();
  }

  lemma ExponentComesBackIff(e: int64)
    ensures LowInt64(Abs(e)) == e <==> e >= 0 || e == -TWO_63
  {
  }

  /** Converting a key to a JWK and back always succeeds and keeps the modulus; it keeps the
      exponent exactly when the exponent is not negative, or is the least 64-bit integer. */
  lemma JwkRoundTrip(key: RsaKey, kid: string)
    ensures var jwk := NewPublicKey(key, kid);
            var back := DecodeKey(jwk.n, jwk.e);
            && back.Some? && back.value.n == key.n
            && (back.value == key <==> key.e >= 0 || key.e == -TWO_63)
  {
    Base64RoundTrip(ToBytes(key.n));
    Base64RoundTrip(ToBytes(Abs(key.e)));
    BytesRoundTrip(key.n);
    BytesRoundTrip(Abs(key.e));
    ExponentComesBackIff(key.e);
  }
}
