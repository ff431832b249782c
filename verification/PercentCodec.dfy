// The percent codec of common/URI.cpp: what `encode` and `decode` compute, and why the second undoes
// the first (section 2.1 of RFC 3986).
module PercentCodec {
  import opened Bytes

  /** The ways URI parsing throws a SyntaxException; Fine is a normal return. */
  datatype Status =
    | Fine
    | NoHexDigit
    | OneHexDigit
    | NotAHexDigit
    | MissingSchemePart
    | UnterminatedAddress
    | BadPort

  /** What a decoding run has appended when it returns or throws. */
  datatype Decoding = Decoding(text: Text, status: Status)

  const ILLEGAL: set<byte> := {0x25, 0x3C, 0x3E, 0x7B, 0x7D, 0x7C, 0x5C, 0x22, 0x5E, 0x60}  // % < > { } | \ " ^ `
  const RESERVED_PATH: set<byte> := {QUESTION, HASH}
  const RESERVED_QUERY: set<byte> := {HASH}
  const RESERVED_FRAGMENT: set<byte> := {}

  predicate IsUnreserved(c: byte) {
    || 0x61 <= c <= 0x7A
    || 0x41 <= c <= 0x5A
    || 0x30 <= c <= 0x39
    || c == 0x2D || c == 0x5F || c == 0x2E || c == 0x7E
  }

  /** A plain `char` is signed on the usual targets: the bytes from 0x80 up then satisfy c <= 0x20,
      elsewhere they satisfy c >= 0x7F, so they are escaped either way. */
  predicate MustEscape(c: byte, reserved: set<byte>) {
    !IsUnreserved(c) && (c <= 0x20 || c >= 0x7F || c in ILLEGAL || c in reserved)
  }

  function HexDigit(n: int): byte
    requires 0 <= n < 16
  {
    if n < 10 then (0x30 + n) as byte else (0x41 + n - 10) as byte
  }

  predicate IsHexDigit(c: byte) {
    0x30 <= c <= 0x39 || 0x41 <= c <= 0x46 || 0x61 <= c <= 0x66
  }

  function HexValue(c: byte): (n: int)
    requires IsHexDigit(c)
    ensures 0 <= n < 16
  {
    if c <= 0x39 then c as int - 0x30
    else if c <= 0x46 then c as int - 0x41 + 10
    else c as int - 0x61 + 10
  }

  /** The digits, in either case, and what they stand for. */
  lemma HexDigitsAre(c: byte)
    ensures IsHexDigit(c) <==>
              || '0' as int <= c as int <= '9' as int
              || 'A' as int <= c as int <= 'F' as int
              || 'a' as int <= c as int <= 'f' as int
    ensures '0' as int <= c as int <= '9' as int ==> HexValue(c) == c as int - '0' as int
    ensures 'A' as int <= c as int <= 'F' as int ==> HexValue(c) == 10 + c as int - 'A' as int
    ensures 'a' as int <= c as int <= 'f' as int ==> HexValue(c) == 10 + c as int - 'a' as int
  {
  }

  function EncodeByte(c: byte, reserved: set<byte>): Text {
    if MustEscape(c, reserved)
    then [PERCENT, HexDigit(c as int / 16), HexDigit(c as int % 16)]
    else [c]
  }

  function Encode(s: Text, reserved: set<byte>): Text {
    if s == [] then [] else EncodeByte(s[0], reserved) + Encode(s[1..], reserved)
  }

  function Decode(s: Text): Decoding {
    if s == [] then Decoding([], Fine)
    else if s[0] != PERCENT then
      var d := Decode(s[1..]);
      Decoding([s[0]] + d.text, d.status)
    else if |s| == 1 then Decoding([], NoHexDigit)
    else if |s| == 2 then Decoding([], OneHexDigit)
    else if !IsHexDigit(s[1]) || !IsHexDigit(s[2]) then Decoding([], NotAHexDigit)
    else
      var d := Decode(s[3..]);
      Decoding([(16 * HexValue(s[1]) + HexValue(s[2])) as byte] + d.text, d.status)
  }

  lemma {:induction false} EncodeConcat(a: Text, b: Text, reserved: set<byte>)
    ensures Encode(a + b, reserved) == Encode(a, reserved) + Encode(b, reserved)
  {
    if a == [] {
      assert a + b == b;
    } else {
      assert (a + b)[1..] == a[1..] + b;
      EncodeConcat(a[1..], b, reserved);
    }
  }

  /** A byte that goes through as it is: a letter, a digit, one of "-_.~", or any other printable character
      that is neither illegal nor reserved. */
  predicate StaysPlain(c: byte, reserved: set<byte>) {
    || 'a' as int <= c as int <= 'z' as int
    || 'A' as int <= c as int <= 'Z' as int
    || '0' as int <= c as int <= '9' as int
    || c in Ascii("-_.~")
    || (0x20 < c < 0x7F && c !in Ascii("%<>{}|\\\"^`") && c !in reserved)
  }

  lemma PlainExactly(c: byte, reserved: set<byte>)
    ensures StaysPlain(c, reserved) <==> !MustEscape(c, reserved)
  {
    assert Ascii("-_.~") == [0x2D, 0x5F, 0x2E, 0x7E];
    assert Ascii("%<>{}|\\\"^`") == [0x25, 0x3C, 0x3E, 0x7B, 0x7D, 0x7C, 0x5C, 0x22, 0x5E, 0x60];
  }

  /** One byte: itself if it stays plain, else '%' and two upper-case digits with its value. */
  lemma EncodedByteIs(c: byte, reserved: set<byte>)
    ensures StaysPlain(c, reserved) ==> EncodeByte(c, reserved) == [c]
    ensures !StaysPlain(c, reserved) ==>
              var e := EncodeByte(c, reserved);
              && |e| == 3 && e[0] as int == '%' as int
              && IsHexDigit(e[1]) && IsHexDigit(e[2]) && 16 * HexValue(e[1]) + HexValue(e[2]) == c as int
              && !('a' as int <= e[1] as int) && !('a' as int <= e[2] as int)
  {
    PlainExactly(c, reserved);
    HexDigitRoundTrip(c as int / 16);
    HexDigitRoundTrip(c as int % 16);
  }

  /** Encoding grows with each byte that does not stay plain, so it changes nothing exactly if all do. */
  lemma {:induction false} EncodeChangesNothingExactly(s: Text, reserved: set<byte>)
    ensures |Encode(s, reserved)| >= |s|
    ensures Encode(s, reserved) == s <==> forall c :: c in s ==> StaysPlain(c, reserved)
  {
    hide StaysPlain, EncodeByte;
    if s != [] {
      var e, t := EncodeByte(s[0], reserved), Encode(s[1..], reserved);
      EncodedByteIs(s[0], reserved);
      EncodeChangesNothingExactly(s[1..], reserved);
      assert s == [s[0]] + s[1..];
      if StaysPlain(s[0], reserved) {
        assert (e + t)[1..] == t;
      }
    }
  }

  /** What that means for the three parts of a URI that are encoded. */
  lemma ReservedAre()
    ensures RESERVED_PATH == (set c | c in Ascii("?#"))
    ensures RESERVED_QUERY == (set c | c in Ascii("#"))
    ensures RESERVED_FRAGMENT == (set c | c in Ascii(""))
  {
    assert Ascii("?#") == [QUESTION, HASH];
    assert Ascii("#") == [HASH];
  }

  lemma DecodeFirst(a: Text, b: Text) returns (c: byte, k: nat)
    requires a != [] && Decode(a).status == Fine
    ensures 0 < k <= |a| && (a + b)[k..] == a[k..] + b
    ensures Decode(a) == Decoding([c] + Decode(a[k..]).text, Decode(a[k..]).status)
    ensures Decode(a + b) == Decoding([c] + Decode(a[k..] + b).text, Decode(a[k..] + b).status)
  {
    hide HexValue;
    if a[0] != PERCENT {
      c, k := a[0], 1;
    } else {
      c, k := (16 * HexValue(a[1]) + HexValue(a[2])) as byte, 3;
      assert (a + b)[1] == a[1] && (a + b)[2] == a[2];
    }
    assert (a + b)[k..] == a[k..] + b;
  }

  /** Decoding reads piece by piece: what follows a text that decodes normally is decoded on its own. */
  lemma {:induction false} DecodeConcat(a: Text, b: Text)
    requires Decode(a).status == Fine
    ensures Decode(a + b) == Decoding(Decode(a).text + Decode(b).text, Decode(b).status)
    decreases |a|
  {
    hide Decode;
    var rest := Decode(b).text;
    if a == [] {
      DecodeNothing();
      assert a + b == b && [] + rest == rest;
    } else {
      var c, k := DecodeFirst(a, b);
      DecodeConcat(a[k..], b);
      var front := Decode(a[k..]).text;
      assert [c] + (front + rest) == ([c] + front) + rest;
    }
  }

  lemma DecodeNothing()
    ensures Decode([]) == Decoding([], Fine)
  {
  }

  /** The pieces are single bytes and escapes, whose digits may be of either case. */
  lemma DecodePieces(c: byte, hi: byte, lo: byte)
    ensures c as int != '%' as int ==> Decode([c]) == Decoding([c], Fine)
    ensures IsHexDigit(hi) && IsHexDigit(lo) ==>
              Decode([PERCENT, hi, lo]) == Decoding([(16 * HexValue(hi) + HexValue(lo)) as byte], Fine)
  {
    hide HexValue;
    assert [c][1..] == [] && [PERCENT, hi, lo][3..] == [];
  }

  lemma EncodeSnoc(s: Text, i: nat, reserved: set<byte>)
    requires i < |s|
    ensures Encode(s[..i + 1], reserved) == Encode(s[..i], reserved) + EncodeByte(s[i], reserved)
  {
    assert s[..i + 1] == s[..i] + [s[i]];
    EncodeConcat(s[..i], [s[i]], reserved);
    assert [s[i]][1..] == [];
  }

  lemma HexDigitRoundTrip(n: int)
    requires 0 <= n < 16
    ensures IsHexDigit(HexDigit(n)) && HexValue(HexDigit(n)) == n
  {
  }

  /** One encoded byte in front of any text decodes to that byte in front of the rest. */
  lemma DecodeEncodedByte(c: byte, rest: Text, reserved: set<byte>)
    ensures Decode(EncodeByte(c, reserved) + rest) == Decoding([c] + Decode(rest).text, Decode(rest).status)
  {
    hide Encode, HexDigit, HexValue;
    var e := EncodeByte(c, reserved);
    if MustEscape(c, reserved) {
      var hi, lo := c as int / 16, c as int % 16;
      HexDigitRoundTrip(hi);
      HexDigitRoundTrip(lo);
      var s := e + rest;
      assert s[0] == PERCENT && s[1] == HexDigit(hi) && s[2] == HexDigit(lo);
      assert s[3..] == rest;
    } else {
      assert PERCENT in ILLEGAL;
      assert (e + rest)[1..] == rest;
    }
  }

  /** Decoding undoes encoding, for every byte string and every reserved set. */
  lemma {:induction false} DecodeEncode(s: Text, reserved: set<byte>)
    ensures Decode(Encode(s, reserved)) == Decoding(s, Fine)
  {
    if s != [] {
      var e, rest := EncodeByte(s[0], reserved), Encode(s[1..], reserved);
      assert Encode(s, reserved) == e + rest;
      DecodeEncodedByte(s[0], rest, reserved);
      DecodeEncode(s[1..], reserved);
      hide Encode, Decode, EncodeByte;
      assert s == [s[0]] + s[1..];
    }
  }

  /** Encoding invents no byte but '%' and upper-case hex digits, and lets no byte through that it
      must escape. */
  ghost predicate EncodedFrom(c: byte, s: Text, reserved: set<byte>) {
    || c == PERCENT
    || 0x30 <= c <= 0x39 || 0x41 <= c <= 0x46
    || (c in s && !MustEscape(c, reserved))
  }

  lemma {:induction false} EncodeAlphabet(s: Text, reserved: set<byte>)
    ensures forall i :: 0 <= i < |Encode(s, reserved)| ==> EncodedFrom(Encode(s, reserved)[i], s, reserved)
  {
    if s != [] {
      var e, t := EncodeByte(s[0], reserved), Encode(s[1..], reserved);
      EncodeAlphabet(s[1..], reserved);
      forall i | 0 <= i < |e + t|
        ensures EncodedFrom((e + t)[i], s, reserved)
      {
        if i < |e| {
          assert s[0] in s;
        } else {
          assert EncodedFrom(t[i - |e|], s[1..], reserved);
        }
      }
    }
  }

  /** Stops that are neither '%' nor hex digits occur in the encoded text only if they occur in s. */
  lemma EncodeAvoids(s: Text, reserved: set<byte>, stops: set<byte>)
    requires forall c :: c in stops ==> c != PERCENT && !IsHexDigit(c)
    requires forall c :: c in stops && c in s ==> MustEscape(c, reserved)
    ensures Avoids(Encode(s, reserved), stops)
  {
    EncodeAlphabet(s, reserved);
  }

  /** Encoded text is printable ASCII without the characters section 2 of RFC 3986 leaves out; a '%' is
      always the start of an escape, and a reserved byte can only be one that never needs escaping. */
  lemma {:induction false} EncodedIsSafe(s: Text, reserved: set<byte>)
    ensures forall i :: 0 <= i < |Encode(s, reserved)| ==>
              var c := Encode(s, reserved)[i];
              && 0x20 < c < 0x7F
              && c !in {0x3C, 0x3E, 0x7B, 0x7D, 0x7C, 0x5C, 0x22, 0x5E, 0x60}
              && (c in reserved ==> c == PERCENT || IsUnreserved(c))
    ensures forall i: nat :: i < |Encode(s, reserved)| && Encode(s, reserved)[i] == PERCENT ==>
              EscapeAt(Encode(s, reserved), i)
  {
    hide Encode, Decode;
    EncodeAlphabet(s, reserved);
    DecodeEncode(s, reserved);
    DecodeSucceedsExactly(Encode(s, reserved));
  }

  /** An encoded path never holds the delimiters of the query and the fragment. */
  lemma {:induction false} EncodedPathAvoidsDelimiters(path: Text)
    ensures Avoids(Encode(path, RESERVED_PATH), {QUESTION, HASH})
  {
    EncodeAvoids(path, RESERVED_PATH, {QUESTION, HASH});
  }

  /** An encoded query never holds the delimiter of the fragment. */
  lemma {:induction false} EncodedQueryAvoidsHash(query: Text)
    ensures HASH !in Encode(query, RESERVED_QUERY)
  {
    EncodeAvoids(query, RESERVED_QUERY, {HASH});
  }

  ghost predicate EscapeAt(s: Text, i: nat) {
    i + 2 < |s| && IsHexDigit(s[i + 1]) && IsHexDigit(s[i + 2])
  }

  /** Decoding returns normally exactly when each '%' is followed by two hex digits. */
  lemma {:induction false} DecodeSucceedsExactly(s: Text)
    ensures Decode(s).status == Fine <==> forall i: nat :: i < |s| && s[i] == PERCENT ==> EscapeAt(s, i)
  {
    if s != [] {
      var k := if s[0] != PERCENT then 1 else 3;
      if s[0] == PERCENT && !EscapeAt(s, 0) {
        assert Decode(s).status != Fine;
      } else {
        var t := s[k..];
        DecodeSucceedsExactly(t);
        assert forall j: nat :: j < |t| ==> t[j] == s[j + k] && (EscapeAt(t, j) <==> EscapeAt(s, j + k));
        if forall i: nat :: i < |s| && s[i] == PERCENT ==> EscapeAt(s, i) {
          forall j: nat | j < |t| && t[j] == PERCENT ensures EscapeAt(t, j) {
            assert EscapeAt(s, j + k);
          }
        }
        if forall j: nat :: j < |t| && t[j] == PERCENT ==> EscapeAt(t, j) {
          forall i: nat | i < |s| && s[i] == PERCENT ensures EscapeAt(s, i) {
            if k <= i {
              assert t[i - k] == PERCENT;
              assert EscapeAt(t, i - k);
            }
          }
        }
      }
    }
  }

  /** When decoding throws, what it has appended is the decoding of everything before the first '%' that
      is not followed by two hex digits, and the error tells how many bytes follow it. */
  lemma {:induction false} DecodeStopsAtFirstBadEscape(s: Text) returns (k: nat)
    requires Decode(s).status != Fine
    ensures k < |s| && s[k] == PERCENT && !EscapeAt(s, k)
    ensures Decode(s[..k]) == Decoding(Decode(s).text, Fine)
    ensures Decode(s).status == if |s| - k == 1 then NoHexDigit else if |s| - k == 2 then OneHexDigit else NotAHexDigit
  {
    if s[0] == PERCENT && !EscapeAt(s, 0) {
      k := 0;
      assert s[..0] == [];
    } else {
      var n := if s[0] != PERCENT then 1 else 3;
      var j := DecodeStopsAtFirstBadEscape(s[n..]);
      k := j + n;
      assert s[..k][n..] == s[n..][..j];
      assert s[..k][0] == s[0];
      assert n == 3 ==> s[..k][1] == s[1] && s[..k][2] == s[2];
    }
  }
}
