// Byte strings, as std::string holds them, and the scanning primitive every hand-written parser
// loop in common/URI.cpp is built from.
module Bytes {
  newtype byte = x: int | 0 <= x < 0x100

  type Text = seq<byte>

  const HASH: byte := 0x23       // #
  const PERCENT: byte := 0x25    // %
  const MINUS: byte := 0x2D      // -
  const DOT: byte := 0x2E        // .
  const SLASH: byte := 0x2F      // /
  const COLON: byte := 0x3A      // :
  const QUESTION: byte := 0x3F   // ?
  const AT: byte := 0x40         // @
  const LBRACKET: byte := 0x5B   // [
  const RBRACKET: byte := 0x5D   // ]

  /** The bytes of a text in ASCII. */
  function Ascii(s: string): Text {
    seq(|s|, i requires 0 <= i < |s| => if s[i] < 128 as char then s[i] as byte else QUESTION)
  }

  lemma DelimitersAre()
    ensures Ascii("#%-./:?@[]") == [HASH, PERCENT, MINUS, DOT, SLASH, COLON, QUESTION, AT, LBRACKET, RBRACKET]
  {
  }

  lemma Associates(a: Text, b: Text, c: Text)
    ensures a + (b + c) == (a + b) + c
  {
  }

  /** The length of the longest prefix of s that avoids every byte of stops. */
  function Span(s: Text, stops: set<byte>): (n: nat)
    ensures n <= |s|
    ensures forall i :: 0 <= i < n ==> s[i] !in stops
    ensures n < |s| ==> s[n] in stops
  {
    if s == [] || s[0] in stops then 0 else 1 + Span(s[1..], stops)
  }

  ghost predicate Avoids(s: Text, stops: set<byte>) {
    forall i :: 0 <= i < |s| ==> s[i] !in stops
  }

  predicate StartsWith(s: Text, c: byte) {
    s != [] && s[0] == c
  }

  /** A scan over a stop-free text followed by a stop ends exactly at the border. */
  lemma SpanOfConcat(a: Text, b: Text, stops: set<byte>)
    requires Avoids(a, stops)
    requires b == [] || b[0] in stops
    ensures Span(a + b, stops) == |a|
    ensures (a + b)[..|a|] == a && (a + b)[|a|..] == b
  {
    assert forall i :: 0 <= i < |a| ==> (a + b)[i] == a[i];
    if b != [] {
      assert (a + b)[|a|] == b[0];
    }
  }

  /** ::tolower in the C locale. */
  function LowerByte(c: byte): byte {
    if 0x41 <= c <= 0x5A then c + 0x20 else c
  }

  /** Letters go to the letter of the same place in the other alphabet, all else stays; so two bytes agree in
      lower case exactly if they are the same or one is the capital of the other. */
  lemma LowerByteIsTolower(c: byte, d: byte)
    ensures 'A' as int <= c as int <= 'Z' as int ==>
              && LowerByte(c) as int - 'a' as int == c as int - 'A' as int
              && 'a' as int <= LowerByte(c) as int <= 'z' as int
    ensures !('A' as int <= c as int <= 'Z' as int) ==> LowerByte(c) == c
    ensures LowerByte(c) == LowerByte(d) <==>
              || c == d
              || ('A' as int <= c as int <= 'Z' as int && LowerByte(c) == d)
              || ('A' as int <= d as int <= 'Z' as int && LowerByte(d) == c)
  {
  }

  function ToLower(s: Text): (r: Text)
    ensures |r| == |s|
    ensures forall i :: 0 <= i < |s| ==> r[i] == LowerByte(s[i])
  {
    seq(|s|, i requires 0 <= i < |s| => LowerByte(s[i]))
  }

  lemma ToLowerIdempotent(s: Text)
    ensures ToLower(ToLower(s)) == ToLower(s)
  {
  }

  /** Lower-casing neither creates nor removes a byte outside the alphabet. */
  lemma ToLowerAvoids(s: Text, stops: set<byte>)
    requires forall c :: c in stops ==> c < 0x41 || 0x5A < c < 0x61
    ensures Avoids(ToLower(s), stops) <==> Avoids(s, stops)
  {
    forall i | 0 <= i < |s|
      ensures ToLower(s)[i] in stops <==> s[i] in stops
    {
    }
    if Avoids(ToLower(s), stops) {
      forall i | 0 <= i < |s| ensures s[i] !in stops {
        assert ToLower(s)[i] !in stops;
      }
    }
  }
}
