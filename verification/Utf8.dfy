/** UTF-8 (RFC 3629): the bytes of a text, and a strict decoder. */
module Utf8 {
  import opened Wrappers

  type Byte = n: nat | n < 256

  function EncodeChar(c: char): (bytes: seq<Byte>)
    ensures 1 <= |bytes| <= 4
  {
    var x := c as int;
    if x < 0x80 then [x]
    else if x < 0x800 then [0xC0 + x / 0x40, 0x80 + x % 0x40]
    else if x < 0x1_0000 then [0xE0 + x / 0x1000, 0x80 + x / 0x40 % 0x40, 0x80 + x % 0x40]
    else [0xF0 + x / 0x4_0000, 0x80 + x / 0x1000 % 0x40, 0x80 + x / 0x40 % 0x40, 0x80 + x % 0x40]
  }

  function Encode(s: string): seq<Byte> {
    if s == "" then [] else EncodeChar(s[0]) + Encode(s[1..])
  }

  predicate IsTail(b: Byte) {
    0x80 <= b < 0xC0
  }

  /** What a byte carries below its marker. */
  function Bits(b: Byte, marker: nat): nat
    requires b >= marker
  {
    b - marker
  }

  datatype Lead = Malformed | Lead(c: char, width: nat)

  /** The character a byte sequence starts with: shortest form only, no surrogates, all its bytes there. */
  function ReadChar(s: seq<Byte>): (r: Lead)
    requires s != []
    ensures r.Lead? ==> 1 <= r.width <= |s|
  {
    var b := s[0];
    if b < 0x80 then Lead(b as char, 1)
    else if 0xC2 <= b < 0xE0 then
      if |s| >= 2 && IsTail(s[1]) then Lead((Bits(b, 0xC0) * 0x40 + Bits(s[1], 0x80)) as char, 2) else Malformed
    else if 0xE0 <= b < 0xF0 then
      if |s| >= 3 && IsTail(s[1]) && IsTail(s[2]) then
        var x := Bits(b, 0xE0) * 0x1000 + Bits(s[1], 0x80) * 0x40 + Bits(s[2], 0x80);
        if x < 0x800 || 0xD800 <= x < 0xE000 then Malformed else Lead(x as char, 3)
      else Malformed
    else if 0xF0 <= b < 0xF5 then
      if |s| >= 4 && IsTail(s[1]) && IsTail(s[2]) && IsTail(s[3]) then
        var x := Bits(b, 0xF0) * 0x4_0000 + Bits(s[1], 0x80) * 0x1000 + Bits(s[2], 0x80) * 0x40 + Bits(s[3], 0x80);
        if x < 0x1_0000 || x >= 0x11_0000 then Malformed else Lead(x as char, 4)
      else Malformed
    else Malformed
  }

  /** The text, or None where a strict decoder raises. */
  function Decode(s: seq<Byte>): Option<string>
    decreases |s|
  {
    if s == [] then Some("")
    else
      match ReadChar(s)
      case Malformed => None
      case Lead(c, width) =>
        match Decode(s[width..])
        case None => None
        case Some(rest) => Some([c] + rest)
  }

  lemma Digits(x: nat)
    ensures x == x / 0x40 * 0x40 + x % 0x40
    ensures x == x / 0x1000 * 0x1000 + x / 0x40 % 0x40 * 0x40 + x % 0x40
    ensures x == x / 0x4_0000 * 0x4_0000 + x / 0x1000 % 0x40 * 0x1000 + x / 0x40 % 0x40 * 0x40 + x % 0x40
  {
    assert x / 0x1000 == x / 0x40 / 0x40;
    assert x / 0x4_0000 == x / 0x1000 / 0x40;
  }

  lemma ReadsEncoded(c: char, rest: seq<Byte>)
    ensures ReadChar(EncodeChar(c) + rest) == Lead(c, |EncodeChar(c)|)
  {
    var x := c as int;
    Digits(x);
    var s := EncodeChar(c) + rest;
    if x < 0x80 {
      assert s[0] == x;
    } else if x < 0x800 {
      assert s[0] == 0xC0 + x / 0x40 && s[1] == 0x80 + x % 0x40;
    } else if x < 0x1_0000 {
    } else {
    }
  }

  lemma TornCharMalformed(c: char, n: nat)
    requires 0 < n < |EncodeChar(c)|
    ensures ReadChar(EncodeChar(c)[..n]) == Malformed
  {
  }

  /** How many characters the first n bytes of a text hold, if they end between two characters. */
  function CharsIn(s: string, n: nat): Option<nat> {
    if n == 0 then Some(0)
    else if s == "" || n < |EncodeChar(s[0])| then None
    else
      match CharsIn(s[1..], n - |EncodeChar(s[0])|)
      case None => None
      case Some(m) => Some(m + 1)
  }

  lemma {:induction false} CharsInMeaning(s: string, n: nat, m: nat)
    ensures CharsIn(s, n) == Some(m) <==> m <= |s| && |Encode(s[..m])| == n
  {
    if s == "" {
      assert m == 0 ==> s[..m] == "";
    } else if m == 0 {
      assert s[..m] == "";
    } else if m <= |s| {
      assert s[..m][0] == s[0] && s[..m][1..] == s[1..][..m - 1];
      if n >= |EncodeChar(s[0])| {
        CharsInMeaning(s[1..], n - |EncodeChar(s[0])|, m - 1);
      }
    } else if n >= |EncodeChar(s[0])| {
      CharsInMeaning(s[1..], n - |EncodeChar(s[0])|, m - 1);
    }
  }

  /** A text cut at any byte decodes exactly when the cut falls between two characters, and then to the
      characters before it. */
  lemma {:induction false} CutDecodes(s: string, n: nat)
    requires n <= |Encode(s)|
    ensures CharsIn(s, n).Some? ==> CharsIn(s, n).value <= |s|
    ensures Decode(Encode(s)[..n]) == match CharsIn(s, n) case Some(m) => Some(s[..m]) case None => None
  {
    hide ReadChar, EncodeChar;
    if n == 0 {
      assert Encode(s)[..n] == [];
      assert s[..0] == "";
    } else {
      var first, bytes := EncodeChar(s[0]), Encode(s)[..n];
      if n < |first| {
        assert bytes == first[..n];
        TornCharMalformed(s[0], n);
      } else {
        var rest := Encode(s[1..])[..n - |first|];
        assert bytes == first + rest;
        ReadsEncoded(s[0], rest);
        assert bytes[|first|..] == rest;
        CutDecodes(s[1..], n - |first|);
        if m: nat :| CharsIn(s[1..], n - |first|) == Some(m) {
          assert [s[0]] + s[1..][..m] == s[..m + 1];
        }
      }
    }
  }

  lemma DecodesFirst(c: char, more: seq<Byte>)
    ensures Decode(EncodeChar(c) + more) == match Decode(more) case None => None case Some(t) => Some([c] + t)
  {
    hide ReadChar, EncodeChar;
    ReadsEncoded(c, more);
    assert (EncodeChar(c) + more)[|EncodeChar(c)|..] == more;
  }

  /** A whole text in front does not change what follows. */
  lemma {:induction false} DecodesBehind(s: string, rest: seq<Byte>)
    ensures Decode(Encode(s) + rest) == match Decode(rest) case None => None case Some(t) => Some(s + t)
  {
    hide ReadChar, EncodeChar;
    if s == "" {
      assert Encode(s) + rest == rest;
      assert forall t: string :: "" + t == t;
    } else {
      var more := Encode(s[1..]) + rest;
      assert Encode(s) + rest == EncodeChar(s[0]) + more;
      DecodesBehind(s[1..], rest);
      DecodesFirst(s[0], more);
      if t: string :| Decode(rest) == Some(t) {
        assert [s[0]] + (s[1..] + t) == s + t;
      }
    }
  }

  predicate Ascii(s: string) {
    forall i :: 0 <= i < |s| ==> s[i] as int < 0x80
  }

  /** One byte a character: every cut falls between two. */
  lemma {:induction false} AsciiCuts(s: string, n: nat)
    requires Ascii(s)
    ensures |Encode(s)| == |s|
    ensures n <= |s| ==> CharsIn(s, n) == Some(n)
  {
    if s != "" {
      AsciiCuts(s[1..], if n == 0 then 0 else n - 1);
    }
  }

  /** The first example of section 7 of RFC 3629, and a character outside the basic plane. */
  lemma KnownTexts()
    ensures Encode("A\U{2262}\U{0391}.") == [0x41, 0xE2, 0x89, 0xA2, 0xCE, 0x91, 0x2E]
    ensures Encode("\U{233B4}") == [0xF0, 0xA3, 0x8E, 0xB4]
  {
    EncodeTwo('A', "\U{2262}\U{0391}.");
    EncodeTwo('\U{2262}', "\U{0391}.");
    EncodeTwo('\U{0391}', ".");
  }

  lemma EncodeTwo(c: char, rest: string)
    ensures Encode([c] + rest) == EncodeChar(c) + Encode(rest)
  {
    assert ([c] + rest)[1..] == rest;
  }
}
