/**
 * UTF-8 as the relay loop meets it: `new TextDecoder().decode(bytes)`, the
 * UTF-8 decoder of the WHATWG Encoding standard in replacement mode (each
 * maximal ill-formed subsequence becomes one U+FFFD, a leading byte order mark
 * is dropped), the encoder of RFC 3629, and `encodeURIComponent`, which
 * percent-encodes the UTF-8 bytes of every character outside its unreserved set.
 */
module Utf8 {
  import opened Base64

  const Replacement: char := '\U{FFFD}'

  /**
   * A lead byte's number of continuation bytes and the range its first
   * continuation byte must lie in; 0 continuation bytes for a byte that
   * cannot start a sequence.
   */
  datatype Lead = Lead(needed: int, lower: int, upper: int)

  function LeadOf(x: Byte): (l: Lead)
    ensures 0 <= l.needed <= 3
    ensures l.needed > 0 ==> 0x80 <= l.lower <= l.upper <= 0xBF
  {
    if 0xC2 <= x <= 0xDF then Lead(1, 0x80, 0xBF)
    else if x == 0xE0 then Lead(2, 0xA0, 0xBF)
    else if x == 0xED then Lead(2, 0x80, 0x9F)
    else if 0xE1 <= x <= 0xEF then Lead(2, 0x80, 0xBF)
    else if x == 0xF0 then Lead(3, 0x90, 0xBF)
    else if x == 0xF4 then Lead(3, 0x80, 0x8F)
    else if 0xF1 <= x <= 0xF3 then Lead(3, 0x80, 0xBF)
    else Lead(0, 0, 0)
  }

  /** The continuation byte at offset `j` (1-based) of a sequence with lead `l` is acceptable. */
  predicate ContinuationOk(l: Lead, j: int, y: Byte) {
    if j == 1 then l.lower <= y <= l.upper else 0x80 <= y <= 0xBF
  }

  /** How many acceptable continuation bytes follow the lead byte `b[0]`, at most `l.needed`. */
  function Run(b: seq<Byte>, l: Lead, j: nat): (k: nat)
    requires 1 <= j <= l.needed + 1 && j <= |b|
    ensures j - 1 <= k <= l.needed && k < |b|
    ensures forall i :: j <= i <= k ==> ContinuationOk(l, i, b[i])
    ensures k < l.needed ==> k + 1 == |b| || !ContinuationOk(l, k + 1, b[k + 1])
    decreases l.needed + 1 - j
  {
    if j > l.needed || j >= |b| || !ContinuationOk(l, j, b[j]) then j - 1
    else
      var k := Run(b, l, j + 1);
      assert ContinuationOk(l, j, b[j]);
      k
  }

  /** The scalar value spelled by a complete, acceptable sequence. */
  function Scalar(b: seq<Byte>, l: Lead): (c: char)
    requires 1 <= l.needed <= 3 && |b| > l.needed && l == LeadOf(b[0])
    requires forall i :: 1 <= i <= l.needed ==> ContinuationOk(l, i, b[i])
  {
    assert ContinuationOk(l, 1, b[1]);
    if l.needed == 1 then
      ((b[0] as int - 0xC0) * 64 + (b[1] as int - 0x80)) as char
    else if l.needed == 2 then
      assert ContinuationOk(l, 2, b[2]);
      ((b[0] as int - 0xE0) * 4096 + (b[1] as int - 0x80) * 64 + (b[2] as int - 0x80)) as char
    else
      assert ContinuationOk(l, 2, b[2]) && ContinuationOk(l, 3, b[3]);
      ((b[0] as int - 0xF0) * 262144 + (b[1] as int - 0x80) * 4096 + (b[2] as int - 0x80) * 64
       + (b[3] as int - 0x80)) as char
  }

  /**
   * The decoder in replacement mode: a complete sequence becomes its scalar
   * value; a lead byte with too few acceptable continuation bytes becomes one
   * U+FFFD that swallows the acceptable ones, and decoding resumes at the first
   * byte that broke the sequence.
   */
  function DecodeFrom(b: seq<Byte>): (s: string)
    ensures |s| <= |b|
    decreases |b|
  {
    if |b| == 0 then []
    else if b[0] < 0x80 then [b[0] as char] + DecodeFrom(b[1..])
    else
      var l := LeadOf(b[0]);
      if l.needed == 0 then [Replacement] + DecodeFrom(b[1..])
      else
        var k := Run(b, l, 1);
        if k == l.needed then [Scalar(b, l)] + DecodeFrom(b[k + 1..])
        else [Replacement] + DecodeFrom(b[k + 1..])
  }

  /** `new TextDecoder().decode(bytes)`: UTF-8, replacement mode, a leading byte order mark dropped. */
  function Decode(b: seq<Byte>): (s: string)
    ensures |s| <= |b|
  {
    if |b| >= 3 && b[0] == 0xEF && b[1] == 0xBB && b[2] == 0xBF then DecodeFrom(b[3..]) else DecodeFrom(b)
  }

  // ---------------------------------------------------------------------
  // The encoder of RFC 3629

  function EncodeChar(c: char): (r: seq<Byte>)
    ensures 1 <= |r| <= 4
  {
    var v := c as int;
    if v < 0x80 then [v]
    else if v < 0x800 then [0xC0 + v / 64, 0x80 + v % 64]
    else if v < 0x10000 then [0xE0 + v / 4096, 0x80 + (v / 64) % 64, 0x80 + v % 64]
    else [0xF0 + v / 262144, 0x80 + (v / 4096) % 64, 0x80 + (v / 64) % 64, 0x80 + v % 64]
  }

  function Encode(s: string): (r: seq<Byte>)
    ensures |s| <= |r| <= 4 * |s|
  {
    if |s| == 0 then [] else EncodeChar(s[0]) + Encode(s[1..])
  }

  lemma DecodeTwo(c: char, rest: seq<Byte>)
    requires 0x80 <= c as int < 0x800
    ensures DecodeFrom(EncodeChar(c) + rest) == [c] + DecodeFrom(rest)
  {
    var v := c as int;
    var b := EncodeChar(c) + rest;
    assert b[0] == 0xC0 + v / 64 && b[1] == 0x80 + v % 64;
    assert LeadOf(b[0]) == Lead(1, 0x80, 0xBF);
    assert Run(b, LeadOf(b[0]), 2) == 1;
    assert Run(b, LeadOf(b[0]), 1) == 1;
    assert b[2..] == rest;
  }

  /** The three bytes of a character outside the surrogates from U+0800 on, and the value they spell. */
  lemma ThreeBytes(v: int)
    requires 0x800 <= v < 0x10000 && !(0xD800 <= v < 0xE000)
    ensures var b0, b1 := 0xE0 + v / 4096, 0x80 + (v / 64) % 64;
      && 0xE0 <= b0 <= 0xEF
      && (b0 == 0xE0 ==> b1 >= 0xA0) && (b0 == 0xED ==> b1 <= 0x9F)
      && (b0 - 0xE0) * 4096 + (b1 - 0x80) * 64 + v % 64 == v
  {
  }

  lemma DecodeThree(c: char, rest: seq<Byte>)
    requires 0x800 <= c as int < 0x10000
    ensures DecodeFrom(EncodeChar(c) + rest) == [c] + DecodeFrom(rest)
  {
    var v := c as int;
    ThreeBytes(v);
    var b := EncodeChar(c) + rest;
    assert b[0] == 0xE0 + v / 4096 && b[1] == 0x80 + (v / 64) % 64 && b[2] == 0x80 + v % 64;
    var l := LeadOf(b[0]);
    assert l.needed == 2;
    assert ContinuationOk(l, 1, b[1]);
    assert ContinuationOk(l, 2, b[2]);
    assert Run(b, l, 3) == 2;
    assert Run(b, l, 1) == 2;
    assert b[3..] == rest;
  }

  /** The four bytes of a supplementary-plane character, and the value they spell. */
  lemma FourBytes(v: int)
    requires 0x10000 <= v < 0x110000
    ensures var b0, b1 := 0xF0 + v / 262144, 0x80 + (v / 4096) % 64;
      && 0xF0 <= b0 <= 0xF4
      && (b0 == 0xF0 ==> b1 >= 0x90) && (b0 == 0xF4 ==> b1 <= 0x8F)
      && (b0 - 0xF0) * 262144 + (b1 - 0x80) * 4096 + (v / 64) % 64 * 64 + v % 64 == v
  {
  }

  lemma DecodeFour(c: char, rest: seq<Byte>)
    requires 0x10000 <= c as int
    ensures DecodeFrom(EncodeChar(c) + rest) == [c] + DecodeFrom(rest)
  {
    var v := c as int;
    FourBytes(v);
    var b := EncodeChar(c) + rest;
    assert b[0] == 0xF0 + v / 262144 && b[1] == 0x80 + (v / 4096) % 64;
    assert b[2] == 0x80 + (v / 64) % 64 && b[3] == 0x80 + v % 64;
    var l := LeadOf(b[0]);
    assert l.needed == 3;
    assert ContinuationOk(l, 1, b[1]);
    assert Run(b, l, 4) == 3;
    assert Run(b, l, 1) == 3;
    assert Scalar(b, l) == c;
    assert b[4..] == rest;
  }

  lemma DecodeOne(c: char, rest: seq<Byte>)
    ensures DecodeFrom(EncodeChar(c) + rest) == [c] + DecodeFrom(rest)
  {
    var v := c as int;
    if v < 0x80 {
      assert (EncodeChar(c) + rest)[1..] == rest;
    } else if v < 0x800 {
      DecodeTwo(c, rest);
    } else if v < 0x10000 {
      DecodeThree(c, rest);
    } else {
      DecodeFour(c, rest);
    }
  }

  lemma {:induction false} DecodeFromEncode(s: string)
    ensures DecodeFrom(Encode(s)) == s
  {
    if |s| > 0 {
      DecodeOne(s[0], Encode(s[1..]));
      DecodeFromEncode(s[1..]);
    }
  }

  /** Text that does not begin with U+FEFF survives encoding and decoding unchanged. */
  lemma {:induction false} DecodeEncode(s: string)
    requires s == [] || s[0] != '\U{FEFF}'
    ensures Decode(Encode(s)) == s
  {
    DecodeFromEncode(s);
    if |s| > 0 {
      var b := Encode(s);
      assert b == EncodeChar(s[0]) + Encode(s[1..]);
      if 0x800 <= s[0] as int < 0x10000 {
        var v := s[0] as int;
        assert b[0] == 0xE0 + v / 4096 && b[1] == 0x80 + (v / 64) % 64 && b[2] == 0x80 + v % 64;
        assert !(b[0] == 0xEF && b[1] == 0xBB && b[2] == 0xBF);
      }
    }
  }

  /** A byte order mark at the front is not part of the text. */
  lemma DropsByteOrderMark(s: string)
    ensures Decode(Encode("\U{FEFF}" + s)) == s
  {
    var b := Encode("\U{FEFF}" + s);
    assert ("\U{FEFF}" + s)[1..] == s;
    assert b == [0xEF, 0xBB, 0xBF] + Encode(s);
    assert b[3..] == Encode(s);
    DecodeFromEncode(s);
  }

  /** Stray and truncated sequences each become one replacement character. */
  lemma ReplacesIllFormed()
    ensures Decode([0x41, 0x80, 0x42]) == ['A', Replacement, 'B']
    ensures Decode([0xE2, 0x82]) == [Replacement]
    ensures Decode([0xE2, 0x41]) == [Replacement, 'A']
  {
    assert LeadOf(0x80).needed == 0;
    var t: seq<Byte> := [0xE2, 0x82];
    assert Run(t, LeadOf(0xE2), 1) == 1;
    assert t[2..] == [];
    var u: seq<Byte> := [0xE2, 0x41];
    assert Run(u, LeadOf(0xE2), 1) == 0;
    assert u[1..] == [0x41];
  }

  // ---------------------------------------------------------------------
  // encodeURIComponent

  /** The characters `encodeURIComponent` leaves as they are. */
  predicate IsUnreserved(c: char) {
    ('A' <= c <= 'Z') || ('a' <= c <= 'z') || ('0' <= c <= '9')
    || c == '-' || c == '_' || c == '.' || c == '!' || c == '~' || c == '*' || c == '\'' || c == '(' || c == ')'
  }

  predicate IsUpperHex(c: char) {
    ('0' <= c <= '9') || ('A' <= c <= 'F')
  }

  function HexDigit(v: int): (c: char)
    requires 0 <= v < 16
    ensures IsUpperHex(c)
  {
    if v < 10 then ('0' as int + v) as char else ('A' as int + v - 10) as char
  }

  function PercentBytes(b: seq<Byte>): (r: string)
    ensures |r| == 3 * |b|
    ensures forall i :: 0 <= i < |r| ==> (if i % 3 == 0 then r[i] == '%' else IsUpperHex(r[i]))
  {
    if |b| == 0 then []
    else
      var rest := PercentBytes(b[1..]);
      var r := ['%', HexDigit(b[0] / 16), HexDigit(b[0] % 16)] + rest;
      assert forall i :: 3 <= i < |r| ==> r[i] == rest[i - 3] && (i - 3) % 3 == i % 3;
      r
  }

  /**
   * `encodeURIComponent`: unreserved characters are copied, every other one is
   * replaced by its UTF-8 bytes written as `%XX` with upper-case hex digits.
   */
  function EncodeUriComponent(s: string): (r: string)
    ensures forall i :: 0 <= i < |r| ==> IsUnreserved(r[i]) || r[i] == '%' || IsUpperHex(r[i])
    ensures (forall i :: 0 <= i < |s| ==> IsUnreserved(s[i])) ==> r == s
    ensures |s| <= |r|
  {
    if |s| == 0 then []
    else
      var head := if IsUnreserved(s[0]) then [s[0]] else PercentBytes(EncodeChar(s[0]));
      var rest := EncodeUriComponent(s[1..]);
      assert forall i :: |head| <= i < |head + rest| ==> (head + rest)[i] == rest[i - |head|];
      head + rest
  }
}
