/**
 * Base 64 as the relay loop meets it: `atob`, which runs the forgiving-base64
 * decoder of the WHATWG Infra standard (ASCII whitespace dropped, up to two
 * `=` of padding accepted, leftover bits discarded), and the padded encoder of
 * section 4 of RFC 4648, which produces what a `data:` URI carries.
 */
module Base64 {
  import opened Wrappers

  type Byte = b: int | 0 <= b < 256

  /** The 64-character alphabet of section 4 of RFC 4648, values 0 to 63. */
  predicate IsBase64Char(c: char) {
    ('A' <= c <= 'Z') || ('a' <= c <= 'z') || ('0' <= c <= '9') || c == '+' || c == '/'
  }

  function CharValue(c: char): (v: int)
    requires IsBase64Char(c)
    ensures 0 <= v < 64
  {
    if 'A' <= c <= 'Z' then c as int - 'A' as int
    else if 'a' <= c <= 'z' then c as int - 'a' as int + 26
    else if '0' <= c <= '9' then c as int - '0' as int + 52
    else if c == '+' then 62
    else 63
  }

  function ValueChar(v: int): (c: char)
    requires 0 <= v < 64
    ensures IsBase64Char(c) && CharValue(c) == v
  {
    if v < 26 then ('A' as int + v) as char
    else if v < 52 then ('a' as int + v - 26) as char
    else if v < 62 then ('0' as int + v - 52) as char
    else if v == 62 then '+'
    else '/'
  }

  /** The ASCII whitespace of the Infra standard: TAB, LF, FF, CR and SPACE. */
  predicate IsAsciiWhitespace(c: char) {
    c == '\t' || c == '\n' || c == '\U{000C}' || c == '\r' || c == ' '
  }

  function StripAsciiWhitespace(s: string): (r: string)
    ensures forall i :: 0 <= i < |r| ==> !IsAsciiWhitespace(r[i])
    ensures (forall i :: 0 <= i < |s| ==> !IsAsciiWhitespace(s[i])) ==> r == s
  {
    if |s| == 0 then []
    else if IsAsciiWhitespace(s[0]) then StripAsciiWhitespace(s[1..])
    else [s[0]] + StripAsciiWhitespace(s[1..])
  }

  /** When the length is a multiple of four, one or two trailing `=` are dropped. */
  function StripPadding(s: string): string {
    if |s| % 4 != 0 then s
    else if |s| >= 2 && s[|s| - 2] == '=' && s[|s| - 1] == '=' then s[..|s| - 2]
    else if |s| >= 1 && s[|s| - 1] == '=' then s[..|s| - 1]
    else s
  }

  predicate AllBase64(s: string) {
    forall i :: 0 <= i < |s| ==> IsBase64Char(s[i])
  }

  /** Four sextets make three bytes. */
  function DecodeQuad(a: int, b: int, c: int, d: int): (r: seq<Byte>)
    requires 0 <= a < 64 && 0 <= b < 64 && 0 <= c < 64 && 0 <= d < 64
    ensures |r| == 3
  {
    [a * 4 + b / 16, (b % 16) * 16 + c / 4, (c % 4) * 64 + d]
  }

  /** The bytes of unpadded base 64 text; a final group of two or three characters gives one or two bytes. */
  function DecodeGroups(s: string): (r: seq<Byte>)
    requires AllBase64(s) && |s| % 4 != 1
    ensures |r| == (|s| / 4) * 3 + (if |s| % 4 == 0 then 0 else |s| % 4 - 1)
  {
    if |s| >= 4 then
      DecodeQuad(CharValue(s[0]), CharValue(s[1]), CharValue(s[2]), CharValue(s[3])) + DecodeGroups(s[4..])
    else if |s| == 3 then
      DecodeQuad(CharValue(s[0]), CharValue(s[1]), CharValue(s[2]), 0)[..2]
    else if |s| == 2 then
      DecodeQuad(CharValue(s[0]), CharValue(s[1]), 0, 0)[..1]
    else []
  }

  /**
   * `atob`: the forgiving-base64 decode. `None` is the `InvalidCharacterError`
   * it throws: a character outside the alphabet after whitespace and padding
   * are removed, or a length that leaves one character over.
   */
  function Decode(s: string): (r: Option<seq<Byte>>)
    ensures r.Some? <==> (var t := StripPadding(StripAsciiWhitespace(s)); AllBase64(t) && |t| % 4 != 1)
  {
    var t := StripPadding(StripAsciiWhitespace(s));
    if |t| % 4 == 1 || !AllBase64(t) then None else Some(DecodeGroups(t))
  }

  // ---------------------------------------------------------------------
  // The encoder of section 4 of RFC 4648

  function EncodeTriple(x: Byte, y: Byte, z: Byte): (r: string)
    ensures |r| == 4 && AllBase64(r)
  {
    [ValueChar(x / 4), ValueChar((x % 4) * 16 + y / 16), ValueChar((y % 16) * 4 + z / 64), ValueChar(z % 64)]
  }

  /** The encoding without its `=` padding. */
  function EncodeGroups(b: seq<Byte>): (r: string)
    ensures AllBase64(r)
    ensures |r| == (|b| / 3) * 4 + (if |b| % 3 == 0 then 0 else |b| % 3 + 1)
    ensures |r| % 4 != 1
  {
    if |b| >= 3 then EncodeTriple(b[0], b[1], b[2]) + EncodeGroups(b[3..])
    else if |b| == 2 then EncodeTriple(b[0], b[1], 0)[..3]
    else if |b| == 1 then EncodeTriple(b[0], 0, 0)[..2]
    else []
  }

  /** Padded base 64: the final quantum is completed with `=`. */
  function Encode(b: seq<Byte>): (r: string)
    ensures |r| % 4 == 0
  {
    EncodeGroups(b) + (if |b| % 3 == 1 then "==" else if |b| % 3 == 2 then "=" else "")
  }

  lemma QuadOfTriple(x: Byte, y: Byte, z: Byte)
    ensures DecodeQuad(x / 4, (x % 4) * 16 + y / 16, (y % 16) * 4 + z / 64, z % 64) == [x, y, z]
  {
    assert ((x % 4) * 16 + y / 16) / 16 == x % 4;
    assert ((x % 4) * 16 + y / 16) % 16 == y / 16;
    assert ((y % 16) * 4 + z / 64) / 4 == y % 16;
    assert ((y % 16) * 4 + z / 64) % 4 == z / 64;
  }

  /** Decoding the characters of one triple gives the triple back. */
  lemma TripleRoundTrip(x: Byte, y: Byte, z: Byte)
    ensures var t := EncodeTriple(x, y, z);
      DecodeQuad(CharValue(t[0]), CharValue(t[1]), CharValue(t[2]), CharValue(t[3])) == [x, y, z]
  {
    var t := EncodeTriple(x, y, z);
    var a, b, c, d := x / 4, (x % 4) * 16 + y / 16, (y % 16) * 4 + z / 64, z % 64;
    assert 0 <= a < 64 && 0 <= b < 64 && 0 <= c < 64 && 0 <= d < 64;
    assert t[0] == ValueChar(a) && t[1] == ValueChar(b) && t[2] == ValueChar(c) && t[3] == ValueChar(d);
    assert CharValue(t[0]) == a && CharValue(t[1]) == b && CharValue(t[2]) == c && CharValue(t[3]) == d;
    QuadOfTriple(x, y, z);
  }

  lemma DecodeGroupsCons(t: string, rest: string)
    requires |t| == 4 && AllBase64(t) && AllBase64(rest) && |rest| % 4 != 1
    ensures AllBase64(t + rest)
    ensures DecodeGroups(t + rest)
         == DecodeQuad(CharValue(t[0]), CharValue(t[1]), CharValue(t[2]), CharValue(t[3])) + DecodeGroups(rest)
  {
    assert (t + rest)[4..] == rest;
  }

  lemma {:induction false} GroupsRoundTrip(b: seq<Byte>)
    ensures DecodeGroups(EncodeGroups(b)) == b
    decreases |b|
  {
    if |b| >= 3 {
      var t := EncodeTriple(b[0], b[1], b[2]);
      var rest := EncodeGroups(b[3..]);
      assert EncodeGroups(b) == t + rest;
      TripleRoundTrip(b[0], b[1], b[2]);
      DecodeGroupsCons(t, rest);
      GroupsRoundTrip(b[3..]);
      ThreeSplit(b);
    } else if |b| == 2 {
      PairRoundTrip(b[0], b[1]);
    } else if |b| == 1 {
      SingleRoundTrip(b[0]);
    }
  }

  lemma ThreeSplit(b: seq<Byte>)
    requires |b| >= 3
    ensures b == [b[0], b[1], b[2]] + b[3..]
  {
  }

  /** Two final bytes travel as three characters. */
  lemma PairRoundTrip(x: Byte, y: Byte)
    ensures DecodeGroups(EncodeTriple(x, y, 0)[..3]) == [x, y]
  {
    var t := EncodeTriple(x, y, 0);
    TripleRoundTrip(x, y, 0);
    var s := t[..3];
    assert s[0] == t[0] && s[1] == t[1] && s[2] == t[2];
  }

  /** One final byte travels as two characters. */
  lemma SingleRoundTrip(x: Byte)
    ensures DecodeGroups(EncodeTriple(x, 0, 0)[..2]) == [x]
  {
    var t := EncodeTriple(x, 0, 0);
    TripleRoundTrip(x, 0, 0);
    var s := t[..2];
    assert s[0] == t[0] && s[1] == t[1];
  }

  /** The encoder writes no whitespace. */
  lemma EncodeNoWhitespace(b: seq<Byte>)
    ensures StripAsciiWhitespace(Encode(b)) == Encode(b)
  {
    var g := EncodeGroups(b);
    var e := Encode(b);
    forall i | 0 <= i < |e| ensures !IsAsciiWhitespace(e[i]) {
      if i < |g| { assert e[i] == g[i]; }
    }
  }

  /** Dropping the padding leaves the unpadded groups. */
  lemma EncodePadding(b: seq<Byte>)
    ensures StripPadding(Encode(b)) == EncodeGroups(b)
  {
    var g := EncodeGroups(b);
    var e := Encode(b);
    if |b| % 3 == 1 {
      assert e[..|e| - 2] == g;
    } else if |b| % 3 == 2 {
      assert e[..|e| - 1] == g;
    } else {
      assert e == g;
      assert |g| == 0 || IsBase64Char(g[|g| - 1]);
    }
  }

  /** What the encoder writes, `atob` reads back. */
  lemma DecodeEncode(b: seq<Byte>)
    ensures Decode(Encode(b)) == Some(b)
  {
    EncodeNoWhitespace(b);
    EncodePadding(b);
    GroupsRoundTrip(b);
  }

  /** A stray character makes `atob` throw. */
  lemma RejectsStrayCharacter()
    ensures Decode("QQ=A") == None
    ensures Decode("Q") == None
  {
    assert !IsBase64Char('=');
    assert StripAsciiWhitespace("QQ=A") == "QQ=A";
    assert !AllBase64("QQ=A");
  }
}
