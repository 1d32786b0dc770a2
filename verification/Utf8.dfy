/** UTF-8 (section 3 of RFC 3629), Python's default `str.encode`. */
module Utf8 {
  import opened Base64

  function EncodeChar(c: char): (b: seq<Byte>)
    ensures 1 <= |b| <= 4
  {
    var n := c as int;
    if n < 0x80 then [n]
    else if n < 0x800 then [0xc0 + n / 0x40, 0x80 + n % 0x40]
    else if n < 0x10000 then [0xe0 + n / 0x1000, 0x80 + n / 0x40 % 0x40, 0x80 + n % 0x40]
    else [0xf0 + n / 0x40000, 0x80 + n / 0x1000 % 0x40, 0x80 + n / 0x40 % 0x40, 0x80 + n % 0x40]
  }

  function Low(b: int): int {
    b - 0x80
  }

  function Lead(b: int, mark: int): int {
    b - mark
  }

  predicate Continues(b: Byte) {
    0x80 <= b < 0xc0
  }

  /** The table of section 3 of RFC 3629: the shortest form, whose payload bits are the number of the character. */
  lemma FormsAre(c: char)
    ensures var n, b := c as int, EncodeChar(c);
            if n < 0x80 then b == [n]
            else if n < 0x800 then
              |b| == 2 && 0xc0 <= b[0] < 0xe0 && Continues(b[1]) && Lead(b[0], 0xc0) * 64 + Low(b[1]) == n
            else if n < 0x10000 then
              && |b| == 3 && 0xe0 <= b[0] < 0xf0 && Continues(b[1]) && Continues(b[2])
              && (Lead(b[0], 0xe0) * 64 + Low(b[1])) * 64 + Low(b[2]) == n
            else
              && |b| == 4 && 0xf0 <= b[0] < 0xf8 && Continues(b[1]) && Continues(b[2]) && Continues(b[3])
              && ((Lead(b[0], 0xf0) * 64 + Low(b[1])) * 64 + Low(b[2])) * 64 + Low(b[3]) == n
  {
    var n := c as int;
    assert n / 0x1000 == n / 0x40000 * 0x40 + n / 0x1000 % 0x40;
    assert n / 0x40 == n / 0x1000 * 0x40 + n / 0x40 % 0x40;
  }

  function Encode(s: string): seq<Byte> {
    if s == "" then [] else EncodeChar(s[0]) + Encode(s[1..])
  }

  function DecodeLength(lead: Byte): nat {
    if lead < 0x80 then 1 else if lead < 0xe0 then 2 else if lead < 0xf0 then 3 else 4
  }

  /** The code point the first bytes stand for, read without checking that they are well formed. */
  function CodePoint(b: seq<Byte>): int
    requires |b| > 0 && |b| >= DecodeLength(b[0])
  {
    match DecodeLength(b[0])
    case 1 => b[0]
    case 2 => Lead(b[0], 0xc0) * 0x40 + Low(b[1])
    case 3 => Lead(b[0], 0xe0) * 0x1000 + Low(b[1]) * 0x40 + Low(b[2])
    case _ => Lead(b[0], 0xf0) * 0x40000 + Low(b[1]) * 0x1000 + Low(b[2]) * 0x40 + Low(b[3])
  }

  lemma CharRoundTrip(c: char, rest: seq<Byte>)
    ensures var b := EncodeChar(c) + rest;
            DecodeLength(b[0]) == |EncodeChar(c)| && CodePoint(b) == c as int
  {
    var n, b := c as int, EncodeChar(c) + rest;
    assert b[0] == EncodeChar(c)[0];
    assert n / 0x1000 == n / 0x40000 * 0x40 + n / 0x1000 % 0x40;
    assert n / 0x40 == n / 0x1000 * 0x40 + n / 0x40 % 0x40;
  }

  /** Different strings have different encodings. */
  lemma {:induction false} EncodeInjective(s: string, t: string)
    requires Encode(s) == Encode(t)
    ensures s == t
  {
    hide EncodeChar, DecodeLength, CodePoint;
    if s != "" && t != "" {
      CharRoundTrip(s[0], Encode(s[1..]));
      CharRoundTrip(t[0], Encode(t[1..]));
      var b := Encode(s);
      var n := |EncodeChar(s[0])|;
      assert b[n..] == Encode(s[1..]) && b[n..] == Encode(t[1..]);
      EncodeInjective(s[1..], t[1..]);
      assert s == [s[0]] + s[1..] && t == [t[0]] + t[1..];
    }
  }
}
