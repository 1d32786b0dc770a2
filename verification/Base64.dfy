/** Base64 of RFC 4648: the standard alphabet of section 4 (nonces, signatures) and the URL-safe one
    of section 5, which the gateway uses without padding for key ids and JWK members. */
module Base64 {
  import opened Wrappers
  import opened Text

  type Byte = b: int | 0 <= b < 256

  datatype Alphabet = Standard | UrlSafe

  predicate IsSymbol(c: char) {
    'A' <= c <= 'Z' || 'a' <= c <= 'z' || '0' <= c <= '9' || c in "+/-_="
  }

  function Symbol(a: Alphabet, v: nat): (c: char)
    requires v < 64
    ensures IsSymbol(c) && c != '='
  {
    if v < 26 then ('A' as int + v) as char
    else if v < 52 then ('a' as int + (v - 26)) as char
    else if v < 62 then ('0' as int + (v - 52)) as char
    else if v == 62 then (if a.Standard? then '+' else '-')
    else if a.Standard? then '/' else '_'
  }

  /** The alphabets of sections 4 and 5 of RFC 4648. */
  lemma SymbolsAre(a: Alphabet, v: nat)
    requires v < 64
    ensures v < 26 ==> Symbol(a, v) == "ABCDEFGHIJKLMNOPQRSTUVWXYZ"[v]
    ensures 26 <= v < 52 ==> Symbol(a, v) == "abcdefghijklmnopqrstuvwxyz"[v - 26]
    ensures 52 <= v < 62 ==> Symbol(a, v) == "0123456789"[v - 52]
    ensures 62 <= v ==> Symbol(a, v) == (if a == Standard then "+/" else "-_")[v - 62]
  {
  }

  /** The value of a symbol. Python decodes the URL-safe alphabet by translating `-_` into `+/` first, so
      there all four are symbols. */
  function Sextet(a: Alphabet, c: char): (r: Option<nat>)
    ensures r.Some? ==> r.value < 64
  {
    if 'A' <= c <= 'Z' then Some(c as int - 'A' as int)
    else if 'a' <= c <= 'z' then Some(c as int - 'a' as int + 26)
    else if '0' <= c <= '9' then Some(c as int - '0' as int + 52)
    else if c == '+' || (c == '-' && a.UrlSafe?) then Some(62)
    else if c == '/' || (c == '_' && a.UrlSafe?) then Some(63)
    else None
  }

  lemma SymbolRoundTrip(a: Alphabet, v: nat)
    requires v < 64
    ensures Sextet(a, Symbol(a, v)) == Some(v)
  {
  }

  /** The symbols without padding: four for three bytes, then two or three for what is left. */
  function Bare(a: Alphabet, b: seq<Byte>): (s: string)
    ensures |s| == (4 * |b| + 2) / 3
    ensures '=' !in s
  {
    if |b| == 0 then ""
    else if |b| == 1 then [Symbol(a, b[0] / 4), Symbol(a, b[0] % 4 * 16)]
    else if |b| == 2 then [Symbol(a, b[0] / 4), Symbol(a, b[0] % 4 * 16 + b[1] / 16), Symbol(a, b[1] % 16 * 4)]
    else Group(a, b[0], b[1], b[2]) + Bare(a, b[3..])
  }

  function Group(a: Alphabet, x: Byte, y: Byte, z: Byte): (s: string)
    ensures |s| == 4 && '=' !in s
  {
    [Symbol(a, x / 4), Symbol(a, x % 4 * 16 + y / 16), Symbol(a, y % 16 * 4 + z / 64), Symbol(a, z % 64)]
  }

  /** The symbols spell this number, the first ones highest. */
  predicate Spells(a: Alphabet, s: string, n: nat)
    decreases |s|
  {
    if s == "" then n == 0
    else
      var v := n % 64; s[|s| - 1] == Symbol(a, v) && Spells(a, s[..|s| - 1], n / 64)
  }

  /** Four symbols spell the 24 bits of three bytes; two or three spell those of one or two bytes, followed by
      zeros. */
  lemma BitsAreSpelled(a: Alphabet, x: Byte, y: Byte, z: Byte)
    ensures Spells(a, Bare(a, [x, y, z]), (x * 256 + y) * 256 + z)
    ensures Spells(a, Bare(a, [x, y]), (x * 256 + y) * 4)
    ensures Spells(a, Bare(a, [x]), x * 16)
  {
    hide Symbol, Spells;
    var p, q, r, t := x / 4, x % 4 * 16 + y / 16, y % 16 * 4 + z / 64, z % 64;
    ThreeBytes(x, y, z);
    assert Bare(a, [x, y, z]) == [Symbol(a, p), Symbol(a, q), Symbol(a, r), Symbol(a, t)];
    FourSpell(a, p, q, r, t);
    TwoBytes(x, y);
    assert Bare(a, [x, y]) == [Symbol(a, p), Symbol(a, q), Symbol(a, y % 16 * 4)];
    ThreeSpell(a, p, q, y % 16 * 4);
    assert Bare(a, [x]) == [Symbol(a, p), Symbol(a, x % 4 * 16)];
    TwoSpell(a, p, x % 4 * 16);
  }

  lemma ThreeBytes(x: Byte, y: Byte, z: Byte)
    ensures (((x / 4) * 64 + (x % 4 * 16 + y / 16)) * 64 + (y % 16 * 4 + z / 64)) * 64 + z % 64
         == (x * 256 + y) * 256 + z
  {
  }

  lemma TwoBytes(x: Byte, y: Byte)
    ensures ((x / 4) * 64 + (x % 4 * 16 + y / 16)) * 64 + y % 16 * 4 == (x * 256 + y) * 4
    ensures (x / 4) * 64 + x % 4 * 16 == x * 16
  {
  }

  lemma OneSpells(a: Alphabet, s: string, n: nat, v: nat)
    requires v < 64 && Spells(a, s, n)
    ensures Spells(a, s + [Symbol(a, v)], n * 64 + v)
  {
    hide Symbol;
    assert (s + [Symbol(a, v)])[..|s|] == s;
  }

  lemma TwoSpell(a: Alphabet, p: nat, q: nat)
    requires p < 64 && q < 64
    ensures Spells(a, [Symbol(a, p), Symbol(a, q)], p * 64 + q)
  {
    hide Symbol;
    OneSpells(a, "", 0, p);
    hide Spells;
    assert "" + [Symbol(a, p)] == [Symbol(a, p)];
    OneSpells(a, [Symbol(a, p)], p, q);
    assert [Symbol(a, p)] + [Symbol(a, q)] == [Symbol(a, p), Symbol(a, q)];
  }

  lemma ThreeSpell(a: Alphabet, p: nat, q: nat, r: nat)
    requires p < 64 && q < 64 && r < 64
    ensures Spells(a, [Symbol(a, p), Symbol(a, q), Symbol(a, r)], (p * 64 + q) * 64 + r)
  {
    hide Symbol, Spells;
    TwoSpell(a, p, q);
    OneSpells(a, [Symbol(a, p), Symbol(a, q)], p * 64 + q, r);
    assert [Symbol(a, p), Symbol(a, q)] + [Symbol(a, r)] == [Symbol(a, p), Symbol(a, q), Symbol(a, r)];
  }

  lemma FourSpell(a: Alphabet, p: nat, q: nat, r: nat, t: nat)
    requires p < 64 && q < 64 && r < 64 && t < 64
    ensures Spells(a, [Symbol(a, p), Symbol(a, q), Symbol(a, r), Symbol(a, t)], ((p * 64 + q) * 64 + r) * 64 + t)
  {
    hide Symbol, Spells;
    ThreeSpell(a, p, q, r);
    OneSpells(a, [Symbol(a, p), Symbol(a, q), Symbol(a, r)], (p * 64 + q) * 64 + r, t);
    assert [Symbol(a, p), Symbol(a, q), Symbol(a, r)] + [Symbol(a, t)]
        == [Symbol(a, p), Symbol(a, q), Symbol(a, r), Symbol(a, t)];
  }

  /** Longer texts are spelled three bytes at a time. */
  lemma GroupsFollow(a: Alphabet, x: Byte, y: Byte, z: Byte, rest: seq<Byte>)
    ensures Bare(a, [x, y, z] + rest) == Bare(a, [x, y, z]) + Bare(a, rest)
  {
    hide Group;
    var b := [x, y, z] + rest;
    assert b[3..] == rest && [x, y, z][3..] == [];
    assert Group(a, x, y, z) + "" == Group(a, x, y, z);
  }

  /** As many `=` as bring `n` symbols to a multiple of four: Python's `"=" * (-n % 4)`. */
  function Padding(n: nat): (s: string)
    ensures |s| == (0 - n) % 4
    ensures forall i :: 0 <= i < |s| ==> s[i] == '='
  {
    seq((0 - n) % 4, _ => '=')
  }

  function Encode(a: Alphabet, b: seq<Byte>): string {
    Bare(a, b) + Padding(|Bare(a, b)|)
  }

  /** A test vector of section 10 of RFC 4648. */
  lemma OneByteReads()
    ensures Encode(Standard, [102]) == "Zg=="
  {
    assert Bare(Standard, [102]) == [Symbol(Standard, 25), Symbol(Standard, 32)] == "Zg";
    assert Padding(2) == "==";
  }

  /** What is left of the bits read in a group after `quad` symbols. */
  predicate Leftover(quad: nat, left: nat) {
    quad < 4 && left < (if quad == 0 then 1 else if quad == 1 then 64 else if quad == 2 then 16 else 4)
  }

  /** Python's decoder, from the middle of a group of four symbols: `quad` symbols of it have been read,
      `left` are their bits not yet written, and `pads` the pad characters since the last symbol. Characters
      outside the alphabet are skipped, reading stops where padding completes a group, and a group left
      incomplete is an error. */
  function DecodeFrom(a: Alphabet, s: string, quad: nat, left: nat, pads: nat): Option<seq<Byte>>
    requires Leftover(quad, left)
    decreases |s|
  {
    if s == "" then if quad == 0 then Some([]) else None
    else if s[0] == '=' then
      if quad < 2 then DecodeFrom(a, s[1..], quad, left, pads)
      else if quad + pads + 1 >= 4 then Some([])
      else DecodeFrom(a, s[1..], quad, left, pads + 1)
    else
      match (Sextet(a, s[0]), quad)
      case (None, _) => DecodeFrom(a, s[1..], quad, left, pads)
      case (Some(v), 0) => DecodeFrom(a, s[1..], 1, v, 0)
      case (Some(v), 1) => Emit(left * 4 + v / 16, DecodeFrom(a, s[1..], 2, v % 16, 0))
      case (Some(v), 2) => Emit(left * 16 + v / 4, DecodeFrom(a, s[1..], 3, v % 4, 0))
      case (Some(v), _) => Emit(left * 64 + v, DecodeFrom(a, s[1..], 0, 0, 0))
  }

  function Emit(x: Byte, rest: Option<seq<Byte>>): Option<seq<Byte>> {
    match rest
    case None => None
    case Some(more) => Some([x] + more)
  }

  /** None stands for a `ValueError`; text that is not ASCII raises one too. */
  function Decode(a: Alphabet, s: string): Option<seq<Byte>> {
    if exists c :: c in s && c >= 128 as char then None else DecodeFrom(a, s, 0, 0, 0)
  }

  lemma Regroup(x: Byte, y: Byte, z: Byte)
    ensures var p, q, r, t := x / 4, x % 4 * 16 + y / 16, y % 16 * 4 + z / 64, z % 64;
            p * 4 + q / 16 == x && q % 16 * 16 + r / 4 == y && r % 4 * 64 + t == z
  {
  }

  /** One symbol is read. */
  lemma ReadSymbol(a: Alphabet, v: nat, rest: string, quad: nat, left: nat)
    requires v < 64 && Leftover(quad, left)
    ensures DecodeFrom(a, [Symbol(a, v)] + rest, quad, left, 0) ==
              if quad == 0 then DecodeFrom(a, rest, 1, v, 0)
              else if quad == 1 then Emit(left * 4 + v / 16, DecodeFrom(a, rest, 2, v % 16, 0))
              else if quad == 2 then Emit(left * 16 + v / 4, DecodeFrom(a, rest, 3, v % 4, 0))
              else Emit(left * 64 + v, DecodeFrom(a, rest, 0, 0, 0))
  {
    hide Symbol, Sextet, Emit;
    SymbolRoundTrip(a, v);
    var s := [Symbol(a, v)] + rest;
    assert s[0] == Symbol(a, v) && s[1..] == rest;
  }

  lemma GroupRoundTrip(a: Alphabet, x: Byte, y: Byte, z: Byte, rest: string, more: seq<Byte>)
    requires DecodeFrom(a, rest, 0, 0, 0) == Some(more)
    ensures DecodeFrom(a, Group(a, x, y, z) + rest, 0, 0, 0) == Some([x, y, z] + more)
  {
    hide Symbol, DecodeFrom;
    var p, q, r, t := x / 4, x % 4 * 16 + y / 16, y % 16 * 4 + z / 64, z % 64;
    Regroup(x, y, z);
    var s3 := [Symbol(a, t)] + rest;
    var s2 := [Symbol(a, r)] + s3;
    var s1 := [Symbol(a, q)] + s2;
    assert Group(a, x, y, z) + rest == [Symbol(a, p)] + s1;
    ReadSymbol(a, p, s1, 0, 0);
    ReadSymbol(a, q, s2, 1, p);
    ReadSymbol(a, r, s3, 2, q % 16);
    ReadSymbol(a, t, rest, 3, r % 4);
    assert [x] + ([y] + ([z] + more)) == [x, y, z] + more;
  }

  /** Padding that completes a group ends the reading. */
  lemma PaddingEnds(a: Alphabet, left: nat)
    ensures left < 16 ==> DecodeFrom(a, "==", 2, left, 0) == Some([])
    ensures left < 4 ==> DecodeFrom(a, "=", 3, left, 0) == Some([])
  {
    assert "=="[1..] == "=";
  }

  lemma EmptyRoundTrip(a: Alphabet)
    ensures DecodeFrom(a, Encode(a, []), 0, 0, 0) == Some([])
  {
  }

  lemma OneByteRoundTrip(a: Alphabet, x: Byte)
    ensures DecodeFrom(a, Encode(a, [x]), 0, 0, 0) == Some([x])
  {
    hide DecodeFrom, Symbol;
    var p, q := x / 4, x % 4 * 16;
    Regroup(x, 0, 0);
    assert Encode(a, [x]) == [Symbol(a, p)] + ([Symbol(a, q)] + "==");
    ReadSymbol(a, p, [Symbol(a, q)] + "==", 0, 0);
    ReadSymbol(a, q, "==", 1, p);
    PaddingEnds(a, q % 16);
    var none: seq<Byte> := [];
    assert [x] + none == [x];
  }

  lemma TwoBytesRoundTrip(a: Alphabet, x: Byte, y: Byte)
    ensures DecodeFrom(a, Encode(a, [x, y]), 0, 0, 0) == Some([x, y])
  {
    hide DecodeFrom, Symbol;
    var p, q, r := x / 4, x % 4 * 16 + y / 16, y % 16 * 4;
    Regroup(x, y, 0);
    var tail := [Symbol(a, r)] + "=";
    assert Encode(a, [x, y]) == [Symbol(a, p)] + ([Symbol(a, q)] + tail);
    ReadSymbol(a, p, [Symbol(a, q)] + tail, 0, 0);
    ReadSymbol(a, q, tail, 1, p);
    ReadSymbol(a, r, "=", 2, q % 16);
    PaddingEnds(a, r % 4);
    var none: seq<Byte> := [];
    assert [x] + ([y] + none) == [x, y];
  }

  lemma EncodeStep(a: Alphabet, b: seq<Byte>)
    requires |b| >= 3
    ensures Encode(a, b) == Group(a, b[0], b[1], b[2]) + Encode(a, b[3..])
  {
    hide Group, Symbol, IsSymbol;
    var tail := Bare(a, b[3..]);
    assert Bare(a, b) == Group(a, b[0], b[1], b[2]) + tail;
    assert Padding(|Bare(a, b)|) == Padding(|tail|);
  }

  lemma {:induction false} SymbolsRoundTrip(a: Alphabet, b: seq<Byte>)
    ensures DecodeFrom(a, Encode(a, b), 0, 0, 0) == Some(b)
  {
    hide DecodeFrom, Encode, Bare, Group, Padding, IsSymbol;
    if |b| == 1 {
      OneByteRoundTrip(a, b[0]);
      assert b == [b[0]];
    } else if |b| == 2 {
      TwoBytesRoundTrip(a, b[0], b[1]);
      assert b == [b[0], b[1]];
    } else if |b| >= 3 {
      SymbolsRoundTrip(a, b[3..]);
      EncodeStep(a, b);
      GroupRoundTrip(a, b[0], b[1], b[2], Encode(a, b[3..]), b[3..]);
      assert b == [b[0], b[1], b[2]] + b[3..];
    } else {
      EmptyRoundTrip(a);
    }
  }

  lemma PaddedRoundTrip(a: Alphabet, b: seq<Byte>)
    ensures Decode(a, Encode(a, b)) == Some(b)
  {
    hide DecodeFrom, Encode, Bare;
    Symbols(a, b);
    SymbolsRoundTrip(a, b);
  }

  /** What the decoder skips: a character outside the alphabet that is not padding changes nothing. So a
      key can be written in many ways. */
  lemma {:induction false} StrayIsSkipped(a: Alphabet, s: string, c: char, rest: string,
                                          quad: nat, left: nat, pads: nat)
    requires Leftover(quad, left) && c != '=' && Sextet(a, c) == None
    ensures DecodeFrom(a, s + [c] + rest, quad, left, pads) == DecodeFrom(a, s + rest, quad, left, pads)
    decreases |s|
  {
    hide Sextet, Emit;
    var with, without := s + [c] + rest, s + rest;
    if s == "" {
      assert with[0] == c && with[1..] == rest && without == rest;
    } else {
      assert with[0] == without[0] == s[0] && with[1..] == s[1..] + [c] + rest && without[1..] == s[1..] + rest;
      forall q: nat, l: nat, p: nat | Leftover(q, l)
        ensures DecodeFrom(a, s[1..] + [c] + rest, q, l, p) == DecodeFrom(a, s[1..] + rest, q, l, p)
      {
        StrayIsSkipped(a, s[1..], c, rest, q, l, p);
      }
    }
  }

  // ---------- unpadded, URL-safe ----------

  function UrlEncode(b: seq<Byte>): string {
    StripRight(Just('='), Encode(UrlSafe, b))
  }

  function UrlDecode(s: string): Option<seq<Byte>> {
    Decode(UrlSafe, s + Padding(|s|))
  }

  /** Stripping removes exactly the padding. */
  lemma {:induction false} StripPadding(s: string, pad: string)
    requires '=' !in s && All(Just('='), pad)
    ensures StripRight(Just('='), s + pad) == s
    decreases |pad|
  {
    if pad == "" {
      assert s + pad == s;
    } else {
      assert (s + pad)[..|s + pad| - 1] == s + pad[..|pad| - 1];
      StripPadding(s, pad[..|pad| - 1]);
    }
  }

  /** Decoding restores exactly the bytes: re-padding puts back what encoding stripped. */
  lemma UrlRoundTrip(b: seq<Byte>)
    ensures UrlDecode(UrlEncode(b)) == Some(b)
  {
    var s := Bare(UrlSafe, b);
    StripPadding(s, Padding(|s|));
    PaddedRoundTrip(UrlSafe, b);
  }

  /** The unpadded length is four thirds of the number of bytes, rounded up. */
  lemma UrlLength(b: seq<Byte>)
    ensures |UrlEncode(b)| == (4 * |b| + 2) / 3
  {
    var s := Bare(UrlSafe, b);
    StripPadding(s, Padding(|s|));
  }

  // ---------- characters that occur ----------

  lemma {:induction false} Symbols(a: Alphabet, b: seq<Byte>)
    ensures forall c :: c in Bare(a, b) ==> IsSymbol(c)
    ensures forall c :: c in Encode(a, b) ==> IsSymbol(c)
  {
    hide Symbol;
    if |b| >= 3 {
      Symbols(a, b[3..]);
    }
  }

  lemma UrlSymbols(b: seq<Byte>)
    ensures forall c :: c in UrlEncode(b) ==> IsSymbol(c)
  {
    var s := Bare(UrlSafe, b);
    StripPadding(s, Padding(|s|));
    Symbols(UrlSafe, b);
  }
}
