/** The canonical JSON the gateway hashes: `json.dumps(obj, sort_keys=True, separators=(",", ":"))`
    on flat objects of null, numbers and strings, with Python's default ASCII escaping, and the
    decoder that undoes it. A `char` is a Unicode scalar value. */
module Json {
  import opened Wrappers
  import opened Text

  datatype Value = Null | Flag(b: bool) | Whole(i: int) | Number(thousandths: int) | String(text: string)
  datatype Member = Member(name: string, value: Value)

  // ---------- strings (section 7 of RFC 8259) ----------

  function HexChar(d: nat): (c: char)
    requires d < 16
  {
    if d < 10 then ('0' as int + d) as char else ('a' as int + (d - 10)) as char
  }

  function HexValue(c: char): Option<nat> {
    if '0' <= c <= '9' then Some(c as int - '0' as int)
    else if 'a' <= c <= 'f' then Some(c as int - 'a' as int + 10)
    else None
  }

  /** A UTF-16 code unit as `\uXXXX`. */
  function UnitEscape(u: nat): (s: string)
    requires u < 0x10000
    ensures |s| == 6
  {
    ['\\', 'u', HexChar(u / 0x1000), HexChar(u / 0x100 % 16), HexChar(u / 0x10 % 16), HexChar(u % 16)]
  }

  function ParseUnit(s: string): (r: Option<nat>)
    ensures r.Some? ==> r.value < 0x10000 && |s| >= 6
  {
    if |s| < 6 || s[0] != '\\' || s[1] != 'u' then None
    else
      var a :- HexValue(s[2]);
      var b :- HexValue(s[3]);
      var c :- HexValue(s[4]);
      var d :- HexValue(s[5]);
      Some(a * 0x1000 + b * 0x100 + c * 0x10 + d)
  }

  lemma HexRoundTrip(d: nat)
    requires d < 16
    ensures HexValue(HexChar(d)) == Some(d)
  {
  }

  lemma UnitRoundTrip(u: nat, rest: string)
    requires u < 0x10000
    ensures ParseUnit(UnitEscape(u) + rest) == Some(u)
  {
    hide HexValue, HexChar;
    var a, b, c, d := u / 0x1000, u / 0x100 % 16, u / 0x10 % 16, u % 16;
    HexRoundTrip(a);
    HexRoundTrip(b);
    HexRoundTrip(c);
    HexRoundTrip(d);
    var s := UnitEscape(u) + rest;
    assert s[..6] == UnitEscape(u);
    assert u / 0x10 == u / 0x100 * 16 + c && u / 0x100 == a * 16 + b;
  }

  /** Characters with a two-character escape. */
  function ShortEscape(c: char): Option<char> {
    if c == '"' then Some('"')
    else if c == '\\' then Some('\\')
    else if c == '\n' then Some('n')
    else if c == '\r' then Some('r')
    else if c == '\t' then Some('t')
    else if c as int == 0x0c then Some('f')
    else if c as int == 0x08 then Some('b')
    else None
  }

  function ShortUnescape(e: char): Option<char> {
    if e == '"' then Some('"')
    else if e == '\\' then Some('\\')
    else if e == 'n' then Some('\n')
    else if e == 'r' then Some('\r')
    else if e == 't' then Some('\t')
    else if e == 'f' then Some(0x0c as char)
    else if e == 'b' then Some(0x08 as char)
    else None
  }

  function EscapeChar(c: char): (s: string)
    ensures 0 < |s|
  {
    var short := ShortEscape(c);
    if short.Some? then ['\\', short.value]
    else if ' ' <= c <= '~' then [c]
    else if c as int < 0x10000 then UnitEscape(c as int)
    else
      var v := c as int - 0x10000;
      UnitEscape(0xd800 + v / 0x400) + UnitEscape(0xdc00 + v % 0x400)
  }

  function Escape(s: string): string {
    if s == "" then "" else EscapeChar(s[0]) + Escape(s[1..])
  }

  /** Reads one, possibly escaped, character. */
  function ParseChar(s: string): (r: Option<(char, string)>)
    ensures r.Some? ==> |r.value.1| < |s|
  {
    if s == "" || s[0] == '"' then None
    else if s[0] != '\\' then Some((s[0], s[1..]))
    else if |s| == 1 then None
    else if s[1] != 'u' then
      var c :- ShortUnescape(s[1]);
      Some((c, s[2..]))
    else
      var u :- ParseUnit(s);
      if u < 0xd800 || u >= 0xe000 then Some((u as char, s[6..]))
      else
        var v :- ParseUnit(s[6..]);
        if u < 0xdc00 && 0xdc00 <= v < 0xe000 then
          Some((((u - 0xd800) * 0x400 + (v - 0xdc00) + 0x10000) as char, s[12..]))
        else None
  }

  lemma CharRoundTrip(c: char, rest: string)
    ensures ParseChar(EscapeChar(c) + rest) == Some((c, rest))
  {
    hide UnitEscape, ParseUnit;
    assert (EscapeChar(c) + rest)[|EscapeChar(c)|..] == rest;
    if ShortEscape(c).None? && !(' ' <= c <= '~') {
      if c as int < 0x10000 {
        UnitRoundTrip(c as int, rest);
        UnitStart(c as int, rest);
      } else {
        PairRoundTrip(c, rest);
      }
    }
  }

  /** A character outside the basic plane is written as a surrogate pair. */
  lemma PairRoundTrip(c: char, rest: string)
    requires c as int >= 0x10000
    ensures ParseChar(EscapeChar(c) + rest) == Some((c, rest))
  {
    hide UnitEscape, ParseUnit, ShortEscape, ShortUnescape;
    var v := c as int - 0x10000;
    var high, low := 0xd800 + v / 0x400, 0xdc00 + v % 0x400;
    var tail := UnitEscape(low) + rest;
    assert ShortEscape(c).None? by { ShortIsAscii(c); }
    assert EscapeChar(c) + rest == UnitEscape(high) + tail;
    assert (UnitEscape(high) + tail)[6..] == tail && tail[6..] == rest;
    UnitRoundTrip(high, tail);
    UnitStart(high, tail);
    UnitRoundTrip(low, rest);
  }

  lemma ShortIsAscii(c: char)
    ensures ShortEscape(c).Some? ==> c as int < 0x80
  {
  }

  lemma UnitStart(u: nat, rest: string)
    requires u < 0x10000
    ensures (UnitEscape(u) + rest)[..2] == "\\u"
  {
  }

  /** Reads characters up to the closing quote, which it consumes. */
  function ParseStringTail(s: string): (r: Option<(string, string)>)
    ensures r.Some? ==> |r.value.1| < |s|
    decreases |s|
  {
    if s == "" then None
    else if s[0] == '"' then Some(("", s[1..]))
    else
      var (c, more) :- ParseChar(s);
      var (cs, rest) :- ParseStringTail(more);
      Some(([c] + cs, rest))
  }

  function Quote(t: string): string {
    "\"" + Escape(t) + "\""
  }

  lemma {:induction false} StringTailRoundTrip(t: string, rest: string)
    ensures ParseStringTail(Escape(t) + "\"" + rest) == Some((t, rest))
  {
    var s := Escape(t) + "\"" + rest;
    if t == "" {
      assert s == "\"" + rest;
    } else {
      hide ParseChar, EscapeChar;
      var more := Escape(t[1..]) + "\"" + rest;
      assert s == EscapeChar(t[0]) + more;
      CharRoundTrip(t[0], more);
      EscapeStart(t[0], more);
      StringTailRoundTrip(t[1..], rest);
      assert [t[0]] + t[1..] == t;
    }
  }

  lemma EscapeStart(c: char, rest: string)
    ensures (EscapeChar(c) + rest)[0] != '"'
  {
  }

  // ---------- values ----------

  function Encode(v: Value): (s: string)
    ensures |s| > 0
  {
    match v
    case Null => "null"
    case Flag(b) => if b then "true" else "false"
    case Whole(i) => Text.Integer(i)
    case Number(n) => Thousandths(n)
    case String(t) => Quote(t)
  }

  function Parse(s: string): Option<(Value, string)> {
    if s == "" then None
    else if s[0] == '"' then
      var (t, rest) :- ParseStringTail(s[1..]);
      Some((String(t), rest))
    else if s[0] == 'n' then
      if |s| >= 4 && s[..4] == "null" then Some((Null, s[4..])) else None
    else if s[0] == 't' then
      if |s| >= 4 && s[..4] == "true" then Some((Flag(true), s[4..])) else None
    else if s[0] == 'f' then
      if |s| >= 5 && s[..5] == "false" then Some((Flag(false), s[5..])) else None
    else
      ParseNumber(s)
  }

  /** A number with a point is a float, one without is an int. */
  function ParseNumber(s: string): Option<(Value, string)> {
    var (i, rest) :- ParseInteger(s);
    if rest != "" && rest[0] == '.' then
      var (n, more) :- ParseThousandths(s);
      Some((Number(n), more))
    else Some((Whole(i), rest))
  }

  predicate EndsValue(rest: string) {
    rest == "" || rest[0] == ',' || rest[0] == '}'
  }

  lemma NumberRoundTrip(n: int, rest: string)
    requires EndsValue(rest)
    ensures ParseNumber(Text.Integer(n) + rest) == Some((Whole(n), rest))
    ensures ParseNumber(Thousandths(n) + rest) == Some((Number(n), rest))
  {
    hide ParseInteger, ParseThousandths, Thousandths, Text.Integer;
    assert Stops(Digits, rest);
    IntegerRoundTrip(n, rest);
    ThousandthsRoundTrip(n, rest);
    DecimalPoint(n, rest);
  }

  lemma ValueRoundTrip(v: Value, rest: string)
    requires EndsValue(rest)
    ensures Parse(Encode(v) + rest) == Some((v, rest))
  {
    hide Thousandths, Text.Integer, ParseNumber, Escape, ParseStringTail, EndsValue;
    var s := Encode(v) + rest;
    assert s[0] == Encode(v)[0];
    match v
    case Null =>
      assert s[..4] == "null" && s[4..] == rest;
    case Flag(b) =>
      var n := if b then 4 else 5;
      assert s[..n] == Encode(v) && s[n..] == rest;
    case Whole(i) =>
      NumberRoundTrip(i, rest);
    case Number(n) =>
      NumberRoundTrip(n, rest);
    case String(t) =>
      StringTailRoundTrip(t, rest);
      assert s[1..] == Escape(t) + "\"" + rest;
  }

  // ---------- objects ----------

  function EncodeMember(m: Member): string {
    Quote(m.name) + ":" + Encode(m.value)
  }

  function EncodeMembers(ms: seq<Member>): string {
    if ms == [] then "}"
    else EncodeMember(ms[0]) + (if |ms| == 1 then "" else ",") + EncodeMembers(ms[1..])
  }

  /** `json.dumps` of a nonempty object whose members come in the given order. */
  function EncodeObject(ms: seq<Member>): string {
    "{" + EncodeMembers(ms)
  }

  /** How an object is laid out: its members between braces, separated by commas and without spaces. */
  lemma ObjectIsJoined(ms: seq<Member>, texts: seq<string>)
    requires ms != [] && |texts| == |ms| && forall i :: 0 <= i < |ms| ==> texts[i] == EncodeMember(ms[i])
    ensures EncodeObject(ms) == "{" + Join(',', texts) + "}"
  {
    MembersAreJoined(ms, texts);
    assert "{" + (Join(',', texts) + "}") == "{" + Join(',', texts) + "}";
  }

  lemma {:induction false} MembersAreJoined(ms: seq<Member>, texts: seq<string>)
    requires ms != [] && |texts| == |ms| && forall i :: 0 <= i < |ms| ==> texts[i] == EncodeMember(ms[i])
    ensures EncodeMembers(ms) == Join(',', texts) + "}"
  {
    hide EncodeMember;
    if |ms| == 1 {
      assert EncodeMember(ms[0]) + "" + "}" == EncodeMember(ms[0]) + "}";
    } else {
      MembersAreJoined(ms[1..], texts[1..]);
      assert texts[0] + "," + (Join(',', texts[1..]) + "}") == texts[0] + [','] + Join(',', texts[1..]) + "}";
    }
  }

  predicate IsPlain(c: char) {
    ' ' <= c <= '~' && c != '"' && c != '\\'
  }

  /** Printable ASCII without quotes and backslashes stands for itself between quotes. */
  lemma {:induction false} PlainIsItself(t: string)
    requires forall c :: c in t ==> IsPlain(c)
    ensures Escape(t) == t && Quote(t) == "\"" + t + "\""
  {
    if t != "" {
      assert t[0] in t && forall c :: c in t[1..] ==> c in t;
      PlainIsItself(t[1..]);
      PlainChar(t[0]);
      hide EscapeChar, IsPlain;
      assert [t[0]] + t[1..] == t;
    }
  }

  lemma PlainChar(c: char)
    requires IsPlain(c)
    ensures EscapeChar(c) == [c]
  {
  }

  /** Every other character of the basic plane is a short escape or four hexadecimal digits of its number. */
  lemma OthersAreEscaped(c: char)
    requires !IsPlain(c)
    ensures var digits := "0123456789abcdef";
            EscapeChar(c) == if c == '"' then "\\\"" else if c == '\\' then "\\\\" else if c == '\n' then "\\n"
                             else if c == '\r' then "\\r" else if c == '\t' then "\\t"
                             else if c as int == 8 then "\\b" else if c as int == 12 then "\\f"
                             else if c as int >= 0x10000 then EscapeChar(c)
                             else "\\u" + [digits[c as int / 4096], digits[c as int / 256 % 16],
                                           digits[c as int / 16 % 16], digits[c as int % 16]]
  {
    HexDigits();
  }

  lemma HexDigits()
    ensures forall d :: 0 <= d < 16 ==> HexChar(d) == "0123456789abcdef"[d]
  {
  }

  /** How the other values read. */
  lemma ValuesRead()
    ensures Encode(Null) == "null" && Encode(Flag(true)) == "true" && Encode(Flag(false)) == "false"
    ensures Encode(Whole(-120)) == "-120" && Encode(Number(-1500)) == "-1.5" && Encode(Number(20060)) == "20.06"
  {
    NumbersRead();
  }

  function ParseMember(s: string): Option<(Member, string)> {
    if s == "" || s[0] != '"' then None
    else
      var (name, more) :- ParseStringTail(s[1..]);
      if more == "" || more[0] != ':' then None
      else
        var (v, rest) :- Parse(more[1..]);
        Some((Member(name, v), rest))
  }

  function ParseMembers(s: string): Option<seq<Member>>
    decreases |s|
  {
    var (m, rest) :- ParseMember(s);
    if rest == "}" then Some([m])
    else if rest == "" || rest[0] != ',' || |rest| > |s| then None
    else
      var ms :- ParseMembers(rest[1..]);
      Some([m] + ms)
  }

  function ParseObject(s: string): Option<seq<Member>> {
    if s == "" || s[0] != '{' then None else ParseMembers(s[1..])
  }

  lemma MemberRoundTrip(m: Member, rest: string)
    requires EndsValue(rest)
    ensures ParseMember(EncodeMember(m) + rest) == Some((m, rest))
  {
    hide Escape, ParseStringTail, Encode, Parse, EndsValue;
    var value := Encode(m.value) + rest;
    var s := EncodeMember(m) + rest;
    assert s == ['"'] + (Escape(m.name) + "\"" + (":" + value));
    assert s[1..] == Escape(m.name) + "\"" + (":" + value);
    StringTailRoundTrip(m.name, ":" + value);
    assert (":" + value)[1..] == value;
    ValueRoundTrip(m.value, rest);
  }

  lemma {:induction false} MembersRoundTrip(ms: seq<Member>)
    requires ms != []
    ensures ParseMembers(EncodeMembers(ms)) == Some(ms)
  {
    hide ParseMember, EncodeMember;
    var s := EncodeMembers(ms);
    if |ms| == 1 {
      assert s == EncodeMember(ms[0]) + "}" && ms == [ms[0]];
      MemberRoundTrip(ms[0], "}");
    } else {
      var more := EncodeMembers(ms[1..]);
      assert s == EncodeMember(ms[0]) + ("," + more);
      MemberRoundTrip(ms[0], "," + more);
      assert ("," + more)[1..] == more;
      MembersRoundTrip(ms[1..]);
      assert more != "";
      assert ms == [ms[0]] + ms[1..];
    }
  }

  /** Decoding undoes encoding, so the canonical text determines every member. */
  lemma ObjectRoundTrip(ms: seq<Member>)
    requires ms != []
    ensures ParseObject(EncodeObject(ms)) == Some(ms)
  {
    MembersRoundTrip(ms);
    assert EncodeObject(ms)[1..] == EncodeMembers(ms);
  }
}
