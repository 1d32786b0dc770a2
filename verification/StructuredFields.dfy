/** Structured field values of RFC 8941 as the gateway meets them: an inner list of items with parameters,
    its serialization (section 4.1.1.1), and the reader that undoes it. */
module StructuredFields {
  import opened Wrappers
  import opened Text
  import Base64

  datatype BareItem =
    | Integer(i: int)
    | Fixed(thousandths: int)  // a Decimal, which has at most three fractional digits
    | Str(s: string)
    | Token(t: string)
    | Bytes(b: seq<Base64.Byte>)
    | Boolean(flag: bool)
  {
    /** Whether Python finds the item equal to the string `name`: a Token compares as its text. */
    predicate Reads(name: string) {
      this == Str(name) || this == Token(name)
    }
  }

  datatype Param = Param(key: string, value: BareItem)
  datatype Item = Item(value: BareItem, params: seq<Param>)
  datatype InnerList = InnerList(items: seq<Item>, params: seq<Param>)

  /** Python's `dict(params).get(key)`; keys are unique. */
  function Lookup(params: seq<Param>, key: string): Option<BareItem> {
    if params == [] then None
    else if params[0].key == key then Some(params[0].value)
    else Lookup(params[1..], key)
  }

  // ---------- what the grammar allows ----------

  predicate Printable(s: string) {
    forall c :: c in s ==> ' ' <= c <= '~'
  }

  predicate ValidToken(t: string) {
    t != "" && ('A' <= t[0] <= 'Z' || 'a' <= t[0] <= 'z' || t[0] == '*') && All(TokenChars, t)
  }

  predicate ValidKey(k: string) {
    k != "" && ('a' <= k[0] <= 'z' || k[0] == '*') && All(KeyChars, k)
  }

  predicate ValidBare(v: BareItem) {
    match v
    case Str(s) => Printable(s)
    case Token(t) => ValidToken(t)
    case _ => true
  }

  predicate ValidParam(p: Param) {
    ValidKey(p.key) && ValidBare(p.value)
  }

  predicate ValidParams(ps: seq<Param>) {
    forall p :: p in ps ==> ValidParam(p)
  }

  predicate ValidItem(i: Item) {
    ValidBare(i.value) && ValidParams(i.params)
  }

  predicate ValidItems(items: seq<Item>) {
    forall i :: i in items ==> ValidItem(i)
  }

  predicate Valid(l: InnerList) {
    ValidItems(l.items) && ValidParams(l.params)
  }

  // ---------- strings ----------

  function Escape(s: string): string {
    if s == "" then ""
    else (if s[0] == '"' || s[0] == '\\' then ['\\', s[0]] else [s[0]]) + Escape(s[1..])
  }

  function Quote(s: string): string {
    "\"" + Escape(s) + "\""
  }

  function ParseTail(s: string): (r: Option<(string, string)>)
    ensures r.Some? ==> |r.value.1| < |s|
  {
    if s == "" then None
    else if s[0] == '"' then Some(("", s[1..]))
    else if s[0] == '\\' then
      if |s| == 1 then None
      else
        var (cs, rest) :- ParseTail(s[2..]);
        Some(([s[1]] + cs, rest))
    else
      var (cs, rest) :- ParseTail(s[1..]);
      Some(([s[0]] + cs, rest))
  }

  lemma {:induction false} TailRoundTrip(t: string, rest: string)
    ensures ParseTail(Escape(t) + "\"" + rest) == Some((t, rest))
  {
    var s := Escape(t) + "\"" + rest;
    if t == "" {
      assert s == "\"" + rest;
    } else {
      var more := Escape(t[1..]) + "\"" + rest;
      var head := if t[0] == '"' || t[0] == '\\' then ['\\', t[0]] else [t[0]];
      assert s == head + more;
      assert s[|head|..] == more;
      TailRoundTrip(t[1..], rest);
      assert [t[0]] + t[1..] == t;
    }
  }

  // ---------- bare items (section 4.1.3.1) ----------

  function Bare(v: BareItem): string {
    match v
    case Integer(i) => Text.Integer(i)
    case Fixed(m) => Thousandths(m)
    case Str(s) => Quote(s)
    case Token(t) => t
    case Bytes(b) => ":" + Base64.Encode(Base64.Standard, b) + ":"
    case Boolean(flag) => if flag then "?1" else "?0"
  }

  /** What can follow a bare item in a serialized inner list. */
  predicate Ends(rest: string) {
    rest == "" || rest[0] == ';' || rest[0] == ' ' || rest[0] == ')'
  }

  function ParseNumber(s: string): Option<(BareItem, string)> {
    var (i, rest) :- ParseInteger(s);
    if rest != "" && rest[0] == '.' then
      var (m, more) :- ParseThousandths(s);
      Some((Fixed(m), more))
    else Some((Integer(i), rest))
  }

  function ParseBytes(s: string): Option<(BareItem, string)> {
    var n := Span(Except(':'), s);
    if n == |s| then None
    else
      var b :- Base64.Decode(Base64.Standard, s[..n]);
      Some((Bytes(b), s[n + 1..]))
  }

  function ParseBare(s: string): Option<(BareItem, string)> {
    if s == "" then None
    else if s[0] == '"' then
      var (t, rest) :- ParseTail(s[1..]);
      Some((Str(t), rest))
    else if s[0] == ':' then ParseBytes(s[1..])
    else if s[0] == '?' then
      if |s| > 1 && (s[1] == '1' || s[1] == '0') then Some((Boolean(s[1] == '1'), s[2..])) else None
    else if s[0] == '-' || IsDigit(s[0]) then ParseNumber(s)
    else
      var n := Span(TokenChars, s);
      if n == 0 then None else Some((Token(s[..n]), s[n..]))
  }

  lemma IntegerItemRoundTrip(i: int, rest: string)
    requires Ends(rest)
    ensures ParseNumber(Text.Integer(i) + rest) == Some((Integer(i), rest))
  {
    hide ParseInteger, ParseThousandths, Text.Integer;
    assert Stops(Digits, rest);
    IntegerRoundTrip(i, rest);
  }

  lemma FixedItemRoundTrip(m: int, rest: string)
    requires Ends(rest)
    ensures ParseNumber(Thousandths(m) + rest) == Some((Fixed(m), rest))
  {
    hide ParseInteger, ParseThousandths, Thousandths;
    assert Stops(Digits, rest);
    ThousandthsRoundTrip(m, rest);
    DecimalPoint(m, rest);
  }

  lemma BytesItemRoundTrip(b: seq<Base64.Byte>, rest: string)
    ensures ParseBytes(Base64.Encode(Base64.Standard, b) + ":" + rest) == Some((Bytes(b), rest))
  {
    hide Base64.Encode, Base64.Decode;
    var e := Base64.Encode(Base64.Standard, b);
    Base64.Symbols(Base64.Standard, b);
    Base64.PaddedRoundTrip(Base64.Standard, b);
    assert e + ":" + rest == e + (":" + rest);
    FreeIsAll(':', e);
    SpanAppend(Except(':'), e, ":" + rest);
    assert (e + (":" + rest))[|e| + 1..] == rest;
  }

  lemma TokenItemRoundTrip(t: string, rest: string)
    requires ValidToken(t) && Ends(rest)
    ensures ParseBare(t + rest) == Some((Token(t), rest))
  {
    hide ParseNumber, ParseBytes, ParseTail;
    assert Stops(TokenChars, rest);
    SpanAppend(TokenChars, t, rest);
    assert (t + rest)[0] == t[0];
  }

  /** Anything that begins like a number is read as one. */
  lemma ParseBareNumber(number: string, rest: string)
    requires number != "" && (number[0] == '-' || IsDigit(number[0]))
    ensures ParseBare(number + rest) == ParseNumber(number + rest)
  {
    hide ParseNumber, ParseBytes, ParseTail;
    assert (number + rest)[0] == number[0];
  }

  lemma StrItemRoundTrip(t: string, rest: string)
    ensures ParseBare(Quote(t) + rest) == Some((Str(t), rest))
  {
    hide ParseNumber, ParseBytes, ParseTail, Escape;
    TailRoundTrip(t, rest);
    assert (Quote(t) + rest)[1..] == Escape(t) + "\"" + rest;
  }

  lemma ColonItemRoundTrip(b: seq<Base64.Byte>, rest: string)
    ensures ParseBare(Bare(Bytes(b)) + rest) == Some((Bytes(b), rest))
  {
    hide ParseBytes, Base64.Encode;
    BytesItemRoundTrip(b, rest);
    var e := Base64.Encode(Base64.Standard, b);
    assert (":" + e + ":" + rest)[1..] == e + ":" + rest;
  }

  lemma FlagItemRoundTrip(flag: bool, rest: string)
    ensures ParseBare(Bare(Boolean(flag)) + rest) == Some((Boolean(flag), rest))
  {
    hide ParseNumber, ParseBytes, ParseTail;
    assert (Bare(Boolean(flag)) + rest)[2..] == rest;
  }

  lemma BareRoundTrip(v: BareItem, rest: string)
    requires ValidBare(v) && Ends(rest)
    ensures ParseBare(Bare(v) + rest) == Some((v, rest))
  {
    hide ParseBare, ParseNumber, Text.Integer, Thousandths, Quote, Base64.Encode, Ends;
    match v
    case Integer(i) =>
      IntegerItemRoundTrip(i, rest);
      ParseBareNumber(Text.Integer(i), rest);
    case Fixed(m) =>
      FixedItemRoundTrip(m, rest);
      ParseBareNumber(Thousandths(m), rest);
    case Str(t) => StrItemRoundTrip(t, rest);
    case Token(t) => TokenItemRoundTrip(t, rest);
    case Bytes(b) => ColonItemRoundTrip(b, rest);
    case Boolean(flag) => FlagItemRoundTrip(flag, rest);
  }

  // ---------- parameters (section 4.1.1.2) ----------

  function OneParam(p: Param): string {
    ";" + p.key + (if p.value == Boolean(true) then "" else "=" + Bare(p.value))
  }

  function Params(ps: seq<Param>): string {
    if ps == [] then "" else OneParam(ps[0]) + Params(ps[1..])
  }

  /** Reads a parameter whose semicolon has been read. */
  function ParseParam(s: string): Option<(Param, string)> {
    var n := Span(KeyChars, s);
    var key, rest := s[..n], s[n..];
    if rest != "" && rest[0] == '=' then
      var (v, more) :- ParseBare(rest[1..]);
      Some((Param(key, v), more))
    else Some((Param(key, Boolean(true)), rest))
  }

  function ParseParams(s: string): (r: Option<(seq<Param>, string)>)
    decreases |s|
  {
    if s == "" || s[0] != ';' then Some(([], s))
    else
      var (p, rest) :- ParseParam(s[1..]);
      if |rest| >= |s| then None
      else
        var (ps, more) :- ParseParams(rest);
        Some(([p] + ps, more))
  }

  /** What follows a complete list of parameters. */
  predicate EndsParams(rest: string) {
    rest == "" || rest[0] == ' ' || rest[0] == ')'
  }

  lemma ParamRoundTrip(p: Param, rest: string)
    requires ValidParam(p) && Ends(rest)
    ensures ParseParam(OneParam(p)[1..] + rest) == Some((p, rest))
  {
    hide ParseBare, Bare, ValidBare;
    var value := if p.value == Boolean(true) then "" else "=" + Bare(p.value);
    var s := OneParam(p)[1..] + rest;
    assert s == p.key + (value + rest);
    if p.value == Boolean(true) {
      assert value + rest == rest;
    } else {
      assert (value + rest)[1..] == Bare(p.value) + rest;
      BareRoundTrip(p.value, rest);
    }
    assert Stops(KeyChars, value + rest);
    SpanAppend(KeyChars, p.key, value + rest);
  }

  lemma {:induction false} ParamsRoundTrip(ps: seq<Param>, rest: string)
    requires ValidParams(ps) && EndsParams(rest)
    ensures ParseParams(Params(ps) + rest) == Some((ps, rest))
  {
    hide ParseParam, OneParam, ValidParams;
    if ps == [] {
      assert Params(ps) + rest == rest;
    } else {
      var more := Params(ps[1..]) + rest;
      ValidSplit(ps);
      ParamsEnd(ps[1..], rest);
      ParamRoundTrip(ps[0], more);
      OneParamStart(ps[0]);
      assert Params(ps) + rest == OneParam(ps[0]) + more;
      assert (OneParam(ps[0]) + more)[1..] == OneParam(ps[0])[1..] + more;
      ParamsRoundTrip(ps[1..], rest);
      assert [ps[0]] + ps[1..] == ps;
    }
  }

  lemma ValidSplit(ps: seq<Param>)
    requires ps != [] && ValidParams(ps)
    ensures ValidParam(ps[0]) && ValidParams(ps[1..])
  {
    assert ps[0] in ps && forall p :: p in ps[1..] ==> p in ps;
  }

  lemma OneParamStart(p: Param)
    ensures |OneParam(p)| > 0 && OneParam(p)[0] == ';'
  {
  }

  lemma ParamsEnd(ps: seq<Param>, rest: string)
    requires EndsParams(rest)
    ensures Ends(Params(ps) + rest)
  {
    if ps == [] {
      assert Params(ps) + rest == rest;
    } else {
      OneParamStart(ps[0]);
      assert (Params(ps) + rest)[0] == OneParam(ps[0])[0];
    }
  }

  // ---------- inner lists (section 4.1.1.1) ----------

  function OneItem(i: Item): string {
    Bare(i.value) + Params(i.params)
  }

  function Items(items: seq<Item>): string {
    if items == [] then ")"
    else OneItem(items[0]) + (if |items| == 1 then "" else " ") + Items(items[1..])
  }

  function Serialize(l: InnerList): string {
    "(" + Items(l.items) + Params(l.params)
  }

  /** An item and parameters as sections 4.1.1.2 and 4.1.3 of RFC 8941 write them; a list puts its items between
      parentheses, separated by spaces. */
  lemma WrittenItem()
    ensures OneItem(Item(Str("a\"b"), [Param("k", Boolean(true)), Param("f", Boolean(false))])) == "\"a\\\"b\";k;f=?0"
  {
    hide Escape;
    WrittenParts();
    var ps := [Param("k", Boolean(true)), Param("f", Boolean(false))];
    assert ps[1..] == [ps[1]] && [ps[1]][1..] == [];
    assert OneParam(ps[0]) == ";k" && OneParam(ps[1]) == ";f=?0";
    hide OneParam;
    assert Params([ps[1]]) == ";f=?0" && Params(ps) == ";k" + ";f=?0";
  }

  lemma WrittenParams()
    ensures Params([Param("n", Integer(-120)), Param("b", Bytes([102]))]) == ";n=-120;b=:Zg==:"
  {
    hide Base64.Encode, Text.Integer;
    WrittenParts();
    var ps := [Param("n", Integer(-120)), Param("b", Bytes([102]))];
    assert ps[1..] == [ps[1]] && [ps[1]][1..] == [];
    assert OneParam(ps[0]) == ";n=-120" && OneParam(ps[1]) == ";b=:Zg==:";
    hide OneParam;
    assert Params([ps[1]]) == ";b=:Zg==:" && Params(ps) == ";n=-120" + ";b=:Zg==:";
  }

  lemma WrittenList(a: Item, b: Item, ps: seq<Param>)
    ensures Serialize(InnerList([a, b], ps)) == "(" + OneItem(a) + " " + OneItem(b) + ")" + Params(ps)
    ensures Serialize(InnerList([], ps)) == "()" + Params(ps)
  {
    hide OneItem, Params;
    assert [a, b][1..] == [b] && [b][1..] == [];
    assert Items([b]) == OneItem(b) + "" + ")";
    assert "(" + (OneItem(a) + " " + Items([b])) == "(" + OneItem(a) + " " + OneItem(b) + ")";
  }

  lemma WrittenParts()
    ensures Quote("a\"b") == "\"a\\\"b\"" && Text.Integer(-120) == "-120"
    ensures Base64.Encode(Base64.Standard, [102]) == "Zg=="
  {
    Text.NumbersRead();
    Base64.OneByteReads();
    assert Escape("b") == "b" && Escape("\"b") == "\\\"b";
  }

  function ParseItem(s: string): Option<(Item, string)> {
    var (value, more) :- ParseBare(s);
    var (ps, rest) :- ParseParams(more);
    Some((Item(value, ps), rest))
  }

  function ParseItems(s: string): Option<(seq<Item>, string)>
    decreases |s|
  {
    if s != "" && s[0] == ')' then Some(([], s[1..]))
    else
      var (i, rest) :- ParseItem(s);
      if |rest| == 0 || |rest| >= |s| then None
      else if rest[0] == ' ' then
        var (others, more) :- ParseItems(rest[1..]);
        Some(([i] + others, more))
      else
        var (others, more) :- ParseItems(rest);
        if others == [] then Some(([i], more)) else None
  }

  function Parse(s: string): Option<InnerList> {
    if s == "" || s[0] != '(' then None
    else
      var (items, rest) :- ParseItems(s[1..]);
      var (ps, end) :- ParseParams(rest);
      if end == "" then Some(InnerList(items, ps)) else None
  }

  lemma ItemRoundTrip(i: Item, rest: string)
    requires ValidItem(i) && EndsParams(rest)
    ensures ParseItem(OneItem(i) + rest) == Some((i, rest))
  {
    hide ParseBare, Bare, ValidBare, Params, ParseParams, ValidParams;
    var ps := Params(i.params) + rest;
    assert OneItem(i) + rest == Bare(i.value) + ps;
    ParamsEnd(i.params, rest);
    BareRoundTrip(i.value, ps);
    ParamsRoundTrip(i.params, rest);
  }

  lemma {:induction false} ItemsRoundTrip(items: seq<Item>, rest: string)
    requires ValidItems(items)
    ensures ParseItems(Items(items) + rest) == Some((items, rest))
  {
    hide ParseItem, OneItem, ValidItem;
    if items == [] {
      assert (Items(items) + rest)[1..] == rest;
    } else {
      assert items[0] in items && forall i :: i in items[1..] ==> i in items;
      assert ValidItem(items[0]);
      var more := Items(items[1..]) + rest;
      var tail := if |items| == 1 then more else " " + more;
      assert |items| == 1 ==> items[1..] == [] && more[0] == ')';
      assert Items(items) + rest == OneItem(items[0]) + tail;
      assert (" " + more)[1..] == more;
      OneItemStart(items[0]);
      assert (OneItem(items[0]) + tail)[0] == OneItem(items[0])[0];
      ItemsRoundTrip(items[1..], rest);
      ItemRoundTrip(items[0], tail);
      if |items| == 1 {
        assert tail[0] == ')' && items == [items[0]];
      } else {
        assert tail[0] == ' ' && tail[1..] == more && items == [items[0]] + items[1..];
      }
    }
  }

  lemma OneItemStart(i: Item)
    requires ValidItem(i)
    ensures |OneItem(i)| > 0 && OneItem(i)[0] != ')'
  {
    hide Params, Text.Integer, Thousandths, Base64.Encode, Escape;
    assert |Bare(i.value)| > 0 && Bare(i.value)[0] != ')';
    assert OneItem(i)[0] == Bare(i.value)[0];
  }

  /** Reading undoes serializing, so the text determines the inner list. */
  lemma RoundTrip(l: InnerList)
    requires Valid(l)
    ensures Parse(Serialize(l)) == Some(l)
  {
    hide Items, ParseItems, Params, ParseParams, ValidParams, ValidItems;
    var ps := Params(l.params);
    assert Serialize(l)[1..] == Items(l.items) + ps;
    ItemsRoundTrip(l.items, ps);
    ParamsRoundTrip(l.params, "");
    assert ps + "" == ps;
  }

  // ---------- no line breaks ----------

  lemma {:induction false} EscapePrintable(s: string)
    requires Printable(s)
    ensures Printable(Escape(s))
  {
    if s != "" {
      assert s[0] in s && forall c :: c in s[1..] ==> c in s;
      EscapePrintable(s[1..]);
    }
  }

  lemma ThousandthsPrintable(m: int)
    ensures Printable(Thousandths(m))
  {
    DigitsPrintable(Decimal(Abs(m) / 1000));
    DigitsPrintable(Fraction(Abs(m) % 1000));
  }

  lemma DigitsPrintable(s: string)
    requires All(Digits, s)
    ensures Printable(s)
  {
    forall c | c in s ensures ' ' <= c <= '~' {
      var i :| 0 <= i < |s| && s[i] == c;
      assert Is(Digits, s[i]);
    }
  }

  lemma ClassPrintable(k: Class, s: string)
    requires All(k, s) && (k.KeyChars? || k.TokenChars?)
    ensures Printable(s)
  {
    forall c | c in s ensures ' ' <= c <= '~' {
      var i :| 0 <= i < |s| && s[i] == c;
      assert Is(k, s[i]);
    }
  }

  lemma BarePrintable(v: BareItem)
    requires ValidBare(v)
    ensures Printable(Bare(v))
  {
    hide Escape, Thousandths, Base64.Encode, Decimal, Is;
    match v
    case Integer(i) => DigitsPrintable(Decimal(Abs(i)));
    case Fixed(m) => ThousandthsPrintable(m);
    case Str(s) => EscapePrintable(s);
    case Token(t) => ClassPrintable(TokenChars, t);
    case Bytes(b) => Base64.Symbols(Base64.Standard, b);
    case Boolean(_) =>
  }

  lemma {:induction false} ParamsPrintable(ps: seq<Param>)
    requires ValidParams(ps)
    ensures Printable(Params(ps))
  {
    if ps != [] {
      assert ps[0] in ps;
      ClassPrintable(KeyChars, ps[0].key);
      BarePrintable(ps[0].value);
      hide Bare, ValidBare, All;
      ParamsPrintable(ps[1..]);
    }
  }

  lemma {:induction false} ItemsPrintable(items: seq<Item>)
    requires ValidItems(items)
    ensures Printable(Items(items))
  {
    if items != [] {
      hide Params, ValidParams, Bare, ValidBare;
      assert items[0] in items;
      BarePrintable(items[0].value);
      ParamsPrintable(items[0].params);
      ItemsPrintable(items[1..]);
    }
  }

  lemma SerializePrintable(l: InnerList)
    requires Valid(l)
    ensures Printable(Serialize(l))
  {
    ItemsPrintable(l.items);
    ParamsPrintable(l.params);
  }
}
