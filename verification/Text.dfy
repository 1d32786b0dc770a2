/** Text primitives shared by the JSON, structured-field and header code: decimal numbers,
    maximal prefixes, stripping, splitting, and the lexicographic order on strings. */
module Text {
  import opened Wrappers

  // ---------- maximal prefixes ----------

  /** The character classes the grammars below are written in. */
  datatype Class = Digits | Except(c: char) | KeyChars | TokenChars | Spaces | Just(c: char)

  predicate Is(k: Class, c: char) {
    match k
    case Digits => IsDigit(c)
    case Except(d) => c != d
    case KeyChars => 'a' <= c <= 'z' || IsDigit(c) || c in "_-.*"
    case TokenChars => 'a' <= c <= 'z' || 'A' <= c <= 'Z' || IsDigit(c) || c in "!#$%&'*+-.^_`|~:/"
    case Spaces => IsSpace(c)
    case Just(d) => c == d
  }

  predicate IsDigit(c: char) {
    '0' <= c <= '9'
  }

  /** The characters Python's `str.strip` removes. */
  predicate IsSpace(c: char) {
    var n := c as int;
    || 0x09 <= n <= 0x0d || 0x1c <= n <= 0x20 || n == 0x85 || n == 0xa0 || n == 0x1680
    || 0x2000 <= n <= 0x200a || n == 0x2028 || n == 0x2029 || n == 0x202f || n == 0x205f || n == 0x3000
  }

  /** Length of the longest prefix of `s` made of characters of class `k`. */
  function Span(k: Class, s: string): (n: nat)
    ensures n <= |s|
    ensures forall i :: 0 <= i < n ==> Is(k, s[i])
    ensures n < |s| ==> !Is(k, s[n])
  {
    if s == "" || !Is(k, s[0]) then 0 else 1 + Span(k, s[1..])
  }

  predicate All(k: Class, s: string) {
    forall i :: 0 <= i < |s| ==> Is(k, s[i])
  }

  /** `s` does not begin with a character of class `k`, so it ends any run of that class. */
  predicate Stops(k: Class, s: string) {
    s == "" || !Is(k, s[0])
  }

  lemma {:induction false} SpanAppend(k: Class, a: string, rest: string)
    requires All(k, a) && Stops(k, rest)
    ensures Span(k, a + rest) == |a|
    ensures (a + rest)[..|a|] == a && (a + rest)[|a|..] == rest
  {
    if a == "" {
      assert a + rest == rest;
    } else {
      assert (a + rest)[0] == a[0] && (a + rest)[1..] == a[1..] + rest;
      SpanAppend(k, a[1..], rest);
    }
  }

  // ---------- decimal numbers ----------

  function DigitChar(d: nat): (c: char)
    requires d < 10
    ensures IsDigit(c) && c as int - '0' as int == d
  {
    ('0' as int + d) as char
  }

  function Decimal(n: nat): (s: string)
    ensures |s| > 0 && All(Digits, s)
  {
    if n < 10 then [DigitChar(n)] else Decimal(n / 10) + [DigitChar(n % 10)]
  }

  function DecimalValue(s: string): nat
    requires All(Digits, s)
  {
    if s == "" then 0 else DecimalValue(s[..|s| - 1]) * 10 + (s[|s| - 1] as int - '0' as int)
  }

  lemma {:induction false} DecimalRoundTrip(n: nat)
    ensures DecimalValue(Decimal(n)) == n
  {
    if n >= 10 {
      DecimalRoundTrip(n / 10);
      assert Decimal(n)[..|Decimal(n)| - 1] == Decimal(n / 10);
    }
  }

  /** Reads the longest run of digits. */
  function ParseDecimal(s: string): Option<(nat, string)> {
    var n := Span(Digits, s);
    if n == 0 then None else Some((DecimalValue(s[..n]), s[n..]))
  }

  lemma ParseDecimalRoundTrip(n: nat, rest: string)
    requires Stops(Digits, rest)
    ensures ParseDecimal(Decimal(n) + rest) == Some((n, rest))
  {
    DecimalRoundTrip(n);
    SpanAppend(Digits, Decimal(n), rest);
  }

  function Abs(i: int): nat {
    if i < 0 then -i else i
  }

  function Signed(negative: bool, magnitude: Option<(nat, string)>): Option<(int, string)> {
    match magnitude
    case None => None
    case Some((v, rest)) => Some((if negative then 0 - v else v, rest))
  }

  /** Python's `str` of an int. */
  function Integer(i: int): (s: string)
    ensures |s| > 0 && (s[0] == '-' || IsDigit(s[0]))
  {
    if i < 0 then "-" + Decimal(Abs(i)) else Decimal(Abs(i))
  }

  function ParseInteger(s: string): Option<(int, string)> {
    if s != "" && s[0] == '-' then Signed(true, ParseDecimal(s[1..])) else Signed(false, ParseDecimal(s))
  }

  lemma IntegerRoundTrip(i: int, rest: string)
    requires Stops(Digits, rest)
    ensures ParseInteger(Integer(i) + rest) == Some((i, rest))
  {
    hide ParseDecimal, Decimal, Is;
    var body := Decimal(Abs(i)) + rest;
    ParseDecimalRoundTrip(Abs(i), rest);
    DecimalStart(Abs(i));
    assert body[0] == Decimal(Abs(i))[0];
    assert Integer(i) + rest == if i < 0 then "-" + body else body;
    assert ("-" + body)[1..] == body;
  }

  /** Two to the power of `n`. */
  function Pow2(n: nat): nat {
    if n == 0 then 1 else 2 * Pow2(n - 1)
  }

  // ---------- thousandths ----------

  /** The one to three fractional digits left of `m` thousandths once trailing zeros are dropped. */
  function Fraction(m: nat): (s: string)
    requires m < 1000
    ensures 1 <= |s| <= 3 && All(Digits, s)
  {
    if m % 100 == 0 then [DigitChar(m / 100)]
    else if m % 10 == 0 then [DigitChar(m / 100), DigitChar(m / 10 % 10)]
    else [DigitChar(m / 100), DigitChar(m / 10 % 10), DigitChar(m % 10)]
  }

  /** The digit at position `i`, zero beyond the end. */
  function DigitAt(s: string, i: nat): nat
    requires All(Digits, s)
  {
    if i < |s| then s[i] as int - '0' as int else 0
  }

  function FractionValue(s: string): nat
    requires All(Digits, s)
  {
    DigitAt(s, 0) * 100 + DigitAt(s, 1) * 10 + DigitAt(s, 2)
  }

  lemma FractionRoundTrip(m: nat)
    requires m < 1000
    ensures FractionValue(Fraction(m)) == m
  {
    var a, b, c := m / 100, m / 10 % 10, m % 10;
    assert m / 10 == a * 10 + b && m == m / 10 * 10 + c;
    var s := Fraction(m);
    assert DigitAt(s, 0) == a && DigitAt(s, 1) == b && DigitAt(s, 2) == c;
  }

  function Magnitude(m: nat): (s: string)
    ensures |s| > 0 && IsDigit(s[0])
  {
    Decimal(m / 1000) + "." + Fraction(m % 1000)
  }

  /** A number of thousandths written with a point and no superfluous zeros: Python's `repr` of a
      float rounded to three places, and a Decimal of section 4.1.5 of RFC 8941. */
  function Thousandths(m: int): (s: string)
    ensures |s| > 0 && (s[0] == '-' || IsDigit(s[0]))
  {
    if m < 0 then "-" + Magnitude(Abs(m)) else Magnitude(Abs(m))
  }

  function ParseMagnitude(s: string): Option<(nat, string)> {
    var (whole, rest) :- ParseDecimal(s);
    if rest == "" || rest[0] != '.' then None
    else
      var frac := rest[1..];
      var k := Span(Digits, frac);
      Some((whole * 1000 + FractionValue(frac[..k]), frac[k..]))
  }

  function ParseThousandths(s: string): Option<(int, string)> {
    if s != "" && s[0] == '-' then Signed(true, ParseMagnitude(s[1..])) else Signed(false, ParseMagnitude(s))
  }

  lemma MagnitudeRoundTrip(m: nat, rest: string)
    requires Stops(Digits, rest)
    ensures ParseMagnitude(Magnitude(m) + rest) == Some((m, rest))
  {
    hide ParseDecimal, Decimal, Fraction, FractionValue;
    var whole, frac := Decimal(m / 1000), Fraction(m % 1000);
    assert Magnitude(m) + rest == whole + ("." + (frac + rest));
    ParseDecimalRoundTrip(m / 1000, "." + (frac + rest));
    SpanAppend(Digits, frac, rest);
    FractionRoundTrip(m % 1000);
  }

  lemma ThousandthsRoundTrip(m: int, rest: string)
    requires Stops(Digits, rest)
    ensures ParseThousandths(Thousandths(m) + rest) == Some((m, rest))
  {
    hide ParseMagnitude, Magnitude, Is;
    var body := Magnitude(Abs(m)) + rest;
    MagnitudeRoundTrip(Abs(m), rest);
    assert body[0] == Magnitude(Abs(m))[0];
    assert Thousandths(m) + rest == if m < 0 then "-" + body else body;
    assert ("-" + body)[1..] == body;
  }

  /** Numbers as they read: the first digit is the highest, and zeros behind the last fractional digit are
      dropped. */
  lemma NumbersRead()
    ensures Integer(-120) == "-120" && Thousandths(-1500) == "-1.5" && Thousandths(20060) == "20.06"
  {
    assert Decimal(1) == "1" && Decimal(2) == "2";
    assert Decimal(12) == Decimal(1) + "2" && Decimal(20) == Decimal(2) + "0";
    assert Decimal(120) == Decimal(12) + "0";
    hide Decimal;
    assert Fraction(500) == "5" && Fraction(60) == "06";
    hide Fraction;
  }

  /** Reading the whole part of a Decimal stops at its point. */
  lemma DecimalPoint(m: int, rest: string)
    ensures exists i, more :: ParseInteger(Thousandths(m) + rest) == Some((i, "." + more))
  {
    hide ParseInteger, Fraction, Decimal;
    var n, sign := Abs(m) / 1000, if m < 0 then "-" else "";
    var fraction := Fraction(Abs(m) % 1000);
    var more := fraction + rest;
    PointInMiddle(sign, Decimal(n), fraction, rest);
    assert Thousandths(m) == sign + (Decimal(n) + "." + fraction);
    WholePart(m < 0, n, "." + more);
  }

  lemma PointInMiddle(sign: string, whole: string, fraction: string, rest: string)
    ensures sign + (whole + "." + fraction) + rest == sign + whole + ("." + (fraction + rest))
  {
  }

  lemma WholePart(negative: bool, n: nat, rest: string)
    requires Stops(Digits, rest)
    ensures exists i :: ParseInteger((if negative then "-" else "") + Decimal(n) + rest) == Some((i, rest))
  {
    hide ParseDecimal, Decimal, Is;
    var body := Decimal(n) + rest;
    ParseDecimalRoundTrip(n, rest);
    assert body[0] == Decimal(n)[0] && IsDigit(body[0]) by { DecimalStart(n); }
    assert ("-" + body)[1..] == body;
    assert (if negative then "-" else "") + Decimal(n) + rest == if negative then "-" + body else body;
  }

  lemma DecimalStart(n: nat)
    ensures IsDigit(Decimal(n)[0])
  {
    assert Is(Digits, Decimal(n)[0]);
  }

  // ---------- lines and parts ----------

  predicate Free(c: char, s: string) {
    c !in s
  }

  /** Python's `sep.join(parts)` for a one-character separator. */
  function Join(sep: char, parts: seq<string>): string {
    if parts == [] then ""
    else if |parts| == 1 then parts[0]
    else parts[0] + [sep] + Join(sep, parts[1..])
  }

  /** Python's `s.split(sep)` for a one-character separator: never empty. */
  function Split(sep: char, s: string): (parts: seq<string>)
    ensures |parts| > 0
    ensures forall p :: p in parts ==> Free(sep, p)
    decreases |s|
  {
    var n := Span(Except(sep), s);
    if n == |s| then [s] else [s[..n]] + Split(sep, s[n + 1..])
  }

  lemma FreeIsAll(c: char, s: string)
    requires Free(c, s)
    ensures All(Except(c), s)
  {
    forall i | 0 <= i < |s| ensures Is(Except(c), s[i]) { assert s[i] in s; }
  }

  lemma {:induction false} JoinLast(sep: char, parts: seq<string>, last: string)
    ensures Join(sep, parts + [last]) == if parts == [] then last else Join(sep, parts) + [sep] + last
  {
    if parts == [] {
    } else {
      assert (parts + [last])[1..] == parts[1..] + [last] && (parts + [last])[0] == parts[0];
      JoinLast(sep, parts[1..], last);
      if |parts| > 1 {
        var a, b := parts[0] + [sep], Join(sep, parts[1..]);
        assert a + (b + [sep] + last) == a + b + [sep] + last;
      }
    }
  }

  lemma {:induction false} JoinFree(c: char, sep: char, parts: seq<string>)
    requires c != sep && forall p :: p in parts ==> Free(c, p)
    ensures Free(c, Join(sep, parts))
  {
    if |parts| > 0 {
      assert parts[0] in parts && forall p :: p in parts[1..] ==> p in parts;
      JoinFree(c, sep, parts[1..]);
    }
  }

  lemma IntegerFree(c: char, i: int)
    requires c != '-' && !IsDigit(c)
    ensures Free(c, Integer(i))
  {
    var d := Decimal(Abs(i));
    forall k | 0 <= k < |d| ensures d[k] != c { assert Is(Digits, d[k]); }
  }

  /** What follows the last separator. */
  function AfterLast(sep: char, s: string): string {
    if Free(sep, s) then s else AfterLast(sep, s[1..])
  }

  lemma {:induction false} AfterLastAppend(sep: char, a: string, b: string)
    requires Free(sep, b)
    ensures AfterLast(sep, a + [sep] + b) == b
  {
    var s := a + [sep] + b;
    assert s[|a|] == sep;
    if a == "" {
      assert s[1..] == b;
    } else {
      assert s[1..] == a[1..] + [sep] + b;
      AfterLastAppend(sep, a[1..], b);
    }
  }

  /** Number of occurrences of `c`: Python's `s.count(c)`. */
  function Count(c: char, s: string): nat {
    if s == "" then 0 else (if s[0] == c then 1 else 0) + Count(c, s[1..])
  }

  lemma {:induction false} CountAppend(c: char, a: string, b: string)
    ensures Count(c, a + b) == Count(c, a) + Count(c, b)
  {
    if a == "" {
      assert a + b == b;
    } else {
      assert (a + b)[1..] == a[1..] + b;
      CountAppend(c, a[1..], b);
    }
  }

  lemma {:induction false} CountFree(c: char, s: string)
    requires Free(c, s)
    ensures Count(c, s) == 0
  {
    if s != "" {
      CountFree(c, s[1..]);
    }
  }

  /** Joining parts without the separator puts in one separator fewer than there are parts. */
  lemma {:induction false} CountJoin(sep: char, parts: seq<string>)
    requires parts != [] && forall p :: p in parts ==> Free(sep, p)
    ensures Count(sep, Join(sep, parts)) == |parts| - 1
  {
    assert parts[0] in parts && forall p :: p in parts[1..] ==> p in parts;
    CountFree(sep, parts[0]);
    if |parts| > 1 {
      CountJoin(sep, parts[1..]);
      CountAppend(sep, parts[0] + [sep], Join(sep, parts[1..]));
      CountAppend(sep, parts[0], [sep]);
      assert Count(sep, [sep]) == 1;
    }
  }

  function StripLeft(k: Class, s: string): string {
    s[Span(k, s)..]
  }

  function StripRight(k: Class, s: string): string {
    if s != "" && Is(k, s[|s| - 1]) then StripRight(k, s[..|s| - 1]) else s
  }

  /** Python's `s.strip(chars)`. */
  function StripAll(k: Class, s: string): string {
    StripRight(k, StripLeft(k, s))
  }

  function Strip(s: string): string {
    StripAll(Spaces, s)
  }

  /** `t` is `s` without what it begins and ends with of the class. */
  ghost predicate IsStripped(k: Class, s: string, t: string) {
    && (exists a, b :: s == a + t + b && All(k, a) && All(k, b))
    && (t != "" ==> !Is(k, t[0]) && !Is(k, t[|t| - 1]))
  }

  lemma {:induction false} StripRightIs(k: Class, s: string) returns (b: string)
    ensures s == StripRight(k, s) + b && All(k, b)
    ensures var t := StripRight(k, s); t != "" ==> !Is(k, t[|t| - 1]) && t[0] == s[0]
  {
    if s != "" && Is(k, s[|s| - 1]) {
      var n := |s| - 1;
      var more := StripRightIs(k, s[..n]);
      b := more + [s[n]];
      assert s == s[..n] + [s[n]];
    } else {
      b := "";
    }
  }

  /** Stripping removes a beginning and an end of the class so that no more can be removed, and nothing else
      does. */
  lemma StripIs(k: Class, s: string, t: string)
    ensures t == StripAll(k, s) <==> IsStripped(k, s, t)
  {
    hide StripRight, Is;
    StripIsStripped(k, s);
    if IsStripped(k, s, t) {
      StrippedIsUnique(k, s, t);
    }
  }

  lemma StripLeftIs(k: Class, s: string) returns (a: string)
    ensures s == a + StripLeft(k, s) && All(k, a)
    ensures var t := StripLeft(k, s); t != "" ==> !Is(k, t[0])
  {
    hide Is;
    a := s[..Span(k, s)];
  }

  lemma StripIsStripped(k: Class, s: string)
    ensures IsStripped(k, s, StripAll(k, s))
  {
    hide StripLeft, StripRight, Is, All, IsStripped;
    var a := StripLeftIs(k, s);
    var rest := StripLeft(k, s);
    var b := StripRightIs(k, rest);
    var t := StripRight(k, rest);
    Associates(a, t, b);
    StrippedBy(k, s, a, t, b);
  }

  lemma Associates(a: string, b: string, c: string)
    ensures a + (b + c) == a + b + c
  {
  }

  lemma StrippedBy(k: Class, s: string, a: string, t: string, b: string)
    requires s == a + t + b && All(k, a) && All(k, b) && (t != "" ==> !Is(k, t[0]) && !Is(k, t[|t| - 1]))
    ensures IsStripped(k, s, t)
  {
  }

  lemma StrippedIsUnique(k: Class, s: string, t: string)
    requires IsStripped(k, s, t)
    ensures t == StripAll(k, s)
  {
    hide Is;
    var a, b :| s == a + t + b && All(k, a) && All(k, b);
    assert s == a + (t + b);
    if t == "" {
      assert All(k, s);
      SpanAppend(k, s, "");
      assert s + "" == s;
    } else {
      SpanAppend(k, a, t + b);
      StripRightAppend(k, t, b);
    }
  }

  /** `t` is `s` without the characters `c` it ends with. */
  ghost predicate IsStrippedRight(c: char, s: string, t: string) {
    && (exists b :: s == t + b && forall i :: 0 <= i < |b| ==> b[i] == c)
    && (t != "" ==> t[|t| - 1] != c)
  }

  lemma StripRightIff(c: char, s: string, t: string)
    ensures t == StripRight(Just(c), s) <==> IsStrippedRight(c, s, t)
  {
    var b := StripRightIs(Just(c), s);
    assert forall i :: 0 <= i < |b| ==> Is(Just(c), b[i]);
    if IsStrippedRight(c, s, t) {
      var d :| s == t + d && forall i :: 0 <= i < |d| ==> d[i] == c;
      if t == "" {
        AllStripped(c, d);
        assert s == d;
      } else {
        StripRightAppend(Just(c), t, d);
      }
    }
  }

  lemma {:induction false} AllStripped(c: char, s: string)
    requires forall i :: 0 <= i < |s| ==> s[i] == c
    ensures StripRight(Just(c), s) == ""
  {
    if s != "" {
      AllStripped(c, s[..|s| - 1]);
    }
  }

  lemma {:induction false} StripRightAppend(k: Class, t: string, b: string)
    requires t != "" && !Is(k, t[|t| - 1]) && All(k, b)
    ensures StripRight(k, t + b) == t
    decreases |b|
  {
    if b == "" {
      assert t + b == t;
    } else {
      assert (t + b)[..|t + b| - 1] == t + b[..|b| - 1];
      StripRightAppend(k, t, b[..|b| - 1]);
    }
  }

  /** Splitting undoes joining. */
  lemma {:induction false} SplitJoin(sep: char, parts: seq<string>)
    requires parts != [] && forall p :: p in parts ==> Free(sep, p)
    ensures Split(sep, Join(sep, parts)) == parts
  {
    assert parts[0] in parts && forall p :: p in parts[1..] ==> p in parts;
    FreeIsAll(sep, parts[0]);
    if |parts| == 1 {
      SpanAppend(Except(sep), parts[0], "");
      assert parts[0] + "" == parts[0];
    } else {
      var rest := [sep] + Join(sep, parts[1..]);
      assert Join(sep, parts) == parts[0] + rest;
      SpanAppend(Except(sep), parts[0], rest);
      assert (parts[0] + rest)[|parts[0]| + 1..] == Join(sep, parts[1..]);
      SplitJoin(sep, parts[1..]);
    }
  }

  /** White space is what Python's `str.isspace` takes for it. */
  lemma SpacesAre(c: char)
    ensures Is(Spaces, c) <==>
              c as int in {9, 10, 11, 12, 13, 28, 29, 30, 31, 32, 133, 160, 5760, 8192, 8193, 8194, 8195, 8196, 8197,
                           8198, 8199, 8200, 8201, 8202, 8232, 8233, 8239, 8287, 12288}
  {
  }

  // ---------- order ----------

  /** Python's `a < b` on strings: lexicographic by code point. */
  predicate StringLess(a: string, b: string) {
    b != "" && (a == "" || a[0] < b[0] || (a[0] == b[0] && StringLess(a[1..], b[1..])))
  }

  lemma {:induction false} StringOrderTotal(a: string, b: string)
    ensures a == b || StringLess(a, b) || StringLess(b, a)
    ensures !(StringLess(a, b) && StringLess(b, a))
    ensures !StringLess(a, a)
  {
    if a != "" {
      if b != "" {
        StringOrderTotal(a[1..], b[1..]);
        if a[0] == b[0] && a[1..] == b[1..] {
          assert a == [a[0]] + a[1..] == b;
        }
      } else {
        StringOrderTotal(a[1..], a[1..]);
      }
    }
  }

  lemma {:induction false} StringOrderTransitive(a: string, b: string, c: string)
    requires !StringLess(b, a) && !StringLess(c, b)
    ensures !StringLess(c, a)
  {
    if a != "" && b != "" && c != "" {
      if a[0] == b[0] == c[0] {
        StringOrderTransitive(a[1..], b[1..], c[1..]);
      }
    }
  }

  /** The first difference decides. */
  lemma {:induction false} LessAt(a: string, b: string, k: nat)
    requires k < |a| && k < |b| && a[..k] == b[..k] && a[k] < b[k]
    ensures StringLess(a, b)
  {
    if k > 0 {
      assert a[0] == a[..k][0] == b[..k][0] == b[0];
      assert a[1..][..k - 1] == a[..k][1..] == b[..k][1..] == b[1..][..k - 1];
      LessAt(a[1..], b[1..], k - 1);
    }
  }
}
