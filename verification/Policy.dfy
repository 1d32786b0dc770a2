/** The policy engine: first matching rule wins, rate limits per bucket. */
module Policy {
  import opened Wrappers
  import opened Outcomes
  import StructuredFields
  import RateLimit
  import Text

  datatype Action = Allow | Block | RateLimited | Charge

  /** The match fields of a rule; a missing field matches everything. */
  datatype Match = Match(
    outcome: Option<seq<string>>, tag: Option<seq<string>>, operator: Option<seq<string>>,
    path: Option<seq<string>>, userAgentContains: Option<seq<string>>, verb: Option<seq<string>>)

  datatype Rule = Rule(
    name: Option<string>, action: Action, conditions: Match,
    message: Option<string>, price: Option<string>, limit: Option<int>, window: Option<int>)
  {
    function Name(): string {
      if name.Some? then name.value else "unnamed"
    }

    function BlockMessage(): string {
      if message.Some? then message.value else "blocked by policy"
    }

    function Price(): string {
      if price.Some? then price.value else "0.01 USD"
    }

    function Limit(): int {
      if limit.Some? then limit.value else 60
    }

    function Window(): int {
      if window.Some? then window.value else 60
    }
  }

  datatype Detail = NoDetail | Message(text: string) | WithinLimit | OverLimit(limit: int, window: int,
                                       bucket: string) | PaymentRequired

  datatype Decision = Decision(action: Action, rule: string, status: int, detail: Detail, price: Option<string>)

  datatype Origin = Origin(scheme: string, host: string, port: Option<int>)

  /** `fnmatch`, case mapping, substring test, `urlsplit` origin (None when there is no host). */
  datatype Library = Library(
    glob: (string, string) -> bool, lower: string -> string, upper: string -> string,
    contains: (string, string) -> bool, origin: string -> Option<Origin>)

  // ---------- matching ----------

  predicate OperatorMatches(lib: Library, wanted: string, operator: Option<string>) {
    if operator == None || operator == Some("") then false
    else if "static:" <= wanted || "static:" <= operator.value then wanted == operator.value
    else if wanted == operator.value then true
    else
      match lib.origin(operator.value)
      case None => false
      case Some(o) =>
        if lib.contains(wanted, "://") then lib.origin(wanted) == Some(o)
        else Text.StripRight(Text.Just('.'), lib.lower(wanted)) == o.host
  }

  /** A rule value admits one host, and a value that names an origin admits one scheme and port too: two
      directories it matches, neither of them literally, agree in these, so a lookalike never satisfies a
      rule meant for another. */
  lemma OneHostPerRuleValue(lib: Library, wanted: string, a: string, b: string)
    requires OperatorMatches(lib, wanted, Some(a)) && wanted != a
    requires OperatorMatches(lib, wanted, Some(b)) && wanted != b
    ensures lib.origin(a).Some? && lib.origin(b).Some? && lib.origin(a).value.host == lib.origin(b).value.host
    ensures lib.contains(wanted, "://") ==> lib.origin(a) == lib.origin(b) == lib.origin(wanted)
  {
    hide Text.StripRight;
  }

  datatype Call = Call(
    res: VerificationResult, verb: string, path: string, userAgent: string, clientKey: Option<string>, now: int)

  predicate Matches(lib: Library, rule: Rule, c: Call) {
    var m := rule.conditions;
    && (m.outcome.Some? ==> OutcomeValue(c.res.outcome) in m.outcome.value)
    && (m.tag.Some? ==> exists t :: t in m.tag.value && c.res.tag == Some(StructuredFields.Str(t)))
    && (m.operator.Some? ==> exists o :: o in m.operator.value && OperatorMatches(lib, o, c.res.operator))
    && (m.path.Some? ==> exists p :: p in m.path.value && lib.glob(c.path, p))
    && (m.userAgentContains.Some? ==>
          exists u :: u in m.userAgentContains.value && lib.contains(lib.lower(c.userAgent), lib.lower(u)))
    && (m.verb.Some? ==> exists v :: v in m.verb.value && lib.upper(v) == lib.upper(c.verb))
  }

  /** What satisfies a rule's operator value: that very text; or, when neither is a registered label, a source
      of the same origin if the value names one, and otherwise of that host. */
  lemma OperatorMatchesIff(lib: Library, wanted: string, operator: string)
    ensures OperatorMatches(lib, wanted, Some(operator)) <==>
              && operator != ""
              && (|| wanted == operator
                  || (&& !("static:" <= wanted) && !("static:" <= operator) && lib.origin(operator).Some?
                      && if lib.contains(wanted, "://") then lib.origin(wanted) == lib.origin(operator)
                         else Text.IsStrippedRight('.', lib.lower(wanted), lib.origin(operator).value.host)))
    ensures !OperatorMatches(lib, wanted, None)
  {
    forall host
      ensures host == Text.StripRight(Text.Just('.'), lib.lower(wanted))
         <==> Text.IsStrippedRight('.', lib.lower(wanted), host)
    {
      Text.StripRightIff('.', lib.lower(wanted), host);
    }
    hide Text.IsStrippedRight, Text.StripRight;
  }

  /** The field is not asked for, or one of its values passes. */
  ghost predicate Passes(values: Option<seq<string>>, test: string -> bool) {
    values.Some? ==> exists v :: v in values.value && test(v)
  }

  /** What a rule asks of a call: every field it has must pass with one of its values. */
  lemma MatchesIff(lib: Library, rule: Rule, c: Call)
    ensures var m := rule.conditions;
            Matches(lib, rule, c) <==>
              && Passes(m.outcome, v => match c.res.outcome
                                        case UNSIGNED => v == "unsigned"
                                        case VERIFIED => v == "verified"
                                        case INVALID => v == "invalid"
                                        case UNVERIFIED => v == "unverified")
              && Passes(m.tag, v => c.res.tag == Some(StructuredFields.Str(v)))
              && Passes(m.operator, v => OperatorMatches(lib, v, c.res.operator))
              && Passes(m.path, v => lib.glob(c.path, v))
              && Passes(m.userAgentContains, v => lib.contains(lib.lower(c.userAgent), lib.lower(v)))
              && Passes(m.verb, v => lib.upper(c.verb) == lib.upper(v))
  {
    hide OperatorMatches;
  }

  /** The first rule from `i` on that matches, or the number of rules. */
  function FirstMatch(lib: Library, rules: seq<Rule>, c: Call, i: nat := 0): (k: nat)
    requires i <= |rules|
    ensures i <= k <= |rules|
    ensures forall j :: i <= j < k ==> !Matches(lib, rules[j], c)
    ensures k < |rules| ==> Matches(lib, rules[k], c)
    decreases |rules| - i
  {
    if i == |rules| || Matches(lib, rules[i], c) then i else FirstMatch(lib, rules, c, i + 1)
  }

  // ---------- buckets ----------

  /** Only a verified operator is an identity; everything else is bucketed by the client key. */
  function BucketId(c: Call): string {
    if c.res.outcome == VERIFIED && c.res.operator.Some? && c.res.operator.value != "" then "op:" + c.res.operator.value
    else "client:" + (if c.clientKey.Some? && c.clientKey.value != "" then c.clientKey.value else "anonymous")
  }

  function Key(name: string, id: string): string {
    name + ":" + id
  }

  /** The texts that identify a bucket within a rule. */
  predicate IsBucketId(id: string) {
    ("op:" <= id && |id| > 3) || ("client:" <= id && |id| > 7)
  }

  /** The name `longer` is `name` and the beginning of an identity. */
  predicate Extends(name: string, longer: string) {
    || longer == name + ":op" || longer == name + ":client"
    || name + ":op:" <= longer || name + ":client:" <= longer
  }

  predicate Apart(a: string, b: string) {
    a != b && !Extends(a, b) && !Extends(b, a)
  }

  /** No name of a rate-limit rule equals or extends another's. */
  predicate ProperNames(rules: seq<Rule>) {
    forall i, j :: 0 <= i < j < |rules| && rules[i].action == RateLimited && rules[j].action == RateLimited
      ==> Apart(rules[i].Name(), rules[j].Name())
  }

  /** Names without colons are proper as soon as they are distinct. */
  lemma ColonFreeIsApart(a: string, b: string)
    requires a != b && Text.Free(':', a) && Text.Free(':', b)
    ensures Apart(a, b)
  {
    assert (a + ":op")[|a|] == (a + ":client")[|a|] == (a + ":op:")[|a|] == (a + ":client:")[|a|] == ':';
    assert (b + ":op")[|b|] == (b + ":client")[|b|] == (b + ":op:")[|b|] == (b + ":client:")[|b|] == ':';
  }

  lemma BucketIdIs(c: Call)
    ensures IsBucketId(BucketId(c))
  {
  }

  /** Every such text identifies the bucket of some call. */
  function CallFor(id: string): (c: Call)
    requires IsBucketId(id)
    ensures BucketId(c) == id
  {
    var res := VerificationResult(VERIFIED, Good, None, None, if "op:" <= id then Some(id[3..]) else None, None, []);
    var c := Call(res, "", "", "", if "op:" <= id then None else Some(id[7..]), 0);
    assert "op:" <= id ==> id == "op:" + id[3..];
    assert !("op:" <= id) ==> id == "client:" + id[7..];
    c
  }

  /** Of two names in one bucket key the longer is the shorter and the beginning of an identity. */
  lemma SplitKey(a: string, x: string, b: string, y: string) returns (rest: string)
    requires Key(a, x) == Key(b, y) && |a| < |b|
    ensures b == a + ":" + rest && x == rest + ":" + y
  {
    var s := Key(a, x);
    rest := b[|a| + 1..];
    assert b == s[..|b|] && s[|a|] == ':' && a == s[..|a|];
    assert s[|a| + 1..] == x && s[|b|] == ':';
  }

  lemma SharedKey(a: string, x: string, b: string, y: string)
    requires IsBucketId(x) && IsBucketId(y) && Key(a, x) == Key(b, y) && |a| < |b|
    ensures Extends(a, b)
  {
    var rest := SplitKey(a, x, b, y);
    IdBegins(rest, y);
    assert a + ":" + "op" == a + ":op" && a + ":" + "client" == a + ":client";
    if "op:" <= rest {
      assert a + ":op:" == b[..|a| + 4];
    }
    if "client:" <= rest {
      assert a + ":client:" == b[..|a| + 8];
    }
  }

  /** How an identity can begin before a colon. */
  lemma IdBegins(rest: string, y: string)
    requires IsBucketId(rest + ":" + y)
    ensures rest == "op" || rest == "client" || "op:" <= rest || "client:" <= rest
  {
    var x := rest + ":" + y;
    var word := if "op:" <= x then "op" else "client";
    var n := |word|;
    assert x[n] == ':' && x[..n] == word && forall i :: 0 <= i < n ==> x[i] == word[i] && word[i] != ':';
    assert x[|rest|] == ':';
    assert |rest| >= n;
    assert rest[..n] == x[..n];
    if |rest| == n {
      assert rest == rest[..n];
    } else {
      assert rest[n] == x[n] && rest[..n + 1] == x[..n + 1] == word + ":";
    }
  }

  /** Names that are apart, or equal, and the identity can be read back from the bucket key. */
  lemma KeyInjective(a: string, x: string, b: string, y: string)
    requires IsBucketId(x) && IsBucketId(y) && Key(a, x) == Key(b, y) && (a == b || Apart(a, b))
    ensures a == b && x == y
  {
    hide IsBucketId, Extends;
    if |a| < |b| {
      SharedKey(a, x, b, y);
    } else if |b| < |a| {
      SharedKey(b, y, a, x);
    } else {
      assert a == Key(a, x)[..|a|] == Key(b, y)[..|b|] == b;
      assert x == Key(a, x)[|a| + 1..] == y;
    }
  }

  /** Exactly when rules of different names can share a bucket: if and only if one name extends the other.
      Operators and client keys are any text here. */
  lemma ShareABucketIffExtends(a: string, b: string)
    requires a != b
    ensures (exists c, d :: Key(a, BucketId(c)) == Key(b, BucketId(d))) <==> Extends(a, b) || Extends(b, a)
  {
    hide Extends, BucketId, Key, IsBucketId;
    if c, d :| Key(a, BucketId(c)) == Key(b, BucketId(d)) {
      BucketIdIs(c);
      BucketIdIs(d);
      if Apart(a, b) {
        KeyInjective(a, BucketId(c), b, BucketId(d));
      }
    }
    if Extends(a, b) {
      var c, d := ExtensionShares(a, b);
    } else if Extends(b, a) {
      var c, d := ExtensionShares(b, a);
    }
  }

  lemma ExtensionShares(a: string, b: string) returns (c: Call, d: Call)
    requires Extends(a, b)
    ensures Key(a, BucketId(c)) == Key(b, BucketId(d))
  {
    var rest := b[|a| + 1..];
    RestBegins(a, b);
    hide BucketId, Extends, IsBucketId;
    c, d := CallFor(rest + ":" + "client:x"), CallFor("client:x");
    assert a + ":" + (rest + ":" + "client:x") == a + ":" + rest + ":" + "client:x";
  }

  lemma RestBegins(a: string, b: string)
    requires Extends(a, b)
    ensures |a| < |b| && b == a + ":" + b[|a| + 1..]
    ensures IsBucketId(b[|a| + 1..] + ":" + "client:x") && IsBucketId("client:x")
  {
    assert (a + ":op")[|a| + 1..] == "op" && (a + ":client")[|a| + 1..] == "client";
    assert a + ":op:" <= b ==> b[|a| + 1..][..3] == (a + ":op:")[|a| + 1..] == "op:";
    assert a + ":client:" <= b ==> b[|a| + 1..][..7] == (a + ":client:")[|a| + 1..] == "client:";
  }

  // ---------- the identities the gateway produces ----------

  /** The letters of `word`, in either case. */
  predicate Spells(s: string, word: string) {
    |s| == |word| && forall i :: 0 <= i < |s| ==> s[i] == word[i] || s[i] as int + 32 == word[i] as int
  }

  /** Without the spaces and control characters in front, which `urlsplit` drops. */
  function TrimLeft(s: string): string {
    if s != "" && s[0] <= ' ' then TrimLeft(s[1..]) else s
  }

  /** A text that `urlsplit` reads as one of the two schemes when a colon follows. */
  predicate IsScheme(p: string) {
    Text.Free(':', p) && (Spells(TrimLeft(p), "http") || Spells(TrimLeft(p), "https"))
  }

  /** What stands before the first of the characters that end an authority. */
  function Netloc(s: string): string {
    if s == "" || s[0] in "/?#" then "" else [s[0]] + Netloc(s[1..])
  }

  /** The authority names a host: what follows the last `@` is not empty and is not a port. */
  predicate NamesHost(netloc: string) {
    var host := Text.AfterLast('@', netloc);
    host != "" && host[0] != ':'
  }

  /** The text is `p`, a colon, two slashes, and an authority that names a host, followed by anything. */
  predicate BeginsUrl(p: string, text: string) {
    IsScheme(p) && p + "://" <= text && NamesHost(Netloc(text[|p| + 3..]))
  }

  /** An absolute URL of one of the two schemes at a host, as `urlsplit` reads it. */
  ghost predicate IsUrl(operator: string) {
    exists p :: BeginsUrl(p, operator)
  }

  /** The operator is what the resolver names as source, a registered label or a URL, and the client key is a
      hexadecimal digest. */
  ghost predicate FromGateway(c: Call) {
    && (c.res.operator.Some? ==> "static:" <= c.res.operator.value || IsUrl(c.res.operator.value))
    && (c.clientKey.Some? ==> c.clientKey.value != "" && Text.Free(':', c.clientKey.value))
  }

  predicate IsClientId(id: string) {
    "client:" <= id && |id| > 7 && Text.Free(':', id[7..])
  }

  ghost predicate IsGatewayId(id: string) {
    || IsClientId(id)
    || ("op:" <= id && ("static:" <= id[3..] || IsUrl(id[3..])))
  }

  lemma GatewayIdIs(c: Call)
    requires FromGateway(c)
    ensures IsGatewayId(BucketId(c))
  {
    var id := BucketId(c);
    hide IsUrl;
    if c.res.outcome == VERIFIED && c.res.operator.Some? && c.res.operator.value != "" {
      assert id == "op:" + c.res.operator.value && id[3..] == c.res.operator.value;
    } else {
      assert id[7..] == if c.clientKey.Some? then c.clientKey.value else "anonymous";
    }
  }

  lemma GatewayIdOccurs(id: string)
    requires IsGatewayId(id)
    ensures IsBucketId(id) && FromGateway(CallFor(id))
  {
    if IsClientId(id) {
      assert id[0] == "client:"[0] != "op:"[0];
    } else {
      assert id[3..] != "" by {
        if !("static:" <= id[3..]) {
          var p :| BeginsUrl(p, id[3..]);
        }
      }
    }
  }

  /** The text can be the beginning of such a URL: its authority is not complete, or names a host. */
  predicate MayBegin(p: string, text: string) {
    && IsScheme(p) && p + "://" <= text
    && var rest := text[|p| + 3..]; Netloc(rest) == rest || NamesHost(Netloc(rest))
  }

  ghost predicate CanBeUrl(text: string) {
    exists p :: MayBegin(p, text)
  }

  /** The name `longer` is `name` and the beginning of a source. */
  ghost predicate ExtendsWithSource(name: string, longer: string) {
    || longer == name + ":op:static"
    || (name + ":op:" <= longer
        && ("static:" <= longer[|name| + 4..] || CanBeUrl(longer[|name| + 4..])))
  }

  /** A complete authority stays what it is. */
  lemma {:induction false} NetlocGoesOn(s: string, more: string)
    ensures Netloc(s) != s ==> Netloc(s + more) == Netloc(s)
    ensures Netloc(s) == s ==> Netloc(s + more) == s + Netloc(more)
  {
    if s == "" {
      assert s + more == more;
    } else {
      assert (s + more)[0] == s[0] && (s + more)[1..] == s[1..] + more;
      NetlocGoesOn(s[1..], more);
      assert s == [s[0]] + s[1..];
    }
  }

  /** A client's identity has one colon, so no other identity follows one of its colons. */
  lemma NoClientInFront(rest: string, y: string)
    requires IsGatewayId(y)
    ensures !IsClientId(rest + ":" + y)
  {
    var x, n := rest + ":" + y, |rest|;
    if "client:" <= x {
      assert x[n] == ':' && forall i :: 0 <= i < 6 ==> x[i] == "client:"[i] != ':';
      var m := if "client:" <= y then 6 else 2;
      assert y[m] == ':' && x[n + 1 + m] == y[m];
      assert x[7..][n + m - 6] == ':';
    }
  }

  /** A URL that is split at a colon before an identity is split behind its slashes. */
  lemma SplitBehind(p: string, rest: string, y: string)
    requires BeginsUrl(p, rest + ":" + y) && IsGatewayId(y)
    ensures MayBegin(p, rest)
  {
    hide Spells, TrimLeft, IsUrl, NamesHost, Netloc;
    var x, n, k := rest + ":" + y, |rest|, |p|;
    var begin := p + "://";
    assert forall i :: 0 <= i < k + 3 ==> x[i] == begin[i];
    assert forall i :: 0 <= i < k ==> begin[i] == p[i] && p[i] in p;
    assert x[n] == ':' && x[n + 1] == y[0] && (y[0] == 'o' || y[0] == 'c');
    assert n >= k + 3;
    assert rest[..k + 3] == x[..k + 3] == begin;
    assert x[k + 3..] == rest[k + 3..] + (":" + y);
    NetlocGoesOn(rest[k + 3..], ":" + y);
  }

  lemma SplitBehindStatic(rest: string, y: string)
    requires "static:" <= rest + ":" + y && IsGatewayId(y)
    ensures rest == "static" || "static:" <= rest
  {
    var x, n := rest + ":" + y, |rest|;
    assert x[n] == ':' && forall i :: 0 <= i < 6 ==> x[i] == "static:"[i] != ':';
    assert rest[..6] == x[..6] == "static";
    if n > 6 {
      assert rest[..7] == x[..7];
    } else {
      assert rest == rest[..6];
    }
  }

  /** How such an identity can begin before a colon and another. */
  lemma GatewayIdBegins(rest: string, y: string)
    requires IsGatewayId(rest + ":" + y) && IsGatewayId(y)
    ensures rest == "op:static" || ("op:" <= rest && ("static:" <= rest[3..] || CanBeUrl(rest[3..])))
  {
    var x := rest + ":" + y;
    NoClientInFront(rest, y);
    assert x[|rest|] == ':' && x[2] == ':' && x[0] != ':' && x[1] != ':';
    if |rest| == 2 {
      assert x[3..] == y;
      NoSourceIsAnId(y);
    } else {
      var tail := rest[3..];
      assert x[..3] == rest[..3] && x[3..] == tail + ":" + y;
      if "static:" <= x[3..] {
        SplitBehindStatic(tail, y);
        assert rest == "op:" + tail;
      } else {
        var p :| BeginsUrl(p, x[3..]);
        SplitBehind(p, tail, y);
        assert CanBeUrl(tail);
      }
    }
  }

  lemma OtherWords()
    ensures !IsScheme("op") && !IsScheme("client")
  {
    assert TrimLeft("op") == "op" && TrimLeft("client") == "client";
  }

  /** What stands before the first colon is determined. */
  lemma BeforeFirstColon(p: string, word: string, y: string)
    requires Text.Free(':', p) && Text.Free(':', word) && p + ":" <= y && word + ":" <= y
    ensures p == word
  {
    Text.FreeIsAll(':', p);
    Text.FreeIsAll(':', word);
    assert y == p + (":" + y[|p| + 1..]) && y == word + (":" + y[|word| + 1..]);
    Text.SpanAppend(Text.Except(':'), p, ":" + y[|p| + 1..]);
    Text.SpanAppend(Text.Except(':'), word, ":" + y[|word| + 1..]);
  }

  lemma FirstWord(y: string) returns (word: string)
    requires IsGatewayId(y)
    ensures (word == "op" || word == "client") && Text.Free(':', word) && word + ":" <= y && !("static:" <= y)
  {
    hide IsUrl;
    word := if "op:" <= y then "op" else "client";
    assert y[0] == word[0] != "static:"[0];
  }

  /** No identity is a source. */
  lemma NoSourceIsAnId(y: string)
    requires IsGatewayId(y)
    ensures !("static:" <= y) && !IsUrl(y)
  {
    hide IsScheme, IsGatewayId;
    var word := FirstWord(y);
    OtherWords();
    if p :| BeginsUrl(p, y) {
      SchemeIsFree(p);
      assert p + ":" <= y by { assert (p + "://")[..|p| + 1] == p + ":"; }
      BeforeFirstColon(p, word, y);
    }
  }

  lemma SchemeIsFree(p: string)
    requires IsScheme(p)
    ensures Text.Free(':', p)
  {
  }

  lemma SameLengthNames(a: string, x: string, b: string, y: string)
    requires Key(a, x) == Key(b, y) && |a| == |b|
    ensures a == b
  {
    assert a == Key(a, x)[..|a|] == Key(b, y)[..|b|] == b;
  }

  /** Among the calls the gateway makes: rules of different names can share a bucket if and only if one name is
      the other and the beginning of a source. */
  lemma ShareAGatewayBucketIff(a: string, b: string)
    requires a != b
    ensures (exists c, d :: FromGateway(c) && FromGateway(d) && Key(a, BucketId(c)) == Key(b, BucketId(d)))
       <==> ExtendsWithSource(a, b) || ExtendsWithSource(b, a)
  {
    hide BucketId, IsGatewayId, FromGateway, ExtendsWithSource, Key;
    if c, d :| FromGateway(c) && FromGateway(d) && Key(a, BucketId(c)) == Key(b, BucketId(d)) {
      GatewayIdIs(c);
      GatewayIdIs(d);
      if |a| < |b| {
        SharedGatewayKey(a, BucketId(c), b, BucketId(d));
      } else if |b| < |a| {
        SharedGatewayKey(b, BucketId(d), a, BucketId(c));
      } else {
        SameLengthNames(a, BucketId(c), b, BucketId(d));
      }
    }
    if ExtendsWithSource(a, b) {
      var c, d := SourceShares(a, b);
    } else if ExtendsWithSource(b, a) {
      var c, d := SourceShares(b, a);
    }
  }

  lemma SharedGatewayKey(a: string, x: string, b: string, y: string)
    requires IsGatewayId(x) && IsGatewayId(y) && Key(a, x) == Key(b, y) && |a| < |b|
    ensures ExtendsWithSource(a, b)
  {
    hide IsGatewayId, Key, IsUrl;
    var rest := SplitKey(a, x, b, y);
    GatewayIdBegins(rest, y);
    if rest == "op:static" {
      assert a + ":" + "op:static" == a + ":op:static";
    } else {
      assert rest == "op:" + rest[3..];
      assert b == a + ":op:" + rest[3..] && (a + ":op:" + rest[3..])[|a| + 4..] == rest[3..];
    }
  }

  /** An identity that completes every beginning of a source. */
  const OTHER := "op:static:@h"

  lemma SourceShares(a: string, b: string) returns (c: Call, d: Call)
    requires ExtendsWithSource(a, b)
    ensures FromGateway(c) && FromGateway(d) && Key(a, BucketId(c)) == Key(b, BucketId(d))
  {
    OtherIs();
    hide BucketId, ExtendsWithSource, IsGatewayId, FromGateway, IsBucketId;
    var rest := SourceBegins(a, b);
    GatewayIdOccurs(rest + ":" + OTHER);
    GatewayIdOccurs(OTHER);
    c, d := CallFor(rest + ":" + OTHER), CallFor(OTHER);
    MovedColon(a, rest, OTHER);
  }

  lemma OtherIs()
    ensures IsGatewayId(OTHER)
  {
    assert OTHER[3..] == "static:@h";
  }

  lemma MovedColon(a: string, rest: string, y: string)
    ensures Key(a, rest + ":" + y) == Key(a + ":" + rest, y)
  {
    assert a + ":" + (rest + ":" + y) == a + ":" + rest + ":" + y;
  }

  lemma SourceBegins(a: string, b: string) returns (rest: string)
    requires ExtendsWithSource(a, b)
    ensures b == a + ":" + rest && IsGatewayId(rest + ":" + OTHER)
  {
    hide CanBeUrl, IsUrl;
    if b == a + ":op:static" {
      rest := "op:static";
      assert a + ":" + rest == b && (rest + ":" + OTHER)[3..] == "static:" + OTHER;
    } else {
      var source := b[|a| + 4..];
      rest := "op:" + source;
      assert b == a + ":op:" + source && a + ":op:" + source == a + ":" + rest;
      SourceGoesOn(source);
      assert "op:" + (source + (":" + OTHER)) == rest + ":" + OTHER;
    }
  }

  /** Followed by that identity, the whole is a source. */
  lemma SourceGoesOn(source: string)
    requires "static:" <= source || CanBeUrl(source)
    ensures IsGatewayId("op:" + (source + (":" + OTHER)))
  {
    hide IsScheme, Netloc, NamesHost;
    var x := "op:" + (source + (":" + OTHER));
    assert x[3..] == source + (":" + OTHER);
    if !("static:" <= source) {
      var p :| MayBegin(p, source);
      var rest := source[|p| + 3..];
      assert x[3..][|p| + 3..] == rest + (":" + OTHER);
      HostFollows(rest);
      assert BeginsUrl(p, x[3..]);
    }
  }

  lemma HostFollows(rest: string)
    requires Netloc(rest) == rest || NamesHost(Netloc(rest))
    ensures NamesHost(Netloc(rest + (":" + OTHER)))
  {
    NetlocGoesOn(rest, ":" + OTHER);
    if Netloc(rest) == rest {
      NoDelimiter();
      OtherEnds(rest);
    }
  }

  lemma OtherEnds(rest: string)
    ensures NamesHost(rest + (":" + OTHER))
  {
    var user := rest + ":op:static:";
    assert rest + (":" + OTHER) == user + ['@'] + "h";
    Text.AfterLastAppend('@', user, "h");
  }

  lemma NoDelimiter()
    ensures Netloc(":" + OTHER) == ":" + OTHER
  {
    NetlocOf(":" + OTHER);
  }

  lemma {:induction false} NetlocOf(s: string)
    requires forall c :: c in s ==> c !in "/?#"
    ensures Netloc(s) == s
  {
    if s != "" {
      NetlocOf(s[1..]);
      assert s == [s[0]] + s[1..];
    }
  }

  // ---------- deciding ----------

  type Hits = map<string, seq<int>>

  function HitsOf(hits: Hits, bucket: string): seq<int> {
    if bucket in hits then hits[bucket] else []
  }

  function Decide(lib: Library, rules: seq<Rule>, default: Action, hits: Hits, c: Call): Decision {
    var k := FirstMatch(lib, rules, c);
    if k == |rules| then Decision(default, "default", if default == Allow then 200 else 403, NoDetail, None)
    else
      var r := rules[k];
      match r.action
      case Allow => Decision(Allow, r.Name(), 200, NoDetail, None)
      case Block => Decision(Block, r.Name(), 403, Message(r.BlockMessage()), None)
      case Charge => Decision(Charge, r.Name(), 402, PaymentRequired, Some(r.Price()))
      case RateLimited =>
        var bucket := Key(r.Name(), BucketId(c));
        if RateLimit.Admit(r.Limit(), r.Window(), HitsOf(hits, bucket), c.now) then
          Decision(Allow, r.Name(), 200, WithinLimit, None)
        else
          Decision(RateLimited, r.Name(), 429, OverLimit(r.Limit(), r.Window(), bucket), None)
  }

  /** The deques after the decision: only the bucket of a matching rate-limit rule changes. */
  function AfterDecide(lib: Library, rules: seq<Rule>, hits: Hits, c: Call): Hits {
    var k := FirstMatch(lib, rules, c);
    if k == |rules| || rules[k].action != RateLimited then hits
    else
      var bucket := Key(rules[k].Name(), BucketId(c));
      hits[bucket := RateLimit.Serve(rules[k].Limit(), rules[k].Window(), HitsOf(hits, bucket), c.now)]
  }

  // ---------- what a decision must be ----------

  /** Rule `k` is the first that matches. */
  ghost predicate IsFirst(lib: Library, rules: seq<Rule>, c: Call, k: nat) {
    k < |rules| && Matches(lib, rules[k], c) && forall j :: 0 <= j < k ==> !Matches(lib, rules[j], c)
  }

  ghost predicate NoneMatches(lib: Library, rules: seq<Rule>, c: Call) {
    forall r :: r in rules ==> !Matches(lib, r, c)
  }

  /** What is left of a deque without the times in front that are before `cutoff`. */
  ghost predicate IsRecent(times: seq<int>, cutoff: int, kept: seq<int>) {
    exists k: nat :: && k <= |times| && kept == times[k..] && (forall i :: 0 <= i < k ==> times[i] < cutoff)
                     && (k < |times| ==> times[k] >= cutoff)
  }

  /** The request is let through, and its time kept, while fewer than `limit` times are left; otherwise it is
      refused. */
  ghost predicate Limits(limit: int, window: int, bucket: string, now: int, hits: Hits, d: Decision, hits': Hits) {
    exists kept :: && IsRecent(if bucket in hits then hits[bucket] else [], now - window, kept)
                   && if |kept| < limit then
                        && d.action == Allow && d.status == 200 && d.detail == WithinLimit
                        && hits' == hits[bucket := kept + [now]]
                      else
                        && d.action == RateLimited && d.status == 429 && d.detail == OverLimit(limit, window, bucket)
                        && hits' == hits[bucket := kept]
  }

  /** The decision names the rule and does what its action says; only a rate limit changes the deques. */
  ghost predicate Obeys(rule: Rule, c: Call, hits: Hits, d: Decision, hits': Hits) {
    && d.rule == (if rule.name.Some? then rule.name.value else "unnamed")
    && (d.price.Some? <==> rule.action == Charge)
    && (rule.action != RateLimited ==> hits' == hits)
    && match rule.action
       case Allow => d.action == Allow && d.status == 200 && d.detail == NoDetail
       case Block =>
         && d.action == Block && d.status == 403
         && d.detail == Message(if rule.message.Some? then rule.message.value else "blocked by policy")
       case Charge =>
         && d.action == Charge && d.status == 402 && d.detail == PaymentRequired
         && d.price == Some(if rule.price.Some? then rule.price.value else "0.01 USD")
       case RateLimited =>
         Limits(if rule.limit.Some? then rule.limit.value else 60, if rule.window.Some? then rule.window.value else 60,
                d.rule + ":" + BucketId(c), c.now, hits, d, hits')
  }

  /** The first matching rule is obeyed; what no rule matches gets the default. */
  ghost predicate Decides(lib: Library, rules: seq<Rule>, default: Action, c: Call, hits: Hits, d: Decision,
                          hits': Hits) {
    || (exists k: nat :: IsFirst(lib, rules, c, k) && Obeys(rules[k], c, hits, d, hits'))
    || (NoneMatches(lib, rules, c) && hits' == hits
        && d == Decision(default, "default", if default == Allow then 200 else 403, NoDetail, None))
  }

  lemma RecentIff(times: seq<int>, cutoff: int, kept: seq<int>)
    ensures kept == RateLimit.Evict(times, cutoff) <==> IsRecent(times, cutoff, kept)
  {
    var k := RateLimit.EvictIsSuffix(times, cutoff);
    hide RateLimit.Evict;
    if j: nat :| && j <= |times| && kept == times[j..] && (forall i :: 0 <= i < j ==> times[i] < cutoff)
                 && (j < |times| ==> times[j] >= cutoff) {
      assert j == k;
    }
  }

  lemma LimitsIff(limit: int, window: int, bucket: string, now: int, hits: Hits, d: Decision, hits': Hits)
    ensures Limits(limit, window, bucket, now, hits, d, hits') <==>
              && hits' == hits[bucket := RateLimit.Serve(limit, window, HitsOf(hits, bucket), now)]
              && if RateLimit.Admit(limit, window, HitsOf(hits, bucket), now)
                 then d.action == Allow && d.status == 200 && d.detail == WithinLimit
                 else d.action == RateLimited && d.status == 429 && d.detail == OverLimit(limit, window, bucket)
  {
    hide RateLimit.Evict, IsRecent;
    var times, cutoff := HitsOf(hits, bucket), now - window;
    forall kept
      ensures kept == RateLimit.Evict(times, cutoff) <==> IsRecent(times, cutoff, kept)
    {
      RecentIff(times, cutoff, kept);
    }
  }

  lemma FirstMatchIsFirst(lib: Library, rules: seq<Rule>, c: Call)
    ensures var k := FirstMatch(lib, rules, c);
            && (forall j: nat :: IsFirst(lib, rules, c, j) <==> j == k && k < |rules|)
            && (NoneMatches(lib, rules, c) <==> k == |rules|)
  {
    hide Matches;
    var k := FirstMatch(lib, rules, c);
    hide FirstMatch;
    assert k < |rules| ==> rules[k] in rules;
  }

  lemma ObeysIff(lib: Library, rules: seq<Rule>, default: Action, c: Call, hits: Hits, d: Decision, hits': Hits)
    requires FirstMatch(lib, rules, c) < |rules|
    ensures d == Decide(lib, rules, default, hits, c) && hits' == AfterDecide(lib, rules, hits, c)
       <==> Obeys(rules[FirstMatch(lib, rules, c)], c, hits, d, hits')
  {
    hide FirstMatch, BucketId, RateLimit.Admit, RateLimit.Serve, Limits;
    var r := rules[FirstMatch(lib, rules, c)];
    LimitsIff(r.Limit(), r.Window(), Key(r.Name(), BucketId(c)), c.now, hits, d, hits');
  }

  /** `decide` answers this and leaves these deques, and nothing else meets the specification. */
  lemma DecidesIff(lib: Library, rules: seq<Rule>, default: Action, c: Call, hits: Hits, d: Decision, hits': Hits)
    ensures d == Decide(lib, rules, default, hits, c) && hits' == AfterDecide(lib, rules, hits, c)
       <==> Decides(lib, rules, default, c, hits, d, hits')
  {
    FirstMatchIsFirst(lib, rules, c);
    var k := FirstMatch(lib, rules, c);
    if k < |rules| {
      ObeysIff(lib, rules, default, c, hits, d, hits');
      assert IsFirst(lib, rules, c, k);
      hide FirstMatch, Obeys, IsFirst, NoneMatches, Decide, AfterDecide;
    } else {
      hide FirstMatch, Obeys, IsFirst, NoneMatches;
    }
  }

  // ---------- runs ----------

  function HitsAfter(lib: Library, rules: seq<Rule>, calls: seq<Call>): Hits {
    if calls == [] then map[]
    else AfterDecide(lib, rules, HitsAfter(lib, rules, calls[..|calls| - 1]), calls[|calls| - 1])
  }

  function Decisions(lib: Library, rules: seq<Rule>, default: Action, calls: seq<Call>): (ds: seq<Decision>)
    ensures |ds| == |calls|
  {
    if calls == [] then []
    else
      var n := |calls| - 1;
      Decisions(lib, rules, default, calls[..n])
      + [Decide(lib, rules, default, HitsAfter(lib, rules, calls[..n]), calls[n])]
  }

  /** The call is for rate-limit rule `k` and identity `id`. */
  predicate In(lib: Library, rules: seq<Rule>, k: nat, id: string, c: Call) {
    FirstMatch(lib, rules, c) == k && BucketId(c) == id
  }

  /** The times of one bucket's calls. */
  function TimesOf(lib: Library, rules: seq<Rule>, k: nat, id: string, calls: seq<Call>): seq<int> {
    if calls == [] then []
    else
      var n := |calls| - 1;
      TimesOf(lib, rules, k, id, calls[..n]) + (if In(lib, rules, k, id, calls[n]) then [calls[n].now] else [])
  }

  /** Whether one bucket's calls were let through, in order, in the interleaved run. */
  function LetThrough(lib: Library, rules: seq<Rule>, default: Action, k: nat, id: string,
                      calls: seq<Call>): seq<bool> {
    if calls == [] then []
    else
      var n := |calls| - 1;
      LetThrough(lib, rules, default, k, id, calls[..n])
      + (if In(lib, rules, k, id, calls[n])
         then [Decide(lib, rules, default, HitsAfter(lib, rules, calls[..n]), calls[n]).action == Allow] else [])
  }

  /** The times at which one bucket's calls were let through in the interleaved run. */
  function TimesLetThrough(lib: Library, rules: seq<Rule>, default: Action, k: nat, id: string,
                           calls: seq<Call>): seq<int> {
    if calls == [] then []
    else
      var n := |calls| - 1;
      TimesLetThrough(lib, rules, default, k, id, calls[..n])
      + (if In(lib, rules, k, id, calls[n])
            && Decide(lib, rules, default, HitsAfter(lib, rules, calls[..n]), calls[n]).action == Allow
         then [calls[n].now] else [])
  }

  lemma RulesApart(rules: seq<Rule>, i: nat, j: nat)
    requires ProperNames(rules) && i < |rules| && j < |rules|
    requires rules[i].action == RateLimited && rules[j].action == RateLimited
    ensures i == j || (rules[i].Name() != rules[j].Name() && Apart(rules[i].Name(), rules[j].Name()))
  {
    hide Extends, Rule.Name;
  }

  /** No call is for an identity that is not one. */
  lemma {:induction false} NoSuchBucket(lib: Library, rules: seq<Rule>, default: Action, calls: seq<Call>,
                                        k: nat, id: string)
    requires !IsBucketId(id)
    ensures TimesOf(lib, rules, k, id, calls) == [] && LetThrough(lib, rules, default, k, id, calls) == []
    ensures TimesLetThrough(lib, rules, default, k, id, calls) == []
  {
    hide FirstMatch, IsBucketId, Decide, BucketId;
    if calls != [] {
      BucketIdIs(calls[|calls| - 1]);
      NoSuchBucket(lib, rules, default, calls[..|calls| - 1], k, id);
    }
  }

  /** The deque of a bucket is what the limiter alone would hold after that bucket's calls. */
  lemma {:induction false} BucketIsAlone(lib: Library, rules: seq<Rule>, calls: seq<Call>, k: nat, id: string)
    requires ProperNames(rules) && k < |rules| && rules[k].action == RateLimited && IsBucketId(id)
    ensures HitsOf(HitsAfter(lib, rules, calls), Key(rules[k].Name(), id))
         == RateLimit.HitsAfter(rules[k].Limit(), rules[k].Window(), TimesOf(lib, rules, k, id, calls))
  {
    hide Matches, BucketId, Key, RateLimit.Serve, Rule.Name, Rule.Limit, Rule.Window, IsBucketId, Apart;
    if calls != [] {
      var n := |calls| - 1;
      var c := calls[n];
      BucketIdIs(c);
      BucketIsAlone(lib, rules, calls[..n], k, id);
      var m := FirstMatch(lib, rules, c);
      var times := TimesOf(lib, rules, k, id, calls[..n]);
      if m < |rules| && rules[m].action == RateLimited {
        if Key(rules[m].Name(), BucketId(c)) == Key(rules[k].Name(), id) {
          RulesApart(rules, m, k);
          KeyInjective(rules[m].Name(), BucketId(c), rules[k].Name(), id);
        }
      }
      if In(lib, rules, k, id, c) {
        assert (times + [c.now])[..|times|] == times;
      } else {
        assert TimesOf(lib, rules, k, id, calls) == times;
      }
    }
  }

  /** Bucket isolation: in any interleaved run the answers one bucket sees are those of the limiter run
      alone on that bucket's calls. */
  lemma {:induction false} BucketIsolation(lib: Library, rules: seq<Rule>, default: Action, calls: seq<Call>,
                                           k: nat, id: string)
    requires ProperNames(rules) && k < |rules| && rules[k].action == RateLimited
    ensures LetThrough(lib, rules, default, k, id, calls)
         == RateLimit.Answers(rules[k].Limit(), rules[k].Window(), TimesOf(lib, rules, k, id, calls))
    ensures TimesLetThrough(lib, rules, default, k, id, calls)
         == RateLimit.Admissions(rules[k].Limit(), rules[k].Window(), TimesOf(lib, rules, k, id, calls))
  {
    hide Matches, Key, RateLimit.Admit, HitsAfter, RateLimit.HitsAfter, BucketId, Rule.Name, Rule.Limit, Rule.Window;
    hide IsBucketId, ProperNames;
    if !IsBucketId(id) {
      NoSuchBucket(lib, rules, default, calls, k, id);
    } else if calls != [] {
      var n := |calls| - 1;
      BucketIsolation(lib, rules, default, calls[..n], k, id);
      BucketIsAlone(lib, rules, calls[..n], k, id);
      var times, c := TimesOf(lib, rules, k, id, calls[..n]), calls[n];
      if In(lib, rules, k, id, c) {
        assert TimesOf(lib, rules, k, id, calls) == times + [c.now] && (times + [c.now])[..|times|] == times;
        assert (Decide(lib, rules, default, HitsAfter(lib, rules, calls[..n]), c).action == Allow)
            == RateLimit.Admitted(rules[k].Limit(), rules[k].Window(), times, c.now);
      } else {
        assert TimesOf(lib, rules, k, id, calls) == times;
      }
    }
  }

  predicate ClockForward(calls: seq<Call>) {
    forall i, j :: 0 <= i < j < |calls| ==> calls[i].now <= calls[j].now
  }

  lemma {:induction false} TimesSorted(lib: Library, rules: seq<Rule>, k: nat, id: string, calls: seq<Call>, now: int)
    requires ClockForward(calls) && (calls != [] ==> calls[|calls| - 1].now <= now)
    ensures RateLimit.Sorted(TimesOf(lib, rules, k, id, calls) + [now])
  {
    hide In;
    if calls != [] {
      var n := |calls| - 1;
      TimesSorted(lib, rules, k, id, calls[..n], calls[n].now);
      var times := TimesOf(lib, rules, k, id, calls[..n]) + [calls[n].now];
      assert forall i :: 0 <= i < |times| ==> times[i] <= times[|times| - 1] <= now;
      assert forall i :: 0 <= i < |times| - 1 ==> TimesOf(lib, rules, k, id, calls[..n])[i] == times[i];
    }
  }

  /** The window bound: in every run with a clock that does not go back, a bucket admits at most `limit`
      calls in every closed interval of length `window_s`. */
  lemma EveryWindowIsBounded(lib: Library, rules: seq<Rule>, default: Action, calls: seq<Call>, k: nat, id: string,
                             lo: int)
    requires ProperNames(rules) && k < |rules| && rules[k].action == RateLimited && ClockForward(calls)
    ensures RateLimit.CountIn(TimesLetThrough(lib, rules, default, k, id, calls), lo, lo + rules[k].Window())
         <= RateLimit.Cap(rules[k].Limit())
  {
    hide TimesOf, TimesLetThrough, LetThrough, ProperNames, RateLimit.Admissions;
    BucketIsolation(lib, rules, default, calls, k, id);
    var now := if calls == [] then 0 else calls[|calls| - 1].now;
    TimesSorted(lib, rules, k, id, calls, now);
    var times := TimesOf(lib, rules, k, id, calls);
    assert RateLimit.Sorted(times) by {
      assert forall i :: 0 <= i < |times| ==> times[i] == (times + [now])[i];
    }
    RateLimit.WindowBound(rules[k].Limit(), rules[k].Window(), times, lo);
  }

  /** A call on a rate-limit rule is refused exactly when at least `limit` calls of its bucket were let
      through in the closed window that ends now. */
  lemma RefusedIffWindowIsFull(lib: Library, rules: seq<Rule>, default: Action, calls: seq<Call>, c: Call)
    requires ProperNames(rules) && ClockForward(calls + [c])
    requires var k := FirstMatch(lib, rules, c); k < |rules| && rules[k].action == RateLimited
    ensures var k := FirstMatch(lib, rules, c);
            var through := TimesLetThrough(lib, rules, default, k, BucketId(c), calls);
            Decide(lib, rules, default, HitsAfter(lib, rules, calls), c).action == RateLimited
            <==> RateLimit.CountIn(through, c.now - rules[k].Window(), c.now) >= rules[k].Limit()
  {
    hide TimesOf, TimesLetThrough, LetThrough, HitsAfter, BucketId, RateLimit.Admissions, RateLimit.HitsAfter;
    hide RateLimit.Admit, Key, IsBucketId, ProperNames;
    BucketIdIs(c);
    var k := FirstMatch(lib, rules, c);
    BucketIsolation(lib, rules, default, calls, k, BucketId(c));
    BucketIsAlone(lib, rules, calls, k, BucketId(c));
    assert forall i :: 0 <= i < |calls| ==> calls[i] == (calls + [c])[i];
    assert calls != [] ==> (calls + [c])[|calls| - 1].now <= (calls + [c])[|calls|].now;
    TimesSorted(lib, rules, k, BucketId(c), calls, c.now);
    RateLimit.AdmittedIffWindowHasRoom(rules[k].Limit(), rules[k].Window(),
                                       TimesOf(lib, rules, k, BucketId(c), calls), c.now);
  }

  /** What is answered follows the action of the first matching rule. Only a request that is let through is
      answered 200: by an allow rule, by a rate-limit rule with room, or by the default. A block rule answers
      403, a charge rule 402 with a price, a rate-limit rule without room 429; what no rule matches is answered
      403 unless the default lets it through, whatever the default is. */
  lemma StatusFollowsAction(lib: Library, rules: seq<Rule>, default: Action, hits: Hits, c: Call)
    ensures var d, k := Decide(lib, rules, default, hits, c), FirstMatch(lib, rules, c);
            && (d.status == 200 <==> d.action == Allow) && (d.price.Some? <==> d.status == 402)
            && if k == |rules| then
                 d.action == default && d.rule == "default" && d.status == if default == Allow then 200 else 403
               else
                 match rules[k].action
                 case Allow => d.action == Allow && d.status == 200
                 case Block => d.action == Block && d.status == 403
                 case Charge => d.action == Charge && d.status == 402
                 case RateLimited =>
                   (d.action == Allow && d.status == 200) || (d.action == RateLimited && d.status == 429)
  {
    hide Matches, Key, BucketId, RateLimit.Admit;
  }

  // ---------- attacker-chosen fields ----------

  /** The same call with another key id, label, reason and list of covered components. */
  function Relabel(c: Call, keyid: Option<StructuredFields.BareItem>, lab: Option<string>, reason: Reason,
                   covered: seq<StructuredFields.BareItem>): Call {
    c.(res := c.res.(keyid := keyid, lab := lab, reason := reason, covered := covered))
  }

  /** The calls differ at most in fields the policy must not look at. */
  ghost predicate SameButForLabels(calls: seq<Call>, others: seq<Call>) {
    |calls| == |others|
    && forall i :: 0 <= i < |calls| ==>
         var o := others[i].res;
         others[i] == Relabel(calls[i], o.keyid, o.lab, o.reason, o.covered)
  }

  lemma {:induction false} FirstMatchIgnoresLabels(lib: Library, rules: seq<Rule>, c: Call,
                                                   keyid: Option<StructuredFields.BareItem>,
                                                   lab: Option<string>, reason: Reason,
                                                   covered: seq<StructuredFields.BareItem>, i: nat)
    requires i <= |rules|
    ensures FirstMatch(lib, rules, Relabel(c, keyid, lab, reason, covered), i) == FirstMatch(lib, rules, c, i)
    decreases |rules| - i
  {
    if i < |rules| {
      assert Matches(lib, rules[i], Relabel(c, keyid, lab, reason, covered)) == Matches(lib, rules[i], c);
      hide Matches;
      FirstMatchIgnoresLabels(lib, rules, c, keyid, lab, reason, covered, i + 1);
    }
  }

  lemma DecideIgnoresLabels(lib: Library, rules: seq<Rule>, default: Action, hits: Hits, c: Call,
                            keyid: Option<StructuredFields.BareItem>, lab: Option<string>, reason: Reason,
                            covered: seq<StructuredFields.BareItem>)
    ensures var d := Relabel(c, keyid, lab, reason, covered);
            && Decide(lib, rules, default, hits, d) == Decide(lib, rules, default, hits, c)
            && AfterDecide(lib, rules, hits, d) == AfterDecide(lib, rules, hits, c)
  {
    FirstMatchIgnoresLabels(lib, rules, c, keyid, lab, reason, covered, 0);
    assert BucketId(Relabel(c, keyid, lab, reason, covered)) == BucketId(c);
    hide Matches, Key, BucketId, FirstMatch, RateLimit.Admit, RateLimit.Serve;
  }

  /** Rotating key ids changes nothing: the whole sequence of decisions stays the same. */
  lemma {:induction false} RotatingKeyidsChangesNothing(lib: Library, rules: seq<Rule>, default: Action,
                                                        calls: seq<Call>, others: seq<Call>)
    requires SameButForLabels(calls, others)
    ensures Decisions(lib, rules, default, others) == Decisions(lib, rules, default, calls)
    ensures HitsAfter(lib, rules, others) == HitsAfter(lib, rules, calls)
  {
    hide Decide, AfterDecide;
    if calls != [] {
      var n := |calls| - 1;
      RotatingKeyidsChangesNothing(lib, rules, default, calls[..n], others[..n]);
      var o := others[n].res;
      DecideIgnoresLabels(lib, rules, default, HitsAfter(lib, rules, calls[..n]), calls[n],
                          o.keyid, o.lab, o.reason, o.covered);
      assert others[n] == Relabel(calls[n], o.keyid, o.lab, o.reason, o.covered);
    }
  }

  /** All traffic of one client that is not verified, or has no operator, shares the client's bucket. */
  lemma UnprovenTrafficSharesABucket(c: Call, d: Call)
    requires c.clientKey == d.clientKey
    requires c.res.outcome != VERIFIED || c.res.operator == None || c.res.operator == Some("")
    ensures BucketId(c) == BucketId(d) <==>
              d.res.outcome != VERIFIED || d.res.operator == None || d.res.operator == Some("")
  {
    assert BucketId(c)[0] == 'c' && (BucketId(d)[0] == 'c' || BucketId(d)[0] == 'o');
  }

  // ---------- the engine ----------

  class PolicyEngine {
    const lib: Library
    const rules: seq<Rule>
    const default: Action
    var hits: Hits

    constructor (lib: Library, rules: seq<Rule>, default: Action)
      ensures this.lib == lib && this.rules == rules && this.default == default && hits == map[]
    {
      this.lib, this.rules, this.default, hits := lib, rules, default, map[];
    }

    method Evaluate(c: Call) returns (d: Decision)
      modifies this`hits
      ensures d == Decide(lib, rules, default, old(hits), c)
      ensures hits == AfterDecide(lib, rules, old(hits), c)
      ensures Decides(lib, rules, default, c, old(hits), d, hits)
    {
      DecidesIff(lib, rules, default, c, hits, Decide(lib, rules, default, hits, c), AfterDecide(lib, rules, hits, c));
      hide Matches, BucketId, Key, Rule.Name, Rule.Limit, Rule.Window, Decides;
      var i := 0;
      while i < |rules|
        invariant i <= |rules| && FirstMatch(lib, rules, c) == FirstMatch(lib, rules, c, i)
        invariant hits == old(hits)
      {
        var rule := rules[i];
        if !Matches(lib, rule, c) {
          i := i + 1;
          continue;
        }
        assert FirstMatch(lib, rules, c) == i;
        var name := rule.Name();
        match rule.action {
          case Allow => return Decision(Allow, name, 200, NoDetail, None);
          case Block =>
            return Decision(Block, name, 403, Message(rule.BlockMessage()), None);
          case Charge =>
            return Decision(Charge, name, 402, PaymentRequired, Some(rule.Price()));
          case RateLimited =>
            d := Limit(rule, c);
            return;
        }
      }
      return Decision(default, "default", if default == Allow then 200 else 403, NoDetail, None);
    }

    /** The rate-limit branch, on the deque of the call's bucket. */
    method Limit(rule: Rule, c: Call) returns (d: Decision)
      modifies this`hits
      ensures var bucket := Key(rule.Name(), BucketId(c));
              var before := HitsOf(old(hits), bucket);
              && hits == old(hits)[bucket := RateLimit.Serve(rule.Limit(), rule.Window(), before, c.now)]
              && d == if RateLimit.Admit(rule.Limit(), rule.Window(), before, c.now)
                      then Decision(Allow, rule.Name(), 200, WithinLimit, None)
                      else Decision(RateLimited, rule.Name(), 429, OverLimit(rule.Limit(), rule.Window(), bucket), None)
    {
      hide BucketId, Key;
      var limit, window := rule.Limit(), rule.Window();
      var bucket := Key(rule.Name(), BucketId(c));
      var deque := if bucket in hits then hits[bucket] else [];
      while deque != [] && deque[0] < c.now - window
        invariant RateLimit.Evict(deque, c.now - window) == RateLimit.Evict(HitsOf(hits, bucket), c.now - window)
        decreases |deque|
      {
        deque := deque[1..];
      }
      if |deque| >= limit {
        hits := hits[bucket := deque];
        return Decision(RateLimited, rule.Name(), 429, OverLimit(limit, window, bucket), None);
      }
      deque := deque + [c.now];
      hits := hits[bucket := deque];
      return Decision(Allow, rule.Name(), 200, WithinLimit, None);
    }
  }
}
