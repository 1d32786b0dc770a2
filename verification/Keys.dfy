/** Key discovery: statically registered keys, and directories fetched over HTTP and cached by their
    Cache-Control. A directory is an arbitrary function of URL and time; time is in seconds. */
module Keys {
  import opened Wrappers
  import opened Text
  import opened Base64
  import Json
  import StructuredFields

  const TEST_KEYID := "poqkLGiymh_W0uP6PZFw-dvez3QJT5SolqXBCW38r0U"
  const WELL_KNOWN := "/.well-known" + "/http-message-signatures-directory"
  const TTL_CAP := 86_400
  const NEGATIVE_CAP := 300

  // ---------- entities ----------

  /** A member of a JWK: a scalar, or a list or object, of which only the canonical text matters. */
  datatype Field = Scalar(value: Json.Value) | Nested(isList: bool, inside: string)

  /** The members of a JWK the gateway reads, of whatever type the directory gave them. */
  datatype Jwk = Jwk(
    kty: Option<Field>, crv: Option<Field>, x: Option<Field>, nbf: Option<Field>, exp: Option<Field>)

  function Word(s: string): Field {
    Scalar(Json.String(s))
  }

  type PublicKey = seq<Byte>

  datatype ResolvedKey = ResolvedKey(keyid: string, key: PublicKey, source: string)

  /** Why a key could not be obtained. */
  datatype Problem =
    | NoAgent | NotAbsolute | NotHttps | TypeNotSupported | NotAllowed
    | Unavailable(message: string) | NotPublished | NotYetValid | KeyExpired

  /** `Raised` is an exception that `resolve` lets escape. */
  datatype Resolution = Resolved(key: ResolvedKey) | TestKeyRejected | KeyNotFound(why: Problem) | Raised

  datatype CacheEntry = CacheEntry(expiresAt: int, keys: map<string, Jwk>, error: Option<string>)

  /** What a fetch yields: an error, the keys of a 200 response with its Cache-Control, or an exception that
      `_fetch` does not catch, as for a port httpx refuses or a body that is not an object with a list of
      objects. */
  datatype Reply = Failure(message: string) | Directory(keys: seq<Jwk>, cacheControl: string) | Uncaught

  /** What a fetch of a URL that completes at a time yields. */
  type World = (string, int) -> Reply

  /** A Signature-Agent as the structured-field parser left it; not always text. */
  type AgentUrl = Option<StructuredFields.BareItem>

  /** `BadPort` raises when it is read. */
  datatype Port = NoPort | Port(number: int) | BadPort

  datatype UrlParts = UrlParts(scheme: string, netloc: string, path: string, host: Option<string>, port: Port)

  /** `urlsplit` (None is the `ValueError` it raises), `urlunsplit` of scheme, netloc and path, case mapping,
      Python's `int`, SHA-256. */
  datatype Library = Library(
    split: string -> Option<UrlParts>,
    unsplit: (string, string, string) -> string,
    lower: string -> string,
    parseInt: string -> Option<int>,
    digest: string -> seq<Byte>)

  datatype Config = Config(
    devMode: bool, maxKeys: int, defaultTtl: int, requestedNegativeTtl: int, allowed: Option<seq<string>>)
  {
    function NegativeTtl(): int {
      if requestedNegativeTtl < NEGATIVE_CAP then requestedNegativeTtl else NEGATIVE_CAP
    }
  }

  /** The readings of the clock in one call: at the cache lookup, after a fetch, at the key check. */
  datatype Ticks = Ticks(check: int, fetched: int, use: int)

  datatype Fetch = Fetch(url: string, time: int)

  // ---------- thumbprints (RFC 7638, section 3) ----------

  function FieldText(f: Field): (text: string)
    ensures |text| > 0
  {
    match f
    case Scalar(v) => Json.Encode(v)
    case Nested(isList, inside) => (if isList then "[" else "{") + inside
  }

  function Label(name: string): string {
    Json.Quote(name) + ":"
  }

  const BEFORE := "{" + Label("crv")
  const BETWEEN := "," + (Label("kty") + Json.Quote("OKP")) + "," + Label("x")

  /** `json.dumps` of `crv`, `kty` and `x` with sorted keys and without spaces. */
  function CanonicalJwk(crv: Field, x: Field): string {
    BEFORE + (FieldText(crv) + (BETWEEN + (FieldText(x) + "}")))
  }

  /** For scalars it is the JSON of the object. */
  lemma CanonicalIsJson(crv: Json.Value, x: Json.Value)
    ensures CanonicalJwk(Scalar(crv), Scalar(x))
         == Json.EncodeObject([Json.Member("crv", crv), Json.Member("kty", Json.String("OKP")), Json.Member("x", x)])
  {
    var c, k, m := Json.Member("crv", crv), Json.Member("kty", Json.String("OKP")), Json.Member("x", x);
    ThreeMembers(c, k, m);
    hide Json.EncodeObject, Json.Quote;
    Flatten(Label("crv"), Json.Encode(crv), Label("kty") + Json.Quote("OKP"), Label("x"), Json.Encode(x));
  }

  lemma Flatten(p: string, u: string, q: string, r: string, w: string)
    ensures "{" + (p + u) + "," + q + "," + (r + w) + "}" == ("{" + p) + (u + (("," + q + "," + r) + (w + "}")))
  {
  }

  lemma ThreeMembers(a: Json.Member, b: Json.Member, c: Json.Member)
    ensures Json.EncodeObject([a, b, c])
         == "{" + Json.EncodeMember(a) + "," + Json.EncodeMember(b) + "," + Json.EncodeMember(c) + "}"
  {
    hide Json.EncodeMember;
    assert [a, b, c][1..] == [b, c] && [b, c][1..] == [c] && [c][1..] == [];
    assert Json.EncodeMembers([c]) == Json.EncodeMember(c) + "}";
    assert Json.EncodeMembers([b, c]) == Json.EncodeMember(b) + "," + (Json.EncodeMember(c) + "}");
    assert Json.EncodeMembers([a, b, c])
        == Json.EncodeMember(a) + "," + (Json.EncodeMember(b) + "," + (Json.EncodeMember(c) + "}"));
  }

  /** None stands for the `ValueError` or `KeyError` that makes the index skip a key. */
  function Thumbprint(lib: Library, jwk: Jwk): Option<string> {
    if jwk.kty != Some(Word("OKP")) then None
    else
      var crv :- jwk.crv;
      var x :- jwk.x;
      Some(UrlEncode(lib.digest(CanonicalJwk(crv, x))))
  }

  /** A thumbprint is the unpadded base64url text of the digest of the three members' JSON; a key has one when
      it is an OKP key with a curve and an `x`. */
  lemma ThumbprintIs(lib: Library, jwk: Jwk)
    ensures Thumbprint(lib, jwk).Some? <==> jwk.kty == Some(Scalar(Json.String("OKP"))) && jwk.crv.Some? && jwk.x.Some?
    ensures Thumbprint(lib, jwk).Some? && jwk.crv.value.Scalar? && jwk.x.value.Scalar? ==>
              var members := [Json.Member("crv", jwk.crv.value.value), Json.Member("kty", Json.String("OKP")),
                              Json.Member("x", jwk.x.value.value)];
              Thumbprint(lib, jwk).value == UrlEncode(lib.digest(Json.EncodeObject(members)))
  {
    hide UrlEncode, CanonicalJwk, Json.EncodeObject;
    if Thumbprint(lib, jwk).Some? && jwk.crv.value.Scalar? && jwk.x.value.Scalar? {
      CanonicalIsJson(jwk.crv.value.value, jwk.x.value.value);
    }
  }

  /** None stands for the exception raised: a `ValueError`, or a `TypeError` when `x` is not text. */
  function ToPublicKey(jwk: Jwk): Option<PublicKey> {
    if jwk.kty != Some(Word("OKP")) || jwk.crv != Some(Word("Ed25519")) then None
    else
      match jwk.x
      case Some(Scalar(String(x))) =>
        (var raw :- UrlDecode(x);
         if |raw| == 32 then Some(raw) else None)
      case _ => None
  }

  /** A list or an object begins with a bracket, and no scalar does. */
  lemma ScalarHasNoBracket(v: Json.Value, f: Field)
    requires FieldText(f)[0] == Json.Encode(v)[0]
    ensures f.Scalar?
  {
    hide Json.Escape, Thousandths, Text.Integer;
  }

  /** A scalar and what follows it are read back from a text, whatever wrote the text. */
  lemma ScalarReadBack(v: Json.Value, rest: string, f: Field, rest': string)
    requires Json.EndsValue(rest) && Json.EndsValue(rest') && Json.Encode(v) + rest == FieldText(f) + rest'
    ensures f == Scalar(v) && rest == rest'
  {
    hide Json.Encode, Json.Parse;
    assert (Json.Encode(v) + rest)[0] == Json.Encode(v)[0] && (FieldText(f) + rest')[0] == FieldText(f)[0];
    ScalarHasNoBracket(v, f);
    Json.ValueRoundTrip(v, rest);
    Json.ValueRoundTrip(f.value, rest');
  }

  /** The canonical text of scalar members determines them, even among texts of lists and objects. */
  lemma CanonicalJwkInjective(crv: Json.Value, x: Json.Value, crv': Field, x': Field)
    requires CanonicalJwk(Scalar(crv), Scalar(x)) == CanonicalJwk(crv', x')
    ensures crv' == Scalar(crv) && x' == Scalar(x)
  {
    hide FieldText, Json.Encode;
    var a, b := BETWEEN + (FieldText(Scalar(x)) + "}"), BETWEEN + (FieldText(x') + "}");
    SameTail(BEFORE, FieldText(Scalar(crv)) + a, FieldText(crv') + b);
    assert a[0] == ',' && b[0] == ',';
    ScalarText(crv);
    ScalarReadBack(crv, a, crv', b);
    SameTail(BETWEEN, FieldText(Scalar(x)) + "}", FieldText(x') + "}");
    ScalarText(x);
    ScalarReadBack(x, "}", x', "}");
  }

  lemma ScalarText(v: Json.Value)
    ensures FieldText(Scalar(v)) == Json.Encode(v)
  {
  }

  lemma SameTail(start: string, a: string, b: string)
    requires start + a == start + b
    ensures a == b
  {
    assert a == (start + a)[|start|..] == (start + b)[|start|..] == b;
  }

  /** A key id pins the key: unless the digest collides on these two keys, equal thumbprints mean the same key
      material, or that neither is usable, whichever directories published them and whatever JSON they put in
      its members; and scalar members are the same. */
  lemma ThumbprintPinsKey(lib: Library, a: Jwk, b: Jwk)
    requires Thumbprint(lib, a).Some? && Thumbprint(lib, a) == Thumbprint(lib, b)
    requires lib.digest(CanonicalJwk(a.crv.value, a.x.value)) == lib.digest(CanonicalJwk(b.crv.value, b.x.value))
        ==> CanonicalJwk(a.crv.value, a.x.value) == CanonicalJwk(b.crv.value, b.x.value)
    ensures ToPublicKey(a) == ToPublicKey(b)
    ensures a.crv.value.Scalar? && a.x.value.Scalar? ==> a.crv == b.crv && a.x == b.x
  {
    hide CanonicalJwk, UrlEncode, UrlDecode;
    UrlRoundTrip(lib.digest(CanonicalJwk(a.crv.value, a.x.value)));
    UrlRoundTrip(lib.digest(CanonicalJwk(b.crv.value, b.x.value)));
    if a.crv.value.Scalar? && a.x.value.Scalar? {
      CanonicalJwkInjective(a.crv.value.value, a.x.value.value, b.crv.value, b.x.value);
    } else if b.crv.value.Scalar? && b.x.value.Scalar? {
      CanonicalJwkInjective(b.crv.value.value, b.x.value.value, a.crv.value, a.x.value);
    }
  }

  // ---------- Cache-Control (section 5.2.2 of RFC 9111) ----------

  /** `part.strip().partition("=")[0]`. */
  function DirectiveName(part: string): string {
    var p := Strip(part);
    p[..Span(Except('='), p)]
  }

  function DirectiveValue(part: string): string {
    var p := Strip(part);
    var n := Span(Except('='), p);
    StripAll(Just('"'), Strip(if n == |p| then "" else p[n + 1..]))
  }

  /** A stripped part is `name=rest`, where the name has no equals sign and the value is the rest without the
      white space and then the quotes around it; or it is a name alone, with an empty value. */
  lemma DirectiveIs(part: string)
    ensures Free('=', DirectiveName(part))
    ensures if Free('=', Strip(part)) then DirectiveName(part) == Strip(part) && DirectiveValue(part) == ""
            else exists rest :: && Strip(part) == DirectiveName(part) + "=" + rest
                                && DirectiveValue(part) == StripAll(Just('"'), Strip(rest))
  {
    hide Strip, StripAll;
    var p := Strip(part);
    var n := Span(Except('='), p);
    if n < |p| {
      assert p == p[..n] + "=" + p[n + 1..] && p[n] == '=';
    } else {
      NothingIn();
    }
  }

  lemma NothingIn()
    ensures StripAll(Just('"'), Strip("")) == ""
  {
  }

  function Directives(parts: seq<string>): map<string, string> {
    if parts == [] then map[]
    else
      var n := |parts| - 1;
      var earlier := Directives(parts[..n]);
      var name := DirectiveName(parts[n]);
      if name == "" then earlier else earlier[name := DirectiveValue(parts[n])]
  }

  /** Part `k` is the last one that gives directive `name`. */
  ghost predicate LastOf(parts: seq<string>, name: string, k: nat) {
    && k < |parts| && DirectiveName(parts[k]) == name
    && forall j :: k < j < |parts| ==> DirectiveName(parts[j]) != name
  }

  /** A directive is present when some part names it, and its value is the last one given. */
  lemma {:induction false} DirectiveIsLast(parts: seq<string>, name: string)
    requires name != ""
    ensures name in Directives(parts) <==> exists k :: 0 <= k < |parts| && DirectiveName(parts[k]) == name
    ensures forall k: nat :: LastOf(parts, name, k) ==>
              name in Directives(parts) && Directives(parts)[name] == DirectiveValue(parts[k])
  {
    hide DirectiveName, DirectiveValue;
    if parts != [] {
      var n := |parts| - 1;
      DirectiveIsLast(parts[..n], name);
      assert forall k :: 0 <= k < n ==> parts[..n][k] == parts[k];
      forall k: nat | LastOf(parts, name, k)
        ensures name in Directives(parts) && Directives(parts)[name] == DirectiveValue(parts[k])
      {
        if k < n {
          assert LastOf(parts[..n], name, k);
          assert DirectiveName(parts[n]) != name;
        }
      }
    }
  }

  function Clamp(v: int): int {
    if v < 0 then 0 else if v > TTL_CAP then TTL_CAP else v
  }

  /** How long a directory with these directives may be reused. */
  function TtlOf(lib: Library, directives: map<string, string>, defaultTtl: int): int {
    if "no-store" in directives || "no-cache" in directives then 0
    else if "max-age" in directives then
      match lib.parseInt(directives["max-age"])
      case Some(v) => Clamp(v)
      case None => 0
    else defaultTtl
  }

  function DirectoryTtl(lib: Library, cacheControl: string, defaultTtl: int): int {
    TtlOf(lib, Directives(Split(',', lib.lower(cacheControl))), defaultTtl)
  }

  function MaxTtl(defaultTtl: int): int {
    if defaultTtl > TTL_CAP then defaultTtl else TTL_CAP
  }

  /** A part of the lower-cased header names the directive. */
  ghost predicate Names(lib: Library, cacheControl: string, name: string) {
    exists part :: part in Split(',', lib.lower(cacheControl)) && DirectiveName(part) == name
  }

  /** What a `max-age` part asks for: its value brought into the range from nothing to a day, and nothing
      when it is not a number. */
  function AgeOf(lib: Library, part: string): (ttl: int)
    ensures 0 <= ttl <= 86_400
    ensures var age := lib.parseInt(DirectiveValue(part));
            if age == None || age.value < 0 then ttl == 0
            else ttl == age.value || ttl == 86_400 < age.value
  {
    match lib.parseInt(DirectiveValue(part))
    case Some(v) => Clamp(v)
    case None => 0
  }

  /** Without `no-store` and `no-cache`, the last `max-age` gives the lifetime. */
  lemma LastMaxAgeCounts(lib: Library, cacheControl: string, defaultTtl: int, k: nat)
    requires !Names(lib, cacheControl, "no-store") && !Names(lib, cacheControl, "no-cache")
    requires LastOf(Split(',', lib.lower(cacheControl)), "max-age", k)
    ensures DirectoryTtl(lib, cacheControl, defaultTtl) == AgeOf(lib, Split(',', lib.lower(cacheControl))[k])
  {
    hide Split, DirectiveName, DirectiveValue, Directives, Names;
    NamesIffDirective(lib, cacheControl, "no-store");
    NamesIffDirective(lib, cacheControl, "no-cache");
    DirectiveIsLast(Split(',', lib.lower(cacheControl)), "max-age");
  }

  /** The lifetime is bounded by a day or the default; `no-store` or `no-cache` anywhere forbids reuse;
      without them the last `max-age` decides, and without that too it is the default. */
  lemma TtlBounds(lib: Library, cacheControl: string, defaultTtl: int)
    ensures DirectoryTtl(lib, cacheControl, defaultTtl) <= MaxTtl(defaultTtl)
    ensures Names(lib, cacheControl, "no-store") || Names(lib, cacheControl, "no-cache")
        ==> DirectoryTtl(lib, cacheControl, defaultTtl) == 0
    ensures !Names(lib, cacheControl, "no-store") && !Names(lib, cacheControl, "no-cache")
         && !Names(lib, cacheControl, "max-age")
        ==> DirectoryTtl(lib, cacheControl, defaultTtl) == defaultTtl
    ensures !Names(lib, cacheControl, "no-store") && !Names(lib, cacheControl, "no-cache") ==>
              var parts := Split(',', lib.lower(cacheControl));
              forall k: nat :: LastOf(parts, "max-age", k) ==>
                DirectoryTtl(lib, cacheControl, defaultTtl) == AgeOf(lib, parts[k])
  {
    hide Split, DirectiveName, Directives, AgeOf;
    NamesIffDirective(lib, cacheControl, "no-store");
    NamesIffDirective(lib, cacheControl, "no-cache");
    NamesIffDirective(lib, cacheControl, "max-age");
    if !Names(lib, cacheControl, "no-store") && !Names(lib, cacheControl, "no-cache") {
      forall k: nat | LastOf(Split(',', lib.lower(cacheControl)), "max-age", k)
        ensures DirectoryTtl(lib, cacheControl, defaultTtl) == AgeOf(lib, Split(',', lib.lower(cacheControl))[k])
      {
        LastMaxAgeCounts(lib, cacheControl, defaultTtl, k);
      }
    }
  }

  lemma NamesIffDirective(lib: Library, cacheControl: string, name: string)
    requires name != ""
    ensures Names(lib, cacheControl, name) <==> name in Directives(Split(',', lib.lower(cacheControl)))
  {
    hide Split, DirectiveName, Directives;
    var parts := Split(',', lib.lower(cacheControl));
    DirectiveIsLast(parts, name);
    if Names(lib, cacheControl, name) {
      var part :| part in parts && DirectiveName(part) == name;
      var k :| 0 <= k < |parts| && parts[k] == part;
    }
    if k :| 0 <= k < |parts| && DirectiveName(parts[k]) == name {
      assert parts[k] in parts;
    }
  }

  method ComputeDirectoryTtl(lib: Library, cacheControl: string, defaultTtl: int) returns (ttl: int)
    ensures ttl == DirectoryTtl(lib, cacheControl, defaultTtl)
  {
    hide Split, DirectiveName, DirectiveValue;
    var directives: map<string, string> := map[];
    var parts := Split(',', lib.lower(cacheControl));
    for i := 0 to |parts|
      invariant directives == Directives(parts[..i])
    {
      var name := DirectiveName(parts[i]);
      if name != "" {
        directives := directives[name := DirectiveValue(parts[i])];
      }
      assert parts[..i + 1][..i] == parts[..i];
    }
    assert parts[..|parts|] == parts;
    if "no-store" in directives || "no-cache" in directives {
      return 0;
    }
    if "max-age" in directives {
      var v := lib.parseInt(directives["max-age"]);
      return if v.Some? then Clamp(v.value) else 0;
    }
    return defaultTtl;
  }

  // ---------- directories ----------

  /** Keys by thumbprint; a later key with the same thumbprint replaces an earlier one. */
  function Index(lib: Library, keys: seq<Jwk>): map<string, Jwk> {
    if keys == [] then map[]
    else
      var n := |keys| - 1;
      var earlier := Index(lib, keys[..n]);
      match Thumbprint(lib, keys[n])
      case Some(kid) => earlier[kid := keys[n]]
      case None => earlier
  }

  lemma {:induction false} IndexIsByThumbprint(lib: Library, keys: seq<Jwk>, kid: string)
    ensures kid in Index(lib, keys) <==> exists j :: j in keys && Thumbprint(lib, j) == Some(kid)
    ensures kid in Index(lib, keys) ==>
              Index(lib, keys)[kid] in keys && Thumbprint(lib, Index(lib, keys)[kid]) == Some(kid)
  {
    hide Thumbprint;
    if keys != [] {
      var n := |keys| - 1;
      IndexIsByThumbprint(lib, keys[..n], kid);
      assert keys == keys[..n] + [keys[n]];
    }
  }

  function EntryOf(lib: Library, cfg: Config, reply: Reply, time: int): CacheEntry
    requires !reply.Uncaught?
  {
    match reply
    case Failure(message) => CacheEntry(time + cfg.NegativeTtl(), map[], Some(message))
    case Directory(keys, cacheControl) =>
      if |keys| > cfg.maxKeys then CacheEntry(time + cfg.NegativeTtl(), map[], Some("too many keys in directory"))
      else CacheEntry(time + DirectoryTtl(lib, cacheControl, cfg.defaultTtl), Index(lib, keys), None)
  }

  // ---------- which URL is fetched ----------

  /** `CannotTell`: the comparison raises. */
  datatype Comparison = Same | Differs | CannotTell

  /** `_same_origin_or_url`. */
  function Compare(lib: Library, url: string, allowed: string): Comparison {
    if url == allowed then Same
    else
      match (lib.split(allowed), lib.split(url))
      case (Some(a), Some(u)) =>
        if a.path != "" && a.path != "/" then Differs
        else if a.port.BadPort? || u.port.BadPort? then CannotTell
        else if a.scheme == u.scheme && HostText(a) == HostText(u) && a.port == u.port then Same
        else Differs
      case _ => CannotTell
  }

  function HostText(parts: UrlParts): string {
    if parts.host.Some? then parts.host.value else ""
  }

  /** `any` over the allowlist: the first entry that does not differ decides. */
  function OnList(lib: Library, url: string, allowed: seq<string>): Comparison {
    if allowed == [] then Differs
    else if Compare(lib, url, allowed[0]) == Differs then OnList(lib, url, allowed[1..])
    else Compare(lib, url, allowed[0])
  }

  /** Entry `k` decides. */
  ghost predicate DecidesAt(lib: Library, url: string, allowed: seq<string>, k: nat) {
    && k < |allowed| && Compare(lib, url, allowed[k]) != Differs
    && forall j :: 0 <= j < k ==> Compare(lib, url, allowed[j]) == Differs
  }

  lemma {:induction false} OnListIff(lib: Library, url: string, allowed: seq<string>)
    ensures forall k: nat :: DecidesAt(lib, url, allowed, k) ==>
              OnList(lib, url, allowed) == Compare(lib, url, allowed[k])
    ensures (forall a :: a in allowed ==> Compare(lib, url, a) == Differs) <==> OnList(lib, url, allowed) == Differs
    ensures OnList(lib, url, allowed) != Differs ==> exists k: nat :: DecidesAt(lib, url, allowed, k)
  {
    hide Compare;
    if allowed != [] {
      OnListIff(lib, url, allowed[1..]);
      if Compare(lib, url, allowed[0]) == Differs {
        forall k: nat | DecidesAt(lib, url, allowed, k)
          ensures OnList(lib, url, allowed) == Compare(lib, url, allowed[k])
        {
          assert DecidesAt(lib, url, allowed[1..], k - 1);
        }
        if k: nat :| DecidesAt(lib, url, allowed[1..], k) {
          assert DecidesAt(lib, url, allowed, k + 1);
        }
      } else {
        assert DecidesAt(lib, url, allowed, 0);
      }
    }
  }

  datatype UrlResult = Url(url: string) | NoUrl(why: Problem) | UrlRaises

  /** `_fetch_url` of a text. */
  function FetchUrl(lib: Library, cfg: Config, agentUrl: string, agentType: string): UrlResult {
    match lib.split(agentUrl)
    case None => UrlRaises
    case Some(parts) =>
      if (parts.scheme != "https" && parts.scheme != "http") || HostText(parts) == "" then NoUrl(NotAbsolute)
      else if parts.scheme == "http" && !cfg.devMode then NoUrl(NotHttps)
      else if agentType != "jwks_uri" && agentType != "directory" then NoUrl(TypeNotSupported)
      else
        var url := if agentType == "jwks_uri" then agentUrl else lib.unsplit(parts.scheme, parts.netloc, WELL_KNOWN);
        match (if cfg.allowed.Some? then OnList(lib, url, cfg.allowed.value) else Same)
        case Same => Url(url)
        case Differs => NoUrl(NotAllowed)
        case CannotTell => UrlRaises
  }

  /** Whether Python takes the item for false. */
  predicate Falsy(v: StructuredFields.BareItem) {
    match v
    case Integer(i) => i == 0
    case Fixed(m) => m == 0
    case Str(s) => s == ""
    case Token(t) => t == ""
    case Bytes(b) => b == []
    case Boolean(flag) => !flag
  }

  /** The text of bytes that are ASCII. */
  function AsciiText(b: seq<Byte>): Option<string> {
    if exists x :: x in b && x >= 128 then None else Some(seq(|b|, i requires 0 <= i < |b| => b[i] as char))
  }

  /** Where an agent leads: nowhere when it is absent or false. `urlsplit` takes text, and bytes that are
      ASCII, whose scheme is then bytes and no known one; of anything else it asks for methods it has not. */
  function Target(lib: Library, cfg: Config, agent: AgentUrl, agentType: string): UrlResult {
    if agent.None? || Falsy(agent.value) then NoUrl(NoAgent)
    else
      match agent.value
      case Str(url) => FetchUrl(lib, cfg, url, agentType)
      case Bytes(b) =>
        (match AsciiText(b)
         case Some(url) => if lib.split(url).Some? then NoUrl(NotAbsolute) else UrlRaises
         case None => UrlRaises)
      case _ => UrlRaises
  }

  /** An agent no URL can be made of: it is neither text nor bytes, or `urlsplit` rejects it. */
  predicate Malformed(lib: Library, agent: StructuredFields.BareItem) {
    match agent
    case Str(url) => lib.split(url) == None
    case Bytes(b) => AsciiText(b) == None || lib.split(AsciiText(b).value) == None
    case _ => true
  }

  /** The URL that would be fetched, were there no allowlist. */
  function Candidate(lib: Library, cfg: Config, agent: AgentUrl, agentType: string): Option<string> {
    match Target(lib, cfg.(allowed := None), agent, agentType)
    case Url(url) => Some(url)
    case _ => None
  }

  /** Exactly when finding the URL raises: the agent is malformed, or the entry of the allowlist that decides
      cannot be compared with the URL. */
  lemma TargetRaisesIff(lib: Library, cfg: Config, agent: AgentUrl, agentType: string)
    ensures Target(lib, cfg, agent, agentType) == UrlRaises <==>
              && agent.Some? && !Falsy(agent.value)
              && (|| Malformed(lib, agent.value)
                  || (&& cfg.allowed.Some? && Candidate(lib, cfg, agent, agentType).Some?
                      && var url := Candidate(lib, cfg, agent, agentType).value;
                         exists k: nat :: && DecidesAt(lib, url, cfg.allowed.value, k)
                                          && Uncomparable(lib, url, cfg.allowed.value[k])))
  {
    hide AsciiText, Falsy, DecidesAt, OnList;
    if agent.Some? && agent.value.Str? && !Falsy(agent.value) && cfg.allowed.Some? {
      var c := Candidate(lib, cfg, agent, agentType);
      if c.Some? {
        UncomparableOnList(lib, c.value, cfg.allowed.value);
      }
    }
  }

  /** A URL that is not the allowed one, and one of the two is rejected by `urlsplit`, or an origin is asked
      for and one of the two has a bad port. */
  predicate Uncomparable(lib: Library, url: string, allowed: string) {
    && url != allowed
    && match (lib.split(allowed), lib.split(url))
       case (Some(a), Some(u)) => (a.path == "" || a.path == "/") && (a.port.BadPort? || u.port.BadPort?)
       case _ => true
  }

  lemma UncomparableOnList(lib: Library, url: string, allowed: seq<string>)
    ensures OnList(lib, url, allowed) == CannotTell <==>
              exists k: nat :: DecidesAt(lib, url, allowed, k) && Uncomparable(lib, url, allowed[k])
  {
    OnListIff(lib, url, allowed);
    hide OnList;
  }

  // ---------- static keys ----------

  /** The registered keys after `add_static_jwk`; a key that is not usable changes nothing. */
  function WithStatic(lib: Library, statics: map<string, ResolvedKey>, jwk: Jwk,
                      name: string): map<string, ResolvedKey> {
    match (Thumbprint(lib, jwk), ToPublicKey(jwk))
    case (Some(k), Some(key)) => statics[k := ResolvedKey(k, key, "static:" + name)]
    case _ => statics
  }

  datatype Registration = Registration(jwk: Jwk, name: string)

  /** The registered keys after these calls, from none. */
  function Registered(lib: Library, calls: seq<Registration>): map<string, ResolvedKey> {
    if calls == [] then map[]
    else
      var n := |calls| - 1;
      WithStatic(lib, Registered(lib, calls[..n]), calls[n].jwk, calls[n].name)
  }

  /** Call `k` is the last to register a usable key with this thumbprint. */
  ghost predicate RegistersLast(lib: Library, calls: seq<Registration>, kid: string, k: nat) {
    && k < |calls| && Thumbprint(lib, calls[k].jwk) == Some(kid) && ToPublicKey(calls[k].jwk).Some?
    && forall j :: k < j < |calls| && ToPublicKey(calls[j].jwk).Some? ==> Thumbprint(lib, calls[j].jwk) != Some(kid)
  }

  /** Every registered key is the usable one that was registered last under its thumbprint, and its source is
      `static:` and the name it was given. */
  lemma {:induction false} RegisteredAs(lib: Library, calls: seq<Registration>, kid: string)
    requires kid in Registered(lib, calls)
    ensures exists k: nat :: && RegistersLast(lib, calls, kid, k)
                             && Registered(lib, calls)[kid]
                                == ResolvedKey(kid, ToPublicKey(calls[k].jwk).value, "static:" + calls[k].name)
  {
    hide Thumbprint, ToPublicKey;
    var n := |calls| - 1;
    var jwk := calls[n].jwk;
    if Thumbprint(lib, jwk) == Some(kid) && ToPublicKey(jwk).Some? {
      assert RegistersLast(lib, calls, kid, n);
    } else {
      RegisteredAs(lib, calls[..n], kid);
      var k: nat :| RegistersLast(lib, calls[..n], kid, k)
        && Registered(lib, calls[..n])[kid]
           == ResolvedKey(kid, ToPublicKey(calls[..n][k].jwk).value, "static:" + calls[..n][k].name);
      assert RegistersLast(lib, calls, kid, k);
    }
  }

  /** All sources of registered keys are names behind `static:`. */
  ghost predicate Named(statics: map<string, ResolvedKey>) {
    forall kid :: kid in statics ==> "static:" <= statics[kid].source
  }

  lemma RegisteredIsNamed(lib: Library, calls: seq<Registration>)
    ensures Named(Registered(lib, calls))
  {
    hide Thumbprint, ToPublicKey, Registered;
    forall kid | kid in Registered(lib, calls)
      ensures "static:" <= Registered(lib, calls)[kid].source
    {
      RegisteredAs(lib, calls, kid);
    }
  }

  /** The public half of an Ed25519 key pair as a JWK. */
  function PublicJwk(raw: seq<Byte>): Jwk {
    Jwk(Some(Word("OKP")), Some(Word("Ed25519")), Some(Word(UrlEncode(raw))), None, None)
  }

  /** Registering a key pair's public half makes its 32 bytes available under its thumbprint. */
  lemma RegisteredIsFound(lib: Library, statics: map<string, ResolvedKey>, raw: seq<Byte>, name: string)
    requires |raw| == 32
    ensures Thumbprint(lib, PublicJwk(raw)).Some?
    ensures var kid := Thumbprint(lib, PublicJwk(raw)).value;
            WithStatic(lib, statics, PublicJwk(raw), name)
            == statics[kid := ResolvedKey(kid, raw, "static:" + name)]
  {
    hide UrlEncode, UrlDecode, CanonicalJwk;
    UrlRoundTrip(raw);
  }

  // ---------- resolving ----------

  /** The least integer whose thousandth no float can hold: half a unit in the last place above the largest. */
  const FLOAT_LIMIT: int := (Pow2(1024) - Pow2(970)) * 1000

  /** A date of a JWK in thousandths; None when Python cannot compare it with a number, or cannot divide it by
      1000 because it is an integer the quotient of which is too large for a float. */
  function Stamp(v: Field): Option<int> {
    match v
    case Scalar(Whole(i)) => if i >= FLOAT_LIMIT then None else Some(i * 1000)
    case Scalar(Number(m)) => Some(m)
    case Scalar(Flag(b)) => Some(if b then 1000 else 0)
    case _ => None
  }

  /** `_seconds`: values after the year 5000 are milliseconds. Whether `t` seconds is before the stamp. */
  predicate Before(t: int, stamp: int) {
    if stamp > 100_000_000_000_000 then t * 1_000_000 < stamp else t * 1000 < stamp
  }

  predicate After(t: int, stamp: int) {
    if stamp > 100_000_000_000_000 then t * 1_000_000 > stamp else t * 1000 > stamp
  }

  predicate BadStamp(v: Option<Field>) {
    v.Some? && Stamp(v.value).None?
  }

  predicate NotYet(jwk: Jwk, now: int) {
    jwk.nbf.Some? && Stamp(jwk.nbf.value).Some? && Before(now, Stamp(jwk.nbf.value).value)
  }

  predicate NoLonger(jwk: Jwk, now: int) {
    jwk.exp.Some? && Stamp(jwk.exp.value).Some? && After(now, Stamp(jwk.exp.value).value)
  }

  /** The key is valid at `now`. */
  predicate InForce(jwk: Jwk, now: int) {
    !BadStamp(jwk.nbf) && !BadStamp(jwk.exp) && !NotYet(jwk, now) && !NoLonger(jwk, now)
  }

  /** A date of a key is a number of seconds, unless it is greater than 10^11: then it is one of milliseconds.
      A key is not yet valid before `nbf` and no longer after `exp`, itself included in its validity. */
  lemma DatesAreSeconds(jwk: Jwk, now: int, i: int)
    requires i < FLOAT_LIMIT
    ensures jwk.nbf == Some(Scalar(Json.Whole(i))) ==>
              (NotYet(jwk, now) <==> if i <= 100_000_000_000 then now < i else now * 1000 < i)
    ensures jwk.exp == Some(Scalar(Json.Whole(i))) ==>
              (NoLonger(jwk, now) <==> if i <= 100_000_000_000 then i < now else i < now * 1000)
  {
    hide Pow2;
  }

  /** The same of dates with a fraction, in thousandths. */
  lemma FractionalDates(jwk: Jwk, now: int, m: int)
    ensures jwk.nbf == Some(Scalar(Json.Number(m))) ==>
              (NotYet(jwk, now) <==> if m <= 100_000_000_000_000 then now * 1000 < m else now * 1_000_000 < m)
    ensures jwk.exp == Some(Scalar(Json.Number(m))) ==>
              (NoLonger(jwk, now) <==> if m <= 100_000_000_000_000 then m < now * 1000 else m < now * 1_000_000)
    ensures jwk.nbf == None ==> !NotYet(jwk, now)
    ensures jwk.exp == None ==> !NoLonger(jwk, now)
  {
    hide Pow2;
  }

  /** Python cannot compare with a date that is neither a number nor a truth value, or is an integer too
      large for a float. */
  lemma BadDates(v: Option<Field>)
    ensures BadStamp(v) <==>
              v.Some? && match v.value
                         case Nested(_, _) => true
                         case Scalar(Null) => true
                         case Scalar(String(_)) => true
                         case Scalar(Whole(i)) => i >= FLOAT_LIMIT
                         case _ => false
  {
    hide Pow2;
  }

  datatype State = State(statics: map<string, ResolvedKey>, cache: map<string, CacheEntry>, fetches: seq<Fetch>)

  /** A cached entry may be used when it expires later than now. */
  predicate Cached(s: State, url: string, now: int) {
    url in s.cache && s.cache[url].expiresAt > now
  }

  /** The entry a call works with; None when the fetch raises. */
  function EntryFor(lib: Library, cfg: Config, world: World, s: State, url: string, t: Ticks): Option<CacheEntry> {
    if Cached(s, url, t.check) then Some(s.cache[url])
    else if world(url, t.fetched).Uncaught? then None
    else Some(EntryOf(lib, cfg, world(url, t.fetched), t.fetched))
  }

  function FromEntry(entry: CacheEntry, url: string, keyid: string, now: int): Resolution {
    if entry.error.Some? && entry.error.value != "" then KeyNotFound(Unavailable(entry.error.value))
    else if keyid !in entry.keys then KeyNotFound(NotPublished)
    else
      var jwk := entry.keys[keyid];
      if BadStamp(jwk.nbf) then Raised
      else if NotYet(jwk, now) then KeyNotFound(NotYetValid)
      else if BadStamp(jwk.exp) then Raised
      else if NoLonger(jwk, now) then KeyNotFound(KeyExpired)
      else
        match ToPublicKey(jwk)
        case Some(key) => Resolved(ResolvedKey(keyid, key, url))
        case None => Raised
  }

  /** Whether a call gets past the test key and the registered keys. */
  predicate Discovers(cfg: Config, s: State, keyid: string) {
    (keyid != TEST_KEYID || cfg.devMode) && keyid !in s.statics
  }

  /** The URL a call consults, if it gets as far as a directory. */
  function Consults(lib: Library, cfg: Config, s: State, keyid: string, agentUrl: AgentUrl,
                    agentType: string): Option<string> {
    if !Discovers(cfg, s, keyid) then None
    else
      match Target(lib, cfg, agentUrl, agentType)
      case Url(url) => Some(url)
      case _ => None
  }

  function Resolve(lib: Library, cfg: Config, world: World, s: State,
                   keyid: string, agentUrl: AgentUrl, agentType: string, t: Ticks): Resolution {
    if keyid == TEST_KEYID && !cfg.devMode then TestKeyRejected
    else if keyid in s.statics then Resolved(s.statics[keyid])
    else
      match Target(lib, cfg, agentUrl, agentType)
      case UrlRaises => Raised
      case NoUrl(why) => KeyNotFound(why)
      case Url(url) =>
        match EntryFor(lib, cfg, world, s, url, t)
        case None => Raised
        case Some(entry) => FromEntry(entry, url, keyid, t.use)
  }

  /** A fetch that raises leaves nothing in the cache. */
  function AfterResolve(lib: Library, cfg: Config, world: World, s: State,
                        keyid: string, agentUrl: AgentUrl, agentType: string, t: Ticks): State {
    match Consults(lib, cfg, s, keyid, agentUrl, agentType)
    case None => s
    case Some(url) =>
      if Cached(s, url, t.check) then s
      else
        var more := s.fetches + [Fetch(url, t.fetched)];
        if world(url, t.fetched).Uncaught? then s.(fetches := more)
        else s.(cache := s.cache[url := EntryOf(lib, cfg, world(url, t.fetched), t.fetched)], fetches := more)
  }

  // ---------- what a lookup must do ----------

  /** An absolute URL of the web at a host. */
  predicate IsWeb(p: UrlParts) {
    (p.scheme == "https" || p.scheme == "http") && p.host.Some? && p.host.value != ""
  }

  /** The URL where the keys of the agent `text` are: the text itself for a list of keys, the well-known path
      of its origin for a directory. */
  ghost predicate LeadsTo(lib: Library, cfg: Config, text: string, kind: string, url: string) {
    exists p :: && lib.split(text) == Some(p) && IsWeb(p) && (p.scheme == "https" || cfg.devMode)
                && (|| (kind == "jwks_uri" && url == text)
                    || (kind == "directory"
                        && url == lib.unsplit(p.scheme, p.netloc,
                                              "/.well-known" + "/http-message-signatures-directory")))
  }

  /** The allowed URL is the URL, or it is an origin, and the URL's. */
  ghost predicate Admits(lib: Library, url: string, allowed: string) {
    || url == allowed
    || exists a, u :: && lib.split(allowed) == Some(a) && lib.split(url) == Some(u) && (a.path == "" || a.path == "/")
                      && a.scheme == u.scheme && HostText(a) == HostText(u) && a.port == u.port && !a.port.BadPort?
  }

  /** The allowed URL is another one with a path, or another origin. */
  ghost predicate RulesOut(lib: Library, url: string, allowed: string) {
    && url != allowed
    && exists a, u :: && lib.split(allowed) == Some(a) && lib.split(url) == Some(u)
                      && (|| (a.path != "" && a.path != "/")
                          || (&& !a.port.BadPort? && !u.port.BadPort?
                              && (a.scheme != u.scheme || HostText(a) != HostText(u) || a.port != u.port)))
  }

  /** Entry `k` admits the URL and those before it rule it out. */
  ghost predicate AdmitsAt(lib: Library, url: string, allowed: seq<string>, k: nat) {
    && k < |allowed| && Admits(lib, url, allowed[k])
    && forall j :: 0 <= j < k ==> RulesOut(lib, url, allowed[j])
  }

  /** There is no allowlist, or some entry admits the URL before one cannot be compared with it. */
  ghost predicate Admitted(lib: Library, cfg: Config, url: string) {
    cfg.allowed.Some? ==> exists k: nat :: AdmitsAt(lib, url, cfg.allowed.value, k)
  }

  /** Every entry of the allowlist rules the URL out. */
  ghost predicate Excluded(lib: Library, cfg: Config, url: string) {
    cfg.allowed.Some? && forall a :: a in cfg.allowed.value ==> RulesOut(lib, url, a)
  }

  /** Why an agent text leads to no URL that may be fetched. */
  ghost predicate LeadsNowhere(lib: Library, cfg: Config, text: string, kind: string, why: Problem) {
    exists p :: lib.split(text) == Some(p) && match why
      case NotAbsolute => !IsWeb(p)
      case NotHttps => IsWeb(p) && p.scheme == "http" && !cfg.devMode
      case TypeNotSupported =>
        IsWeb(p) && (p.scheme == "https" || cfg.devMode) && kind != "directory" && kind != "jwks_uri"
      case NotAllowed =>
        exists url :: LeadsTo(lib, cfg, text, kind, url) && Excluded(lib, cfg, url)
      case _ => false
  }

  /** The last of the keys that has the thumbprint. */
  ghost predicate LastWith(lib: Library, keys: seq<Jwk>, kid: string, k: nat) {
    && k < |keys| && Thumbprint(lib, keys[k]) == Some(kid)
    && forall j :: k < j < |keys| ==> Thumbprint(lib, keys[j]) != Some(kid)
  }

  /** What the index holds under a thumbprint. */
  ghost predicate IndexHolds(lib: Library, keys: seq<Jwk>, index: map<string, Jwk>, kid: string) {
    if kid in index then exists k: nat :: LastWith(lib, keys, kid, k) && index[kid] == keys[k]
    else forall j :: j in keys ==> Thumbprint(lib, j) != Some(kid)
  }

  /** The keys of a directory by thumbprint; the last one with a thumbprint counts. */
  ghost predicate IsIndex(lib: Library, keys: seq<Jwk>, index: map<string, Jwk>) {
    forall kid :: IndexHolds(lib, keys, index, kid)
  }

  /** What is remembered of a fetch: an error for the negative lifetime, at most 300 s, or the keys for what
      Cache-Control allows. */
  ghost predicate Remembers(lib: Library, cfg: Config, reply: Reply, time: int, entry: CacheEntry) {
    match reply
    case Failure(message) => IsErrorEntry(cfg, message, time, entry)
    case Directory(keys, cacheControl) =>
      if |keys| > cfg.maxKeys then IsErrorEntry(cfg, "too many keys in directory", time, entry)
      else
        && entry.error == None && IsIndex(lib, keys, entry.keys)
        && entry.expiresAt == time + DirectoryTtl(lib, cacheControl, cfg.defaultTtl)
    case Uncaught => false
  }

  predicate IsErrorEntry(cfg: Config, message: string, time: int, entry: CacheEntry) {
    && entry.error == Some(message) && entry.keys == map[]
    && entry.expiresAt == time + if cfg.requestedNegativeTtl > 300 then 300 else cfg.requestedNegativeTtl
  }

  /** What is answered from what is remembered of a URL: its error; that it does not list the key; that the key
      is not in force; an exception; or the key, with the URL as its source. */
  ghost predicate AnswersFrom(entry: CacheEntry, url: string, keyid: string, now: int, r: Resolution) {
    if entry.error.Some? && entry.error.value != "" then r == KeyNotFound(Unavailable(entry.error.value))
    else if keyid !in entry.keys then r == KeyNotFound(NotPublished)
    else
      var jwk := entry.keys[keyid];
      match r
      case Resolved(key) =>
        InForce(jwk, now) && ToPublicKey(jwk) == Some(key.key) && key.keyid == keyid && key.source == url
      case KeyNotFound(why) =>
        || (why == NotYetValid && NotYet(jwk, now))
        || (why == KeyExpired && !BadStamp(jwk.nbf) && !NotYet(jwk, now) && NoLonger(jwk, now))
      case Raised => Defective(jwk, now)
      case TestKeyRejected => false
  }

  /** A URL is fetched unless what is remembered of it has not run out; and it is answered from that. */
  ghost predicate Consulted(lib: Library, cfg: Config, world: World, s: State, url: string, keyid: string, t: Ticks,
                            r: Resolution, s': State) {
    if url in s.cache && t.check < s.cache[url].expiresAt then
      s' == s && AnswersFrom(s.cache[url], url, keyid, t.use, r)
    else
      && s'.statics == s.statics && s'.fetches == s.fetches + [Fetch(url, t.fetched)]
      && if world(url, t.fetched).Uncaught? then r == Raised && s'.cache == s.cache
         else
           && url in s'.cache && s'.cache == s.cache[url := s'.cache[url]]
           && Remembers(lib, cfg, world(url, t.fetched), t.fetched, s'.cache[url])
           && AnswersFrom(s'.cache[url], url, keyid, t.use, r)
  }

  /** Nothing is looked up. */
  predicate Stays(s: State, s': State, r: Resolution, answer: Resolution) {
    s' == s && r == answer
  }

  /** What a lookup under the agent `text` does. */
  ghost predicate FollowsAgent(lib: Library, cfg: Config, world: World, s: State, keyid: string, text: string,
                               kind: string, t: Ticks, r: Resolution, s': State) {
    || (lib.split(text) == None && Stays(s, s', r, Raised))
    || (exists why :: LeadsNowhere(lib, cfg, text, kind, why) && Stays(s, s', r, KeyNotFound(why)))
    || (exists url :: && LeadsTo(lib, cfg, text, kind, url) && Admitted(lib, cfg, url)
                      && Consulted(lib, cfg, world, s, url, keyid, t, r, s'))
    || (exists url :: && LeadsTo(lib, cfg, text, kind, url) && !Admitted(lib, cfg, url) && !Excluded(lib, cfg, url)
                      && Stays(s, s', r, Raised))
  }

  /** The items Python takes for false. */
  const FALSE: set<StructuredFields.BareItem> :=
    {StructuredFields.Integer(0), StructuredFields.Fixed(0), StructuredFields.Str(""), StructuredFields.Token(""),
     StructuredFields.Bytes([]), StructuredFields.Boolean(false)}

  /** Bytes that `urlsplit` takes; their scheme is then bytes too, and no known one. */
  predicate SplitsAsBytes(lib: Library, v: StructuredFields.BareItem) {
    v.Bytes? && AsciiText(v.b).Some? && lib.split(AsciiText(v.b).value).Some?
  }

  /** What a lookup does: the published test key is refused outside development mode, a registered key is
      taken, and otherwise the agent is followed. An agent that is not text leads to no fetch. */
  ghost predicate LooksUp(lib: Library, cfg: Config, world: World, s: State, keyid: string, agent: AgentUrl,
                          kind: string, t: Ticks, r: Resolution, s': State) {
    if keyid == "poqkLGiymh_W0uP6PZFw-dvez3QJT5SolqXBCW38r0U" && !cfg.devMode then Stays(s, s', r, TestKeyRejected)
    else if keyid in s.statics then Stays(s, s', r, Resolved(s.statics[keyid]))
    else if agent == None || agent.value in FALSE then Stays(s, s', r, KeyNotFound(NoAgent))
    else if agent.value.Str? then FollowsAgent(lib, cfg, world, s, keyid, agent.value.s, kind, t, r, s')
    else Stays(s, s', r, if SplitsAsBytes(lib, agent.value) then KeyNotFound(NotAbsolute) else Raised)
  }

  lemma CompareMeans(lib: Library, url: string, allowed: string)
    ensures Compare(lib, url, allowed) == Same <==> Admits(lib, url, allowed)
    ensures Compare(lib, url, allowed) == Differs <==> RulesOut(lib, url, allowed)
  {
  }

  lemma AdmitsAtMeans(lib: Library, url: string, allowed: seq<string>, k: nat)
    requires k < |allowed|
    ensures AdmitsAt(lib, url, allowed, k) <==> DecidesAt(lib, url, allowed, k) && Compare(lib, url, allowed[k]) == Same
  {
    hide Compare, Admits, RulesOut;
    CompareMeans(lib, url, allowed[k]);
    forall j | 0 <= j < k
      ensures Compare(lib, url, allowed[j]) == Differs <==> RulesOut(lib, url, allowed[j])
    {
      CompareMeans(lib, url, allowed[j]);
    }
  }

  lemma OnListMeans(lib: Library, cfg: Config, url: string)
    requires cfg.allowed.Some?
    ensures OnList(lib, url, cfg.allowed.value) == Same <==> Admitted(lib, cfg, url)
    ensures OnList(lib, url, cfg.allowed.value) == Differs <==> Excluded(lib, cfg, url)
  {
    hide Compare, RulesOut, OnList, DecidesAt, AdmitsAt;
    var list := cfg.allowed.value;
    OnListIff(lib, url, list);
    if k: nat :| DecidesAt(lib, url, list, k) {
      DecidingEntry(lib, url, list, k);
      AdmitsAtMeans(lib, url, list, k);
      CompareMeans(lib, url, list[k]);
    }
    if k: nat :| AdmitsAt(lib, url, list, k) {
      AdmittingEntry(lib, url, list, k);
      AdmitsAtMeans(lib, url, list, k);
    }
    forall a | a in list
      ensures Compare(lib, url, a) == Differs <==> RulesOut(lib, url, a)
    {
      CompareMeans(lib, url, a);
    }
  }

  lemma DecidingEntry(lib: Library, url: string, allowed: seq<string>, k: nat)
    requires DecidesAt(lib, url, allowed, k)
    ensures k < |allowed| && Compare(lib, url, allowed[k]) != Differs && allowed[k] in allowed
  {
  }

  lemma AdmittingEntry(lib: Library, url: string, allowed: seq<string>, k: nat)
    requires AdmitsAt(lib, url, allowed, k)
    ensures k < |allowed|
  {
  }

  lemma FetchUrlMeans(lib: Library, cfg: Config, text: string, kind: string)
    ensures match FetchUrl(lib, cfg, text, kind)
            case Url(url) => LeadsTo(lib, cfg, text, kind, url) && Admitted(lib, cfg, url)
            case NoUrl(why) => LeadsNowhere(lib, cfg, text, kind, why)
            case UrlRaises =>
              || lib.split(text) == None
              || exists url ::
                   LeadsTo(lib, cfg, text, kind, url) && !Admitted(lib, cfg, url) && !Excluded(lib, cfg, url)
  {
    hide OnList;
    if lib.split(text).Some? {
      var p := lib.split(text).value;
      var url := if kind == "jwks_uri" then text else lib.unsplit(p.scheme, p.netloc, WELL_KNOWN);
      if cfg.allowed.Some? {
        OnListMeans(lib, cfg, url);
      }
      hide Admitted, Excluded;
      NoListAdmits(lib, cfg, url);
      if IsWeb(p) && (p.scheme == "https" || cfg.devMode) && (kind == "jwks_uri" || kind == "directory") {
        assert LeadsTo(lib, cfg, text, kind, url);
      }
    }
  }

  lemma NoListAdmits(lib: Library, cfg: Config, url: string)
    ensures cfg.allowed == None ==> Admitted(lib, cfg, url)
  {
  }

  lemma {:induction false} IndexIsLast(lib: Library, keys: seq<Jwk>, kid: string)
    ensures IndexHolds(lib, keys, Index(lib, keys), kid)
  {
    hide Thumbprint;
    if keys != [] {
      var n := |keys| - 1;
      IndexIsLast(lib, keys[..n], kid);
      assert keys == keys[..n] + [keys[n]];
      if Thumbprint(lib, keys[n]) == Some(kid) {
        assert LastWith(lib, keys, kid, n);
      } else if kid in Index(lib, keys[..n]) {
        var k: nat :| LastWith(lib, keys[..n], kid, k) && Index(lib, keys[..n])[kid] == keys[..n][k];
        assert LastWith(lib, keys, kid, k);
      }
    }
  }

  lemma EntryRemembers(lib: Library, cfg: Config, reply: Reply, time: int)
    requires !reply.Uncaught?
    ensures Remembers(lib, cfg, reply, time, EntryOf(lib, cfg, reply, time))
  {
    hide Index, DirectoryTtl, IndexHolds;
    if reply.Directory? {
      forall kid
        ensures IndexHolds(lib, reply.keys, Index(lib, reply.keys), kid)
      {
        IndexIsLast(lib, reply.keys, kid);
      }
    }
  }

  lemma FromEntryAnswers(entry: CacheEntry, url: string, keyid: string, now: int)
    ensures AnswersFrom(entry, url, keyid, now, FromEntry(entry, url, keyid, now))
  {
    hide UrlDecode, Before, After, Stamp;
  }

  lemma EntryIsConsulted(lib: Library, cfg: Config, world: World, s: State, url: string, keyid: string, t: Ticks)
    ensures var more := s.fetches + [Fetch(url, t.fetched)];
            match EntryFor(lib, cfg, world, s, url, t)
            case None => Consulted(lib, cfg, world, s, url, keyid, t, Raised, s.(fetches := more))
            case Some(entry) =>
              Consulted(lib, cfg, world, s, url, keyid, t, FromEntry(entry, url, keyid, t.use),
                        if Cached(s, url, t.check) then s else s.(cache := s.cache[url := entry], fetches := more))
  {
    hide EntryOf, FromEntry, AnswersFrom, Remembers;
    if !world(url, t.fetched).Uncaught? {
      EntryRemembers(lib, cfg, world(url, t.fetched), t.fetched);
      FromEntryAnswers(EntryOf(lib, cfg, world(url, t.fetched), t.fetched), url, keyid, t.use);
    }
    if Cached(s, url, t.check) {
      FromEntryAnswers(s.cache[url], url, keyid, t.use);
    }
  }

  lemma FalsyIs(v: StructuredFields.BareItem)
    ensures Falsy(v) <==> v in FALSE
  {
  }

  /** `resolve` does what a lookup must do. */
  lemma ResolveLooksUp(lib: Library, cfg: Config, world: World, s: State, keyid: string, agent: AgentUrl,
                       kind: string, t: Ticks)
    ensures LooksUp(lib, cfg, world, s, keyid, agent, kind, t, Resolve(lib, cfg, world, s, keyid, agent, kind, t),
                    AfterResolve(lib, cfg, world, s, keyid, agent, kind, t))
  {
    hide FetchUrl, LeadsTo, LeadsNowhere, Admitted, EntryOf, FromEntry, Consulted, AsciiText, Falsy;
    if Discovers(cfg, s, keyid) && agent.Some? {
      FalsyIs(agent.value);
      if agent.value.Str? && agent.value !in FALSE {
        FetchUrlMeans(lib, cfg, agent.value.s, kind);
        var target := FetchUrl(lib, cfg, agent.value.s, kind);
        if target.Url? {
          EntryIsConsulted(lib, cfg, world, s, target.url, keyid, t);
        }
      }
    }
  }

  lemma IndexIsUnique(lib: Library, keys: seq<Jwk>, a: map<string, Jwk>, b: map<string, Jwk>)
    requires IsIndex(lib, keys, a) && IsIndex(lib, keys, b)
    ensures a == b
  {
    hide Thumbprint;
    forall kid
      ensures kid in a <==> kid in b
      ensures kid in a ==> a[kid] == b[kid]
    {
      assert IndexHolds(lib, keys, a, kid) && IndexHolds(lib, keys, b, kid);
      if kid in a && kid in b {
        var j: nat :| LastWith(lib, keys, kid, j) && a[kid] == keys[j];
        var k: nat :| LastWith(lib, keys, kid, k) && b[kid] == keys[k];
        assert j == k;
      }
    }
  }

  lemma RemembersIsUnique(lib: Library, cfg: Config, reply: Reply, time: int, a: CacheEntry, b: CacheEntry)
    requires Remembers(lib, cfg, reply, time, a) && Remembers(lib, cfg, reply, time, b)
    ensures a == b
  {
    hide IsIndex, DirectoryTtl;
    if reply.Directory? && |reply.keys| <= cfg.maxKeys {
      IndexIsUnique(lib, reply.keys, a.keys, b.keys);
    }
  }

  lemma AnswerFromIsUnique(entry: CacheEntry, url: string, keyid: string, now: int, q: Resolution, r: Resolution)
    requires AnswersFrom(entry, url, keyid, now, q) && AnswersFrom(entry, url, keyid, now, r)
    ensures q == r
  {
    hide UrlDecode, Before, After, Stamp;
  }

  lemma ConsultedIsUnique(lib: Library, cfg: Config, world: World, s: State, url: string, keyid: string, t: Ticks,
                          q: Resolution, a: State, r: Resolution, b: State)
    requires Consulted(lib, cfg, world, s, url, keyid, t, q, a) && Consulted(lib, cfg, world, s, url, keyid, t, r, b)
    ensures q == r && a == b
  {
    hide AnswersFrom, Remembers;
    if url in s.cache && t.check < s.cache[url].expiresAt {
      AnswerFromIsUnique(s.cache[url], url, keyid, t.use, q, r);
    } else if !world(url, t.fetched).Uncaught? {
      RemembersIsUnique(lib, cfg, world(url, t.fetched), t.fetched, a.cache[url], b.cache[url]);
      AnswerFromIsUnique(a.cache[url], url, keyid, t.use, q, r);
    }
  }

  lemma AdmittedIsNotExcluded(lib: Library, cfg: Config, url: string)
    requires cfg.allowed.Some? && Admitted(lib, cfg, url)
    ensures !Excluded(lib, cfg, url)
  {
    hide AdmitsAt, RulesOut;
    var k: nat :| AdmitsAt(lib, url, cfg.allowed.value, k);
    AdmittingEntry(lib, url, cfg.allowed.value, k);
    AdmitsAtMeans(lib, url, cfg.allowed.value, k);
    CompareMeans(lib, url, cfg.allowed.value[k]);
    assert cfg.allowed.value[k] in cfg.allowed.value;
  }

  /** Where an agent leads, and whether and why it may not be fetched, is determined. */
  lemma LeadIsUnique(lib: Library, cfg: Config, text: string, kind: string, url: string)
    requires LeadsTo(lib, cfg, text, kind, url)
    ensures lib.split(text).Some?
    ensures forall other :: LeadsTo(lib, cfg, text, kind, other) ==> other == url
    ensures forall why :: LeadsNowhere(lib, cfg, text, kind, why) ==>
              why == NotAllowed && Excluded(lib, cfg, url) && !Admitted(lib, cfg, url)
  {
    hide Admitted, Excluded;
    if cfg.allowed.Some? && Admitted(lib, cfg, url) {
      AdmittedIsNotExcluded(lib, cfg, url);
    }
    NotExcluded(lib, cfg, url);
    assert forall other :: LeadsTo(lib, cfg, text, kind, other) ==> other == url;
  }

  lemma NotExcluded(lib: Library, cfg: Config, url: string)
    ensures cfg.allowed == None ==> !Excluded(lib, cfg, url)
  {
  }

  lemma FollowsIsUnique(lib: Library, cfg: Config, world: World, s: State, keyid: string, text: string,
                        kind: string, t: Ticks, q: Resolution, a: State, r: Resolution, b: State)
    requires FollowsAgent(lib, cfg, world, s, keyid, text, kind, t, q, a)
    requires FollowsAgent(lib, cfg, world, s, keyid, text, kind, t, r, b)
    ensures q == r && a == b
  {
    hide LeadsTo, LeadsNowhere, Admitted, Excluded, Consulted;
    if url :| LeadsTo(lib, cfg, text, kind, url) {
      LeadIsUnique(lib, cfg, text, kind, url);
      ExcludedIsNowhere(lib, cfg, text, kind, url);
      if Admitted(lib, cfg, url) {
        ConsultedIsUnique(lib, cfg, world, s, url, keyid, t, q, a, r, b);
      }
    } else {
      NowhereIsUnique(lib, cfg, text, kind);
    }
  }

  lemma ExcludedIsNowhere(lib: Library, cfg: Config, text: string, kind: string, url: string)
    requires LeadsTo(lib, cfg, text, kind, url)
    ensures Excluded(lib, cfg, url) ==> LeadsNowhere(lib, cfg, text, kind, NotAllowed)
  {
  }

  lemma NowhereIsUnique(lib: Library, cfg: Config, text: string, kind: string)
    ensures forall v, w :: LeadsNowhere(lib, cfg, text, kind, v) && LeadsNowhere(lib, cfg, text, kind, w) ==> v == w
    ensures forall w :: LeadsNowhere(lib, cfg, text, kind, w) ==> lib.split(text).Some?
  {
    hide Excluded;
  }

  /** What a lookup must do determines what it answers and what it leaves. */
  lemma LookupIsUnique(lib: Library, cfg: Config, world: World, s: State, keyid: string, agent: AgentUrl,
                       kind: string, t: Ticks, r: Resolution, s': State)
    ensures LooksUp(lib, cfg, world, s, keyid, agent, kind, t, r, s')
       <==> && r == Resolve(lib, cfg, world, s, keyid, agent, kind, t)
            && s' == AfterResolve(lib, cfg, world, s, keyid, agent, kind, t)
  {
    hide FollowsAgent, Resolve, AfterResolve, AsciiText;
    var q := Resolve(lib, cfg, world, s, keyid, agent, kind, t);
    var a := AfterResolve(lib, cfg, world, s, keyid, agent, kind, t);
    ResolveLooksUp(lib, cfg, world, s, keyid, agent, kind, t);
    if LooksUp(lib, cfg, world, s, keyid, agent, kind, t, r, s') && Discovers(cfg, s, keyid) {
      if agent.Some? && agent.value !in FALSE && agent.value.Str? {
        FollowsIsUnique(lib, cfg, world, s, keyid, agent.value.s, kind, t, q, a, r, s');
      }
    }
  }

  // ---------- agreement with the directories ----------

  /** Every cached entry is what some fetch made so far, no later than `now`, yielded. */
  ghost predicate Honest(lib: Library, cfg: Config, world: World, s: State, now: int) {
    forall url :: url in s.cache ==> HonestEntry(lib, cfg, world, s.fetches, url, s.cache[url], now)
  }

  ghost predicate HonestEntry(lib: Library, cfg: Config, world: World, fetches: seq<Fetch>, url: string,
                              entry: CacheEntry, now: int) {
    exists f :: f in fetches && f.url == url && f.time <= now && Yields(lib, cfg, world, f, entry)
  }

  /** The fetch made the entry. */
  ghost predicate Yields(lib: Library, cfg: Config, world: World, f: Fetch, entry: CacheEntry) {
    !world(f.url, f.time).Uncaught? && entry == EntryOf(lib, cfg, world(f.url, f.time), f.time)
  }

  predicate InOrder(now: int, t: Ticks) {
    now <= t.check <= t.fetched <= t.use
  }

  lemma ResolveKeepsHonest(lib: Library, cfg: Config, world: World, s: State, now: int,
                           keyid: string, agentUrl: AgentUrl, agentType: string, t: Ticks)
    requires Honest(lib, cfg, world, s, now) && InOrder(now, t)
    ensures Honest(lib, cfg, world, AfterResolve(lib, cfg, world, s, keyid, agentUrl, agentType, t), t.use)
  {
    hide EntryOf, FetchUrl;
    var s' := AfterResolve(lib, cfg, world, s, keyid, agentUrl, agentType, t);
    forall url | url in s'.cache
      ensures HonestEntry(lib, cfg, world, s'.fetches, url, s'.cache[url], t.use)
    {
      if url in s.cache && s'.cache[url] == s.cache[url] {
        assert HonestEntry(lib, cfg, world, s.fetches, url, s.cache[url], now);
        var f :| f in s.fetches && f.url == url && f.time <= now
          && Yields(lib, cfg, world, f, s.cache[url]);
        assert f in s'.fetches;
      } else {
        assert Fetch(url, t.fetched) in s'.fetches;
      }
    }
  }

  /** `key` is a currently valid key with this thumbprint among `keys`. */
  ghost predicate Published(lib: Library, keys: seq<Jwk>, key: ResolvedKey, now: int) {
    exists jwk :: jwk in keys && Thumbprint(lib, jwk) == Some(key.keyid) && ToPublicKey(jwk) == Some(key.key)
      && InForce(jwk, now)
  }

  /** Fetch `f` of the key's source published the key, and the call either made that fetch itself or
      looked it up before its lifetime ran out. */
  ghost predicate Vouches(lib: Library, cfg: Config, world: World, f: Fetch, key: ResolvedKey, t: Ticks) {
    && f.url == key.source && f.time <= t.use
    && world(f.url, f.time).Directory?
    && Published(lib, world(f.url, f.time).keys, key, t.use)
    && var ttl := DirectoryTtl(lib, world(f.url, f.time).cacheControl, cfg.defaultTtl);
       ttl <= MaxTtl(cfg.defaultTtl) && (f.time == t.fetched || t.check < f.time + ttl)
  }

  /** The agent is text that leads to the URL, and the URL may be fetched. */
  ghost predicate AgentLeadsTo(lib: Library, cfg: Config, agent: AgentUrl, kind: string, url: string) {
    && agent.Some? && agent.value.Str? && agent.value.s != ""
    && LeadsTo(lib, cfg, agent.value.s, kind, url) && Admitted(lib, cfg, url)
  }

  lemma LeadNeedsAgent(lib: Library, cfg: Config, agent: AgentUrl, kind: string, url: string)
    requires AgentLeadsTo(lib, cfg, agent, kind, url)
    ensures agent.Some?
  {
  }

  lemma TargetMeans(lib: Library, cfg: Config, agent: AgentUrl, kind: string)
    ensures var target := Target(lib, cfg, agent, kind);
            target.Url? ==> AgentLeadsTo(lib, cfg, agent, kind, target.url)
  {
    hide FetchUrl, LeadsTo, LeadsNowhere, Admitted, AsciiText;
    if agent.Some? && agent.value.Str? {
      FetchUrlMeans(lib, cfg, agent.value.s, kind);
    }
  }

  /** A key resolved from a directory has the requested thumbprint and was published by exactly the URL the
      agent leads to, at a fetch that is this call's own or still within its lifetime. */
  lemma ResolvedIsPublished(lib: Library, cfg: Config, world: World, s: State, now: int,
                            keyid: string, agentUrl: AgentUrl, agentType: string, t: Ticks)
    requires Honest(lib, cfg, world, s, now) && InOrder(now, t) && keyid !in s.statics
    requires Resolve(lib, cfg, world, s, keyid, agentUrl, agentType, t).Resolved?
    ensures var key := Resolve(lib, cfg, world, s, keyid, agentUrl, agentType, t).key;
            && key.keyid == keyid && AgentLeadsTo(lib, cfg, agentUrl, agentType, key.source)
            && exists f :: f in AfterResolve(lib, cfg, world, s, keyid, agentUrl, agentType, t).fetches
                        && Vouches(lib, cfg, world, f, key, t)
  {
    hide FetchUrl, Thumbprint, ToPublicKey, DirectoryTtl, Index;
    TargetMeans(lib, cfg, agentUrl, agentType);
    hide AgentLeadsTo;
    var key := Resolve(lib, cfg, world, s, keyid, agentUrl, agentType, t).key;
    var url := key.source;
    var f := Fetch(url, t.fetched);
    if Cached(s, url, t.check) {
      assert HonestEntry(lib, cfg, world, s.fetches, url, s.cache[url], now);
      f :| f in s.fetches && f.url == url && f.time <= now
          && Yields(lib, cfg, world, f, s.cache[url]);
    }
    EntryVouches(lib, cfg, world, f, EntryFor(lib, cfg, world, s, url, t).value, key, t);
  }

  /** The source of a resolved key: that of the registered key, or the URL the agent leads to. */
  lemma SourceIs(lib: Library, cfg: Config, world: World, s: State, keyid: string, agent: AgentUrl, kind: string,
                 t: Ticks)
    requires Resolve(lib, cfg, world, s, keyid, agent, kind, t).Resolved?
    ensures var key := Resolve(lib, cfg, world, s, keyid, agent, kind, t).key;
            if keyid in s.statics then key == s.statics[keyid]
            else key.keyid == keyid && AgentLeadsTo(lib, cfg, agent, kind, key.source)
  {
    hide Target, AgentLeadsTo, EntryFor, ToPublicKey, Before, After, Stamp;
    TargetMeans(lib, cfg, agent, kind);
  }

  lemma EntryVouches(lib: Library, cfg: Config, world: World, f: Fetch, entry: CacheEntry, key: ResolvedKey, t: Ticks)
    requires Yields(lib, cfg, world, f, entry)
    requires f.url == key.source && f.time <= t.use && (f.time == t.fetched || entry.expiresAt > t.check)
    requires FromEntry(entry, key.source, key.keyid, t.use) == Resolved(key)
    ensures Vouches(lib, cfg, world, f, key, t)
  {
    hide Thumbprint, ToPublicKey, DirectoryTtl, Index, Before, After;
    assert entry.keys != map[];
    var reply := world(f.url, f.time);
    IndexIsByThumbprint(lib, reply.keys, key.keyid);
    TtlBounds(lib, reply.cacheControl, cfg.defaultTtl);
    assert Published(lib, reply.keys, key, t.use);
  }

  /** A failed fetch is reused only before its negative lifetime, at most 300 s, has run out. */
  lemma FailureReuseIsShort(lib: Library, cfg: Config, world: World, s: State, now: int, url: string, t: Ticks)
    requires Honest(lib, cfg, world, s, now) && Cached(s, url, t.check) && s.cache[url].error.Some?
    ensures exists f :: f in s.fetches && f.url == url
              && Yields(lib, cfg, world, f, s.cache[url])
              && t.check < f.time + cfg.NegativeTtl() && t.check < f.time + NEGATIVE_CAP
  {
    assert HonestEntry(lib, cfg, world, s.fetches, url, s.cache[url], now);
    hide DirectoryTtl, Index;
    var f :| f in s.fetches && f.url == url && f.time <= now
          && Yields(lib, cfg, world, f, s.cache[url]);
    assert t.check < f.time + cfg.NegativeTtl();
  }

  /** A directory marked `no-store` or `no-cache` is never reused while the clock does not go back. */
  lemma NoStoreIsNeverReused(lib: Library, cfg: Config, world: World, s: State, url: string, f: Fetch, now: int)
    requires url in s.cache && f.url == url && Yields(lib, cfg, world, f, s.cache[url]) && f.time <= now
    requires world(url, f.time).Directory? && |world(url, f.time).keys| <= cfg.maxKeys
    requires var cacheControl := world(url, f.time).cacheControl;
             Names(lib, cacheControl, "no-store") || Names(lib, cacheControl, "no-cache")
    ensures !Cached(s, url, now)
  {
    hide Index, DirectoryTtl, Names;
    TtlBounds(lib, world(url, f.time).cacheControl, cfg.defaultTtl);
  }

  /** A key `jwk_to_public_key` refuses: it is not Ed25519, or its `x` is not the text of 32 bytes. */
  predicate Unusable(jwk: Jwk) {
    || jwk.kty != Some(Word("OKP")) || jwk.crv != Some(Word("Ed25519"))
    || jwk.x.None? || !jwk.x.value.Scalar? || !jwk.x.value.value.String?
    || UrlDecode(jwk.x.value.value.text).None? || |UrlDecode(jwk.x.value.value.text).value| != 32
  }

  /** What `resolve` raises on: a date that is not a number or too large, or within its dates a key that is not
      usable. */
  predicate Defective(jwk: Jwk, now: int) {
    || BadStamp(jwk.nbf)
    || (!NotYet(jwk, now) && BadStamp(jwk.exp))
    || (InForce(jwk, now) && Unusable(jwk))
  }

  /** Exactly when `resolve` lets an exception escape. A call that gets past the test key and the registered
      keys raises when its agent or the allowlist cannot be read as URLs, when the fetch raises, or when the
      directory lists a defective key under the requested thumbprint. */
  lemma RaisesIff(lib: Library, cfg: Config, world: World, s: State,
                  keyid: string, agentUrl: AgentUrl, agentType: string, t: Ticks)
    ensures Resolve(lib, cfg, world, s, keyid, agentUrl, agentType, t).Raised?
       <==> && Discovers(cfg, s, keyid)
            && match Target(lib, cfg, agentUrl, agentType)
               case UrlRaises => true
               case NoUrl(_) => false
               case Url(url) =>
                 match EntryFor(lib, cfg, world, s, url, t)
                 case None => !Cached(s, url, t.check) && world(url, t.fetched).Uncaught?
                 case Some(entry) =>
                   && (entry.error == None || entry.error == Some("")) && keyid in entry.keys
                   && Defective(entry.keys[keyid], t.use)
  {
    hide Target, EntryOf, UrlDecode, Before, After, Stamp;
  }

  /** A first input: an agent that `urlsplit` rejects, such as `https://[x`. No directory is consulted. */
  lemma MalformedAgentRaises(lib: Library, cfg: Config, world: World, s: State,
                             keyid: string, agentUrl: string, agentType: string, t: Ticks)
    requires agentUrl != "" && lib.split(agentUrl) == None && Discovers(cfg, s, keyid)
    ensures Resolve(lib, cfg, world, s, keyid, Some(StructuredFields.Str(agentUrl)), agentType, t) == Raised
    ensures AfterResolve(lib, cfg, world, s, keyid, Some(StructuredFields.Str(agentUrl)), agentType, t) == s
  {
  }

  /** A second: with an allowlist whose first entry is the origin of another host, a directory at a port out
      of range, such as `https://h:99999/`. */
  lemma BadPortRaises(lib: Library, cfg: Config, world: World, s: State,
                      keyid: string, agentUrl: string, t: Ticks, origin: string)
    requires Discovers(cfg, s, keyid) && cfg.allowed == Some([origin]) && agentUrl != "" && agentUrl != origin
    requires lib.split(agentUrl).Some? && lib.split(origin).Some? && lib.split(origin).value.path == ""
    requires var u := lib.split(agentUrl).value; u.scheme == "https" && u.port == BadPort && HostText(u) != ""
    ensures Resolve(lib, cfg, world, s, keyid, Some(StructuredFields.Str(agentUrl)), "jwks_uri", t) == Raised
  {
    assert [origin][1..] == [];
  }

  /** A third: a directory that lists one X25519 key, asked for that key. The key is not skipped, it is
      indexed, and `resolve` raises. */
  lemma X25519KeyRaises(lib: Library, cfg: Config, world: World, s: State, agentUrl: string, agentType: string,
                        t: Ticks, x: string, cacheControl: string)
    requires agentUrl != "" && FetchUrl(lib, cfg, agentUrl, agentType).Url? && cfg.maxKeys >= 1
    requires var url, jwk := FetchUrl(lib, cfg, agentUrl, agentType).url, X25519(x);
             && !Cached(s, url, t.check) && world(url, t.fetched) == Directory([jwk], cacheControl)
             && Thumbprint(lib, jwk).value !in s.statics && Thumbprint(lib, jwk).value != TEST_KEYID
    ensures Resolve(lib, cfg, world, s, Thumbprint(lib, X25519(x)).value, Some(StructuredFields.Str(agentUrl)),
                    agentType, t) == Raised
  {
    hide FetchUrl, Thumbprint, DirectoryTtl;
    var jwk := X25519(x);
    var kid := Thumbprint(lib, jwk).value;
    assert [jwk][..0] == [];
    assert Index(lib, [jwk]) == map[kid := jwk];
  }

  /** A fourth: a directory that lists one key with an integer for `nbf` that is too large, asked for it. */
  lemma HugeDateRaises(lib: Library, cfg: Config, world: World, s: State, agentUrl: string, agentType: string,
                       t: Ticks, jwk: Jwk, cacheControl: string, kid: string)
    requires agentUrl != "" && FetchUrl(lib, cfg, agentUrl, agentType).Url? && cfg.maxKeys >= 1
    requires HasHugeNbf(jwk) && Thumbprint(lib, jwk) == Some(kid) && Discovers(cfg, s, kid)
    requires var url := FetchUrl(lib, cfg, agentUrl, agentType).url;
             !Cached(s, url, t.check) && world(url, t.fetched) == Directory([jwk], cacheControl)
    ensures Resolve(lib, cfg, world, s, kid, Some(StructuredFields.Str(agentUrl)), agentType, t) == Raised
  {
    hide FetchUrl, Thumbprint, DirectoryTtl, ToPublicKey;
    assert [jwk][..0] == [];
    assert Index(lib, [jwk]) == map[kid := jwk];
  }

  predicate HasHugeNbf(jwk: Jwk) {
    jwk.nbf.Some? && jwk.nbf.value.Scalar? && jwk.nbf.value.value.Whole? && jwk.nbf.value.value.i >= FLOAT_LIMIT
  }

  function X25519(x: string): (jwk: Jwk)
    ensures forall lib :: Thumbprint(lib, jwk).Some?
  {
    Jwk(Some(Word("OKP")), Some(Word("X25519")), Some(Word(x)), None, None)
  }

  // ---------- runs ----------

  datatype Query = Query(keyid: string, agentUrl: AgentUrl, agentType: string, t: Ticks)

  function AfterQueries(lib: Library, cfg: Config, world: World, s: State, queries: seq<Query>): State {
    if queries == [] then s
    else
      var n := |queries| - 1;
      var q := queries[n];
      var before := AfterQueries(lib, cfg, world, s, queries[..n]);
      AfterResolve(lib, cfg, world, before, q.keyid, q.agentUrl, q.agentType, q.t)
  }

  predicate ClockForward(queries: seq<Query>) {
    && (forall i :: 0 <= i < |queries| ==> InOrder(queries[i].t.check, queries[i].t))
    && (forall i, j :: 0 <= i < j < |queries| ==> queries[i].t.use <= queries[j].t.check)
  }

  lemma {:induction false} RunIsHonest(lib: Library, cfg: Config, world: World, s: State, queries: seq<Query>, now: int)
    requires s.cache == map[] && ClockForward(queries)
    requires queries != [] ==> queries[|queries| - 1].t.use <= now
    ensures Honest(lib, cfg, world, AfterQueries(lib, cfg, world, s, queries), now)
  {
    hide AfterResolve;
    if queries != [] {
      var n := |queries| - 1;
      var q := queries[n];
      RunIsHonest(lib, cfg, world, s, queries[..n], q.t.check);
      hide Honest;
      ResolveKeepsHonest(lib, cfg, world, AfterQueries(lib, cfg, world, s, queries[..n]), q.t.check,
                         q.keyid, q.agentUrl, q.agentType, q.t);
      StillHonest(lib, cfg, world, AfterQueries(lib, cfg, world, s, queries), q.t.use, now);
    }
  }

  lemma StillHonest(lib: Library, cfg: Config, world: World, s: State, now: int, later: int)
    requires Honest(lib, cfg, world, s, now) && now <= later
    ensures Honest(lib, cfg, world, s, later)
  {
    hide EntryOf;
    forall url | url in s.cache
      ensures HonestEntry(lib, cfg, world, s.fetches, url, s.cache[url], later)
    {
      assert HonestEntry(lib, cfg, world, s.fetches, url, s.cache[url], now);
    }
  }

  /** Over every run from an empty cache against an arbitrarily changing set of directories. */
  lemma EveryResolvedKeyWasPublished(lib: Library, cfg: Config, world: World, s: State, queries: seq<Query>, q: Query)
    requires s.cache == map[] && ClockForward(queries + [q]) && q.keyid !in s.statics
    requires var before := AfterQueries(lib, cfg, world, s, queries);
             Resolve(lib, cfg, world, before, q.keyid, q.agentUrl, q.agentType, q.t).Resolved?
    ensures var before := AfterQueries(lib, cfg, world, s, queries);
            var key := Resolve(lib, cfg, world, before, q.keyid, q.agentUrl, q.agentType, q.t).key;
            && key.keyid == q.keyid && AgentLeadsTo(lib, cfg, q.agentUrl, q.agentType, key.source)
            && exists f :: f in AfterQueries(lib, cfg, world, s, queries + [q]).fetches
                        && Vouches(lib, cfg, world, f, key, q.t)
  {
    hide Resolve, Vouches, Honest, AfterResolve, AgentLeadsTo;
    var all := queries + [q];
    assert all[..|queries|] == queries && all[|queries|] == q;
    assert ClockForward(queries) by {
      assert forall i :: 0 <= i < |queries| ==> queries[i] == all[i];
    }
    assert queries != [] ==> all[|queries| - 1].t.use <= all[|queries|].t.check;
    RunIsHonest(lib, cfg, world, s, queries, q.t.check);
    StaticsStay(lib, cfg, world, s, queries);
    ResolvedIsPublished(lib, cfg, world, AfterQueries(lib, cfg, world, s, queries), q.t.check,
                        q.keyid, q.agentUrl, q.agentType, q.t);
  }

  /** Every URL ever fetched is one that an agent of some query leads to and the allowlist, if there is one,
      admits. */
  lemma {:induction false} OnlyAllowedAreFetched(lib: Library, cfg: Config, world: World, s: State,
                                                 queries: seq<Query>, f: Fetch)
    requires s.fetches == [] && f in AfterQueries(lib, cfg, world, s, queries).fetches
    ensures exists q :: q in queries && AgentLeadsTo(lib, cfg, q.agentUrl, q.agentType, f.url)
    ensures cfg.allowed.Some? ==> exists a :: a in cfg.allowed.value && Admits(lib, f.url, a)
  {
    hide EntryOf, Target, AgentLeadsTo, Admits;
    if queries != [] {
      var n := |queries| - 1;
      if f in AfterQueries(lib, cfg, world, s, queries[..n]).fetches {
        OnlyAllowedAreFetched(lib, cfg, world, s, queries[..n], f);
        var q :| q in queries[..n] && AgentLeadsTo(lib, cfg, q.agentUrl, q.agentType, f.url);
        assert q in queries;
      } else {
        TargetMeans(lib, cfg, queries[n].agentUrl, queries[n].agentType);
        assert AgentLeadsTo(lib, cfg, queries[n].agentUrl, queries[n].agentType, f.url);
        if cfg.allowed.Some? {
          SomeEntryAdmits(lib, cfg, queries[n].agentUrl, queries[n].agentType, f.url);
        }
      }
    }
  }

  lemma SomeEntryAdmits(lib: Library, cfg: Config, agent: AgentUrl, kind: string, url: string)
    requires cfg.allowed.Some? && AgentLeadsTo(lib, cfg, agent, kind, url)
    ensures exists a :: a in cfg.allowed.value && Admits(lib, url, a)
  {
    hide LeadsTo, Admits;
    var k: nat :| AdmitsAt(lib, url, cfg.allowed.value, k);
    assert cfg.allowed.value[k] in cfg.allowed.value;
  }

  /** Fetch `i` gave something to remember. */
  ghost predicate Told(world: World, fetches: seq<Fetch>, i: nat) {
    i < |fetches| && !world(fetches[i].url, fetches[i].time).Uncaught?
  }

  /** When what fetch `i` gave runs out. */
  ghost function RunsOut(lib: Library, cfg: Config, world: World, fetches: seq<Fetch>, i: nat): int
    requires Told(world, fetches, i)
  {
    EntryOf(lib, cfg, world(fetches[i].url, fetches[i].time), fetches[i].time).expiresAt
  }

  /** Fetch `k` is the last of its URL that gave something to remember, and that is remembered. */
  ghost predicate Remembered(lib: Library, cfg: Config, world: World, s: State, k: nat) {
    && Told(world, s.fetches, k) && s.fetches[k].url in s.cache
    && s.cache[s.fetches[k].url].expiresAt == RunsOut(lib, cfg, world, s.fetches, k)
    && forall m: nat :: k < m && Told(world, s.fetches, m) ==> s.fetches[m].url != s.fetches[k].url
  }

  /** Later fetches of a URL come after what an earlier one gave has run out. */
  ghost predicate Spaced(lib: Library, cfg: Config, world: World, fetches: seq<Fetch>, i: nat, j: nat) {
    i < j < |fetches| && fetches[i].url == fetches[j].url && Told(world, fetches, i)
    ==> RunsOut(lib, cfg, world, fetches, i) <= fetches[j].time
  }

  /** What an equal fetch gave, this one or a later one, is remembered. */
  ghost predicate Kept(lib: Library, cfg: Config, world: World, s: State, i: nat) {
    Told(world, s.fetches, i) ==>
      exists k: nat :: i <= k && Remembered(lib, cfg, world, s, k) && s.fetches[k].url == s.fetches[i].url
  }

  ghost predicate SpacedSoFar(lib: Library, cfg: Config, world: World, s: State, now: int) {
    && (forall f :: f in s.fetches ==> f.time <= now)
    && (forall i: nat, j: nat :: Spaced(lib, cfg, world, s.fetches, i, j))
    && (forall i: nat :: Kept(lib, cfg, world, s, i))
  }

  lemma KeptOf(lib: Library, cfg: Config, world: World, s: State, i: nat) returns (k: nat)
    requires Kept(lib, cfg, world, s, i) && Told(world, s.fetches, i)
    ensures i <= k && Remembered(lib, cfg, world, s, k) && s.fetches[k].url == s.fetches[i].url
  {
    k :| i <= k && Remembered(lib, cfg, world, s, k) && s.fetches[k].url == s.fetches[i].url;
  }

  lemma FetchIsSpaced(lib: Library, cfg: Config, world: World, s: State, now: int, url: string, t: Ticks, i: nat)
    requires SpacedSoFar(lib, cfg, world, s, now) && InOrder(now, t) && !Cached(s, url, t.check)
    requires Told(world, s.fetches, i) && s.fetches[i].url == url
    ensures RunsOut(lib, cfg, world, s.fetches, i) <= t.fetched
  {
    assert Kept(lib, cfg, world, s, i);
    var k := KeptOf(lib, cfg, world, s, i);
    assert Spaced(lib, cfg, world, s.fetches, i, k);
    assert s.fetches[k] in s.fetches;
    hide EntryOf, Kept, SpacedSoFar, RunsOut;
  }

  lemma SpacedWithNew(lib: Library, cfg: Config, world: World, s: State, now: int, url: string, t: Ticks, s': State,
                      i: nat, j: nat)
    requires SpacedSoFar(lib, cfg, world, s, now) && InOrder(now, t) && !Cached(s, url, t.check)
    requires s'.fetches == s.fetches + [Fetch(url, t.fetched)]
    ensures Spaced(lib, cfg, world, s'.fetches, i, j)
  {
    assert Spaced(lib, cfg, world, s.fetches, i, j);
    hide EntryOf, Kept, SpacedSoFar, Cached;
    if i < j == |s.fetches| && s'.fetches[i].url == url && Told(world, s'.fetches, i) {
      FetchIsSpaced(lib, cfg, world, s, now, url, t, i);
    }
  }

  lemma KeptWithNew(lib: Library, cfg: Config, world: World, s: State, url: string, t: Ticks, s': State, i: nat)
    requires Kept(lib, cfg, world, s, i)
    requires s'.fetches == s.fetches + [Fetch(url, t.fetched)]
    requires s'.cache == if world(url, t.fetched).Uncaught? then s.cache
                         else s.cache[url := EntryOf(lib, cfg, world(url, t.fetched), t.fetched)]
    ensures Kept(lib, cfg, world, s', i)
  {
    hide EntryOf;
    if Told(world, s'.fetches, i) {
      if s'.fetches[i].url == url && !world(url, t.fetched).Uncaught? {
        assert Remembered(lib, cfg, world, s', |s.fetches|);
      } else {
        assert i < |s.fetches| && Told(world, s.fetches, i);
        var k := KeptOf(lib, cfg, world, s, i);
        StillRemembered(lib, cfg, world, s, url, t, s', k);
      }
    }
  }

  lemma FetchKeepsSpaced(lib: Library, cfg: Config, world: World, s: State, now: int, url: string, t: Ticks, s': State)
    requires SpacedSoFar(lib, cfg, world, s, now) && InOrder(now, t) && !Cached(s, url, t.check)
    requires s'.fetches == s.fetches + [Fetch(url, t.fetched)]
    requires s'.cache == if world(url, t.fetched).Uncaught? then s.cache
                         else s.cache[url := EntryOf(lib, cfg, world(url, t.fetched), t.fetched)]
    ensures SpacedSoFar(lib, cfg, world, s', t.use)
  {
    hide EntryOf, Cached, Kept, Spaced;
    forall i: nat, j: nat
      ensures Spaced(lib, cfg, world, s'.fetches, i, j)
    {
      SpacedWithNew(lib, cfg, world, s, now, url, t, s', i, j);
    }
    forall i: nat
      ensures Kept(lib, cfg, world, s', i)
    {
      KeptWithNew(lib, cfg, world, s, url, t, s', i);
    }
  }

  lemma StillRemembered(lib: Library, cfg: Config, world: World, s: State, url: string, t: Ticks, s': State, k: nat)
    requires Remembered(lib, cfg, world, s, k)
    requires s.fetches[k].url != url || world(url, t.fetched).Uncaught?
    requires s'.fetches == s.fetches + [Fetch(url, t.fetched)]
    requires s'.cache == if world(url, t.fetched).Uncaught? then s.cache
                         else s.cache[url := EntryOf(lib, cfg, world(url, t.fetched), t.fetched)]
    ensures Remembered(lib, cfg, world, s', k)
  {
    hide EntryOf;
    forall m: nat | k < m && Told(world, s'.fetches, m)
      ensures s'.fetches[m].url != s'.fetches[k].url
    {
      if m < |s.fetches| {
        assert Told(world, s.fetches, m);
      }
    }
  }

  lemma NothingIsSpaced(lib: Library, cfg: Config, world: World, s: State, now: int)
    requires s.fetches == []
    ensures SpacedSoFar(lib, cfg, world, s, now)
  {
  }

  lemma {:induction false} RunIsSpaced(lib: Library, cfg: Config, world: World, s: State, queries: seq<Query>, now: int)
    requires s.cache == map[] && s.fetches == [] && ClockForward(queries)
    requires queries != [] ==> queries[|queries| - 1].t.use <= now
    ensures SpacedSoFar(lib, cfg, world, AfterQueries(lib, cfg, world, s, queries), now)
  {
    hide EntryOf, Consults, Spaced, Kept;
    if queries == [] {
      NothingIsSpaced(lib, cfg, world, s, now);
    } else {
      var n := |queries| - 1;
      var q := queries[n];
      RunIsSpaced(lib, cfg, world, s, queries[..n], q.t.check);
      var before, after := AfterQueries(lib, cfg, world, s, queries[..n]), AfterQueries(lib, cfg, world, s, queries);
      var url := Consults(lib, cfg, before, q.keyid, q.agentUrl, q.agentType);
      if url.Some? && !Cached(before, url.value, q.t.check) {
        FetchKeepsSpaced(lib, cfg, world, before, q.t.check, url.value, q.t, after);
      }
    }
  }

  /** How long what a reply gave is remembered: a directory for its lifetime, an error for the negative one. */
  function Lifetime(lib: Library, cfg: Config, reply: Reply): int
    requires !reply.Uncaught?
  {
    match reply
    case Failure(_) => cfg.NegativeTtl()
    case Directory(keys, cacheControl) =>
      if |keys| > cfg.maxKeys then cfg.NegativeTtl() else DirectoryTtl(lib, cacheControl, cfg.defaultTtl)
  }

  lemma ExpiresAfterLifetime(lib: Library, cfg: Config, reply: Reply, time: int)
    requires !reply.Uncaught?
    ensures EntryOf(lib, cfg, reply, time).expiresAt == time + Lifetime(lib, cfg, reply)
  {
    hide DirectoryTtl, Index;
  }

  /** Over every run: a URL is not fetched again before what an earlier fetch of it gave has run out, whatever else
      is asked between. */
  lemma FetchesAreSpaced(lib: Library, cfg: Config, world: World, s: State, queries: seq<Query>, i: nat, j: nat)
    requires s.cache == map[] && s.fetches == [] && ClockForward(queries)
    requires var fetches := AfterQueries(lib, cfg, world, s, queries).fetches;
             i < j < |fetches| && fetches[i].url == fetches[j].url && Told(world, fetches, i)
    ensures var fetches := AfterQueries(lib, cfg, world, s, queries).fetches;
            fetches[i].time + Lifetime(lib, cfg, world(fetches[i].url, fetches[i].time)) <= fetches[j].time
  {
    hide AfterQueries, EntryOf, Lifetime;
    var now := if queries == [] then 0 else queries[|queries| - 1].t.use;
    RunIsSpaced(lib, cfg, world, s, queries, now);
    var fetches := AfterQueries(lib, cfg, world, s, queries).fetches;
    assert Spaced(lib, cfg, world, fetches, i, j);
    ExpiresAfterLifetime(lib, cfg, world(fetches[i].url, fetches[i].time), fetches[i].time);
  }

  lemma {:induction false} StaticsStay(lib: Library, cfg: Config, world: World, s: State, queries: seq<Query>)
    ensures AfterQueries(lib, cfg, world, s, queries).statics == s.statics
  {
    if queries != [] {
      hide EntryOf, Consults;
      StaticsStay(lib, cfg, world, s, queries[..|queries| - 1]);
    }
  }

  // ---------- the resolver ----------

  class KeyResolver {
    const lib: Library
    const cfg: Config
    var statics: map<string, ResolvedKey>
    var cache: map<string, CacheEntry>
    ghost var fetches: seq<Fetch>

    ghost function Now(): State
      reads this
    {
      State(statics, cache, fetches)
    }

    constructor (lib: Library, cfg: Config)
      ensures this.lib == lib && this.cfg == cfg && Now() == State(map[], map[], [])
    {
      this.lib, this.cfg := lib, cfg;
      statics, cache, fetches := map[], map[], [];
    }

    /** `add_static_jwk`; None is the `ValueError` or `KeyError` of a key that is not usable. */
    method AddStaticJwk(jwk: Jwk, name: string) returns (kid: Option<string>)
      modifies this`statics
      ensures statics == WithStatic(lib, old(statics), jwk, name)
      ensures kid == if Unusable(jwk) then None else Thumbprint(lib, jwk)
      ensures if kid == None then statics == old(statics)
              else
                && ToPublicKey(jwk).Some?
                && statics
                   == old(statics)[kid.value := ResolvedKey(kid.value, ToPublicKey(jwk).value, "static:" + name)]
      ensures old(Named(statics)) ==> Named(statics)
    {
      hide UrlDecode, UrlEncode, CanonicalJwk;
      var k, key := Thumbprint(lib, jwk), ToPublicKey(jwk);
      if k.None? || key.None? {
        return None;
      }
      statics := statics[k.value := ResolvedKey(k.value, key.value, "static:" + name)];
      return k;
    }

    /** The parsing, indexing and lifetime part of `_fetch`. */
    method MakeEntry(reply: Reply, time: int) returns (entry: CacheEntry)
      requires !reply.Uncaught?
      ensures entry == EntryOf(lib, cfg, reply, time)
    {
      hide Thumbprint, DirectoryTtl;
      match reply
      case Failure(message) =>
        entry := CacheEntry(time + cfg.NegativeTtl(), map[], Some(message));
      case Directory(raw, cacheControl) =>
        if |raw| > cfg.maxKeys {
          return CacheEntry(time + cfg.NegativeTtl(), map[], Some("too many keys in directory"));
        }
        var keys: map<string, Jwk> := map[];
        for i := 0 to |raw|
          invariant keys == Index(lib, raw[..i])
        {
          var kid := Thumbprint(lib, raw[i]);
          if kid.Some? {
            keys := keys[kid.value := raw[i]];
          }
          assert raw[..i + 1][..i] == raw[..i];
        }
        assert raw[..|raw|] == raw;
        var ttl := ComputeDirectoryTtl(lib, cacheControl, cfg.defaultTtl);
        entry := CacheEntry(time + ttl, keys, None);
    }

    /** `resolve`, with the fetch answered by `world`. */
    method Lookup(world: World, keyid: string, agentUrl: AgentUrl, agentType: string,
                  t: Ticks) returns (r: Resolution)
      modifies this`cache, this`fetches
      ensures r == Resolve(lib, cfg, world, old(Now()), keyid, agentUrl, agentType, t)
      ensures Now() == AfterResolve(lib, cfg, world, old(Now()), keyid, agentUrl, agentType, t)
      ensures LooksUp(lib, cfg, world, old(Now()), keyid, agentUrl, agentType, t, r, Now())
    {
      ResolveLooksUp(lib, cfg, world, Now(), keyid, agentUrl, agentType, t);
      hide LooksUp, EntryOf, Target, ToPublicKey, Stamp, Before, After;
      if keyid == TEST_KEYID && !cfg.devMode {
        return TestKeyRejected;
      }
      if keyid in statics {
        return Resolved(statics[keyid]);
      }
      var where := Target(lib, cfg, agentUrl, agentType);
      if where.UrlRaises? {
        return Raised;
      }
      if where.NoUrl? {
        return KeyNotFound(where.why);
      }
      var url := where.url;
      var entry := CacheEntry(0, map[], None);
      if url !in cache || cache[url].expiresAt <= t.check {
        fetches := fetches + [Fetch(url, t.fetched)];
        var reply := world(url, t.fetched);
        if reply.Uncaught? {
          return Raised;
        }
        entry := MakeEntry(reply, t.fetched);
        cache := cache[url := entry];
      } else {
        entry := cache[url];
      }
      if entry.error.Some? && entry.error.value != "" {
        return KeyNotFound(Unavailable(entry.error.value));
      }
      if keyid !in entry.keys {
        return KeyNotFound(NotPublished);
      }
      var jwk := entry.keys[keyid];
      if BadStamp(jwk.nbf) {
        return Raised;
      }
      if NotYet(jwk, t.use) {
        return KeyNotFound(NotYetValid);
      }
      if BadStamp(jwk.exp) {
        return Raised;
      }
      if NoLonger(jwk, t.use) {
        return KeyNotFound(KeyExpired);
      }
      var key := ToPublicKey(jwk);
      return if key.Some? then Resolved(ResolvedKey(keyid, key.value, url)) else Raised;
    }
  }
}
