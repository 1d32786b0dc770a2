/** Signing, then verifying. */
module RoundTrip {
  import opened Wrappers
  import opened Text
  import opened StructuredFields
  import opened SignatureBase
  import opened NonceStore
  import opened Verifier
  import opened Signer
  import Base64
  import Keys

  // ---------- what is assumed of the libraries ----------

  /** Integers of section 3.3.1 of RFC 8941 have at most 15 digits. */
  predicate SmallInteger(i: int) {
    -1_000_000_000_000_000 < i < 1_000_000_000_000_000
  }

  /** Decimals of section 3.3.2 have at most 12 integer digits, and three after the point. */
  predicate SmallNumbers(ps: seq<Param>) {
    forall p :: p in ps ==> match p.value
                            case Integer(i) => SmallInteger(i)
                            case Fixed(m) => SmallInteger(m)
                            case _ => true
  }

  predicate DistinctKeys(ps: seq<Param>) {
    forall i, j :: 0 <= i < j < |ps| ==> ps[i].key != ps[j].key
  }

  /** An inner list a parser must read back from its serialization. */
  predicate Canonical(l: InnerList) {
    Valid(l) && SmallNumbers(l.params) && DistinctKeys(l.params)
    && forall i :: i in l.items ==> SmallNumbers(i.params) && DistinctKeys(i.params)
  }

  /** The structured-field parsers invert the serializations of RFC 8941. */
  ghost predicate ParsersInvert(parsers: Parsers) {
    && (forall lab, l :: ValidKey(lab) && Canonical(l) ==>
          parsers.inputs(lab + "=" + Serialize(l)) == Some([Labelled(lab, l)]))
    && (forall lab, b :: ValidKey(lab) ==>
          parsers.signatures(SignatureText(lab, b)) == Some(map[lab := Some(Bytes(b))]))
    && (forall url :: Plain(url) ==> parsers.agentItem("\"" + url + "\"") == Some(Str(url)))
    && (forall lab, url :: ValidKey(lab) && Plain(url) ==>
          parsers.agentMember(lab + "=\"" + url + "\"", Str(lab)) == Some(Agent(Str(url), None)))
  }

  ghost predicate MembersFound(lib: Library) {
    forall lab, url :: ValidKey(lab) && Plain(url) ==> lib.dictMember(lab + "=\"" + url + "\"", Str(lab)).MemberText?
  }

  // ---------- the signed inner list is canonical ----------

  lemma SignedParamsCanonical(key: SigningKey, a: Args)
    requires Plain(a.tag) && SmallInteger(a.now) && SmallInteger(a.now + a.ttl)
    ensures var ps := SignedParams(key, a); ValidParams(ps) && SmallNumbers(ps) && DistinctKeys(ps)
  {
    hide Base64.Encode, SigningKey.Keyid;
    NoncePlain(a);
    KeyidPlain(key);
    Ed25519Plain();
    NameKeys();
    hide ValidKey;
    DistinctNames(SignedParams(key, a));
  }

  lemma DistinctNames(ps: seq<Param>)
    requires |ps| == 6 && ps[0].key == "created" && ps[1].key == "expires" && ps[2].key == "keyid"
    requires ps[3].key == "alg" && ps[4].key == "nonce" && ps[5].key == "tag"
    ensures DistinctKeys(ps)
  {
    assert "created"[0] == 'c' && "expires"[0] == 'e' && "keyid"[0] == 'k';
    assert "alg"[0] == 'a' && "nonce"[0] == 'n' && "tag"[0] == 't';
  }

  lemma NameKeys()
    ensures ValidKey("created") && ValidKey("expires") && ValidKey("keyid")
    ensures ValidKey("alg") && ValidKey("nonce") && ValidKey("tag") && ValidKey("key")
  {
  }

  lemma SignedInnerCanonical(key: SigningKey, a: Args)
    requires Proper(a) && SmallInteger(a.now) && SmallInteger(a.now + a.ttl)
    ensures Canonical(SignedInner(key, a))
  {
    hide SignedParams, Coverable, SmallInteger;
    ComponentsArePlain(a);
    SignedParamsCanonical(key, a);
    KeyPlain(a.lab);
    NameKeys();
    Ed25519Plain();
    hide ValidKey;
    var l := SignedInner(key, a);
    forall i | i in l.items
      ensures ValidItem(i) && SmallNumbers(i.params) && DistinctKeys(i.params)
    {
      if i in PlainItems(a.Components()) {
        var k :| 0 <= k < |a.Components()| && i == Item(Str(a.Components()[k]), []);
        assert a.Components()[k] in a.Components();
      }
    }
  }

  // ---------- the parameters read back ----------

  lemma SignedLookups(key: SigningKey, a: Args)
    ensures var ps := SignedParams(key, a);
            && Lookup(ps, "created") == Some(StructuredFields.Integer(a.now))
            && Lookup(ps, "expires") == Some(StructuredFields.Integer(a.now + a.ttl))
            && Lookup(ps, "keyid") == Some(Str(key.Keyid())) && Lookup(ps, "alg") == Some(Str("ed25519"))
            && Lookup(ps, "nonce") == Some(Str(a.Nonce())) && Lookup(ps, "tag") == Some(Str(a.tag))
  {
    hide Lookup, Base64.Encode, SigningKey.Keyid;
    var ps := SignedParams(key, a);
    DistinctNames(ps);
    LookupAt(ps, 0);
    LookupAt(ps, 1);
    LookupAt(ps, 2);
    LookupAt(ps, 3);
    LookupAt(ps, 4);
    LookupAt(ps, 5);
  }

  lemma {:induction false} LookupAt(ps: seq<Param>, i: nat)
    requires DistinctKeys(ps) && i < |ps|
    ensures Lookup(ps, ps[i].key) == Some(ps[i].value)
  {
    if i > 0 {
      assert ps[0].key != ps[i].key && ps[1..][i - 1] == ps[i];
      LookupAt(ps[1..], i - 1);
    }
  }

  lemma {:induction false} NoAgentAmong(names: seq<string>, rest: seq<Item>)
    requires forall n :: n in names ==> n != AGENT
    ensures SignedAgents(PlainItems(names) + rest) == SignedAgents(rest)
  {
    var all := PlainItems(names) + rest;
    if names == [] {
      assert all == rest;
    } else {
      assert names[0] in names && forall n :: n in names[1..] ==> n in names;
      assert all[0] == Item(Str(names[0]), []);
      assert all[1..] == PlainItems(names[1..]) + rest;
      NoAgentAmong(names[1..], rest);
    }
  }

  /** Where the signer says the key is to be found. */
  function AgentOfArgs(a: Args): Keys.AgentUrl {
    if a.format.NoFormat? then None else Some(Str(a.agentUrl))
  }

  /** The agent the verifier sees is the one the signer named. */
  lemma AgentReadBack(parsers: Parsers, key: SigningKey, a: Args, req: Request)
    requires Proper(a) && ParsersInvert(parsers)
    requires AgentHeader(a) == if "signature-agent" in req.headers then Some(req.headers["signature-agent"]) else None
    ensures AgentOf(parsers, req, SignedInner(key, a))
         == Lead(AgentOfArgs(a), "directory")
  {
    hide Coverable, SignedParams, ValidKey;
    ComponentsArePlain(a);
    hide Plain;
    NoAgentAmong(a.Components(), AgentItems(a));
    AgentItemsSigned(a);
    if a.format.DictFormat? {
      LookupAt(AgentItems(a)[0].params, 0);
    }
  }

  lemma AgentItemsSigned(a: Args)
    ensures SignedAgents(AgentItems(a)) == AgentItems(a)
  {
    if AgentItems(a) != [] {
      assert AgentItems(a)[1..] == [];
    }
  }

  // ---------- both sides build the same base ----------

  /** The verifier's request carries what the signer signed; other headers are free. */
  ghost predicate Carries(lib: Library, a: Args, req: Request) {
    && req.verb == a.verb && req.url == a.url
    && lib.split(a.url).Some?
    && "host" in req.headers && req.headers["host"] == lib.split(a.url).value.netloc
    && AgentHeader(a) == if "signature-agent" in req.headers then Some(req.headers["signature-agent"]) else None
  }

  lemma SameCoveredValues(lib: Library, key: SigningKey, a: Args, req: Request)
    requires Proper(a) && Carries(lib, a, req)
    ensures SameValues(lib, SignerRequest(lib, a), req, SignedInner(key, a).items)
  {
    hide Coverable, Plain, ValidKey, SignedParams;
    ComponentsArePlain(a);
    forall i | i in SignedInner(key, a).items
      ensures ComponentValue(lib, SignerRequest(lib, a), i) == ComponentValue(lib, req, i)
    {
      if i in PlainItems(a.Components()) {
        var k :| 0 <= k < |a.Components()| && i == Item(Str(a.Components()[k]), []);
        assert a.Components()[k] in a.Components();
        CoverableValue(lib, SignerRequest(lib, a), req, i);
      } else {
        assert i.value == Str(AGENT);
        AgentValue(lib, SignerRequest(lib, a), req, i);
      }
    }
  }

  lemma CoverableValue(lib: Library, p: Request, q: Request, i: Item)
    requires i.value.Str? && (Coverable(i.value.s) || i.value.s == "@authority")
    requires p.verb == q.verb && p.url == q.url && lib.split(p.url).Some?
    requires "host" in p.headers && "host" in q.headers && p.headers["host"] == q.headers["host"]
    requires i.params == []
    ensures ComponentValue(lib, p, i) == ComponentValue(lib, q, i) && ComponentValue(lib, p, i).Value?
  {
  }

  lemma AgentValue(lib: Library, p: Request, q: Request, i: Item)
    requires i.value == Str(AGENT) && AGENT in p.headers && AGENT in q.headers && p.headers[AGENT] == q.headers[AGENT]
    ensures ComponentValue(lib, p, i) == ComponentValue(lib, q, i)
  {
  }

  lemma AgentHasValue(lib: Library, p: Request, a: Args)
    requires Proper(a) && MembersFound(lib) && !a.format.NoFormat?
    requires AGENT in p.headers && Some(p.headers[AGENT]) == AgentHeader(a)
    ensures ComponentValue(lib, p, AgentItems(a)[0]).Value?
  {
    hide Coverable, Plain, ValidKey;
    assert AGENT[0] == 's' && "@authority"[0] == "@method"[0] == "@path"[0] == "@query"[0] == "@target-uri"[0] == '@';
    if a.format.DictFormat? {
      LookupAt(AgentItems(a)[0].params, 0);
    }
  }

  /** Different names make different identifiers. */
  lemma IdsDiffer(lib: Library, i: Item, j: Item)
    requires i.value.Str? && j.value.Str? && i.value.s != j.value.s
    requires Free('"', i.value.s) && Free('"', j.value.s)
    ensures ComponentId(lib, i) != ComponentId(lib, j)
  {
    AfterQuote(lib, i);
    AfterQuote(lib, j);
  }

  /** The name is what stands between the first two quotes of an identifier. */
  lemma AfterQuote(lib: Library, i: Item)
    requires i.value.Str? && Free('"', i.value.s)
    ensures var rest := ComponentId(lib, i)[1..]; rest[..Span(Except('"'), rest)] == i.value.s
  {
    hide IdParams, Span;
    var rest := i.value.s + "\"" + IdParams(lib, i.params);
    UpToQuote(i.value.s, IdParams(lib, i.params));
    assert ComponentId(lib, i) == "\"" + rest && ("\"" + rest)[1..] == rest;
  }

  lemma UpToQuote(name: string, rest: string)
    requires Free('"', name)
    ensures Span(Except('"'), name + "\"" + rest) == |name| && (name + "\"" + rest)[..|name|] == name
  {
    FreeIsAll('"', name);
    SpanAppend(Except('"'), name, "\"" + rest);
    assert name + "\"" + rest == name + ("\"" + rest);
  }

  /** Building the base of the signer's request succeeds. */
  lemma SignerHasBase(lib: Library, key: SigningKey, a: Args)
    requires Proper(a) && MembersFound(lib) && lib.split(a.url).Some?
    ensures SignatureBaseOf(lib, SignerRequest(lib, a), SignedInner(key, a)).Base?
  {
    hide ComponentValue, ComponentId, BaseText, BaseFrom, Coverable, ValidKey, SignedParams;
    var l, req := SignedInner(key, a), SignerRequest(lib, a);
    ComponentsArePlain(a);
    Ed25519Plain();
    forall k | 0 <= k < |l.items|
      ensures Addable(lib, req, l.items, k)
    {
      var names := a.Components();
      if k < |names| {
        assert l.items[k] == Item(Str(names[k]), []) && names[k] in names;
        CoverableValue(lib, req, req, l.items[k]);
      } else {
        assert l.items[k] == AgentItems(a)[0];
        AgentHasValue(lib, req, a);
      }
      forall j | 0 <= j < k
        ensures ComponentId(lib, l.items[j]) != ComponentId(lib, l.items[k])
      {
        assert l.items[j] == Item(Str(names[j]), []) && names[j] in names;
        IdsDiffer(lib, l.items[j], l.items[k]);
      }
    }
    BaseByComponents(lib, req, l);
  }

  // ---------- the round trip ----------

  /** The headers the verifier receives are the ones the signer produced. */
  ghost predicate Delivers(lib: Library, a: Args, signed: Signed, req: Request) {
    && signed.Signed? && Carries(lib, a, req)
    && Header(req, "signature-input") == signed.signatureInput && Header(req, "signature") == signed.signature
  }

  /** The verifier accepts the tag, caps the validity no tighter than the signer's, and examines at least
      one signature; the commas a tag may hold stay under the cap. */
  predicate Admits(cfg: Config, a: Args) {
    && a.tag in cfg.acceptedTags && cfg.maxSignatures >= 1
    && Count(',', a.tag) + 1 <= cfg.maxSignatures * 4
  }

  /** The resolver holds the key, and Ed25519 accepts what the key signed. */
  ghost predicate HoldsKey(env: Env, st: State, key: SigningKey, a: Args, tick: Tick) {
    var r := Keys.Resolve(env.keyLib, env.keyCfg, env.world, st.keys, key.Keyid(), AgentOfArgs(a), "directory",
                          tick.keys);
    r.Resolved? && forall bytes :: env.parsers.verifies(r.key.key, key.sign(bytes), bytes)
  }

  /** After the key's public half was registered under any name, a resolver that computes the same digest
      holds the key, provided Ed25519 accepts what it signs. The published test key counts only in
      development mode. */
  lemma RegisteredKeyIsHeld(env: Env, st: State, key: SigningKey, a: Args, tick: Tick,
                            before: map<string, Keys.ResolvedKey>, name: string)
    requires key.digest == env.keyLib.digest && |key.raw| == 32
    requires forall bytes :: env.parsers.verifies(key.raw, key.sign(bytes), bytes)
    requires st.keys.statics == Keys.WithStatic(env.keyLib, before, Keys.PublicJwk(key.raw), name)
    requires key.Keyid() != Keys.TEST_KEYID || env.keyCfg.devMode
    ensures HoldsKey(env, st, key, a, tick)
  {
    hide Keys.Thumbprint, Keys.WithStatic;
    KeyidIsThumbprint(env.keyLib, key);
    Keys.RegisteredIsFound(env.keyLib, before, key.raw, name);
    hide Keys.PublicJwk;
    assert key.Keyid() in st.keys.statics && st.keys.statics[key.Keyid()].key == key.raw;
  }

  /** Signing succeeds exactly when `urlsplit` takes the URL, and what it then produces. */
  lemma SignSucceeds(parsers: Parsers, lib: Library, key: SigningKey, a: Args)
    requires Proper(a) && SmallInteger(a.now) && SmallInteger(a.now + a.ttl)
    requires ParsersInvert(parsers) && MembersFound(lib)
    ensures if lib.split(a.url) == None then Sign(parsers, lib, key, a) == BadUrl
            else
              var base := SignatureBaseOf(lib, SignerRequest(lib, a), SignedInner(key, a));
              && base.Base?
              && Sign(parsers, lib, key, a)
                 == Signed(a.lab + "=" + InnerText(key, a), SignatureText(a.lab, key.sign(base.Bytes())),
                           AgentHeader(a))
  {
    hide InnerText, SignedInner, Serialize, SignatureBaseOf, Coverable, ValidKey, Canonical, Plain, SignatureText;
    hide SignerRequest, AgentHeader;
    if lib.split(a.url).Some? {
      TextIsSerialization(key, a);
      SignedInnerCanonical(key, a);
      SignerHasBase(lib, key, a);
      OneMember(a.lab, SignedInner(key, a));
    }
  }

  lemma OneMember(lab: string, l: InnerList)
    ensures MemberOf([Labelled(lab, l)], lab) == Some(Labelled(lab, l))
  {
  }

  /** What the signer writes before the tag. */
  function UpToTag(key: SigningKey, a: Args): string {
    a.lab + "=" + ("(" + Join(' ', Quoted(a.Components())) + AgentComponent(a) + ")")
    + (NumberParamText("created", a.now) + NumberParamText("expires", a.now + a.ttl)
       + TextParamText("keyid", key.Keyid()) + TextParamText("alg", "ed25519") + TextParamText("nonce", a.Nonce()))
    + ";tag=\""
  }

  lemma CoverableNoComma(n: string)
    requires Coverable(n) || n == "@authority"
    ensures Free(',', QuotedName(n))
  {
  }

  lemma TextParamNoComma(name: string, value: string)
    requires Free(',', name) && Free(',', value)
    ensures Free(',', TextParamText(name, value))
  {
  }

  lemma NumberParamNoComma(name: string, value: int)
    requires Free(',', name)
    ensures Free(',', NumberParamText(name, value))
  {
    hide Text.Integer;
    IntegerFree(',', value);
  }

  lemma ItemsNoComma(a: Args)
    requires Proper(a)
    ensures Free(',', Join(' ', Quoted(a.Components()))) && Free(',', AgentComponent(a))
  {
    hide Coverable, QuotedName, Plain, ValidKey, Join, TextParamText;
    ComponentsArePlain(a);
    KeyPlain(a.lab);
    forall q | q in Quoted(a.Components())
      ensures Free(',', q)
    {
      var k :| 0 <= k < |a.Components()| && q == QuotedName(a.Components()[k]);
      assert a.Components()[k] in a.Components();
      CoverableNoComma(a.Components()[k]);
    }
    JoinFree(',', ' ', Quoted(a.Components()));
    AgentNoComma();
    TextParamNoComma("key", a.lab);
  }

  lemma AgentNoComma()
    ensures Free(',', QuotedName(AGENT))
  {
  }

  lemma UpToTagNoComma(key: SigningKey, a: Args)
    requires Proper(a)
    ensures Free(',', UpToTag(key, a))
  {
    hide Coverable, QuotedName, Plain, ValidKey, Join, TextParamText, NumberParamText, AgentComponent, Quoted;
    hide Base64.Encode, SigningKey.Keyid;
    ItemsNoComma(a);
    KeyPlain(a.lab);
    NoncePlain(a);
    KeyidPlain(key);
    NumberParamNoComma("created", a.now);
    NumberParamNoComma("expires", a.now + a.ttl);
    TextParamNoComma("keyid", key.Keyid());
    TextParamNoComma("alg", "ed25519");
    TextParamNoComma("nonce", a.Nonce());
  }

  /** Only the tag can bring commas into Signature-Input. */
  lemma InputCommas(key: SigningKey, a: Args)
    requires Proper(a)
    ensures Count(',', a.lab + "=" + InnerText(key, a)) == Count(',', a.tag)
  {
    UpToTagNoComma(key, a);
    CountFree(',', UpToTag(key, a));
    CountAppend(',', UpToTag(key, a) + a.tag, "\"");
    CountAppend(',', UpToTag(key, a), a.tag);
    CountFree(',', "\"");
    TagLast(key, a);
  }

  lemma TagLast(key: SigningKey, a: Args)
    ensures a.lab + "=" + InnerText(key, a) == UpToTag(key, a) + a.tag + "\""
  {
    hide Join, AgentComponent, Quoted, Base64.Encode, SigningKey.Keyid, NumberParamText;
    var inner := "(" + Join(' ', Quoted(a.Components())) + AgentComponent(a) + ")";
    var numbers := NumberParamText("created", a.now) + NumberParamText("expires", a.now + a.ttl);
    var params := numbers + TextParamText("keyid", key.Keyid()) + TextParamText("alg", "ed25519")
                  + TextParamText("nonce", a.Nonce());
    TagParam(a.tag);
    hide TextParamText;
    assert a.lab + "=" + (inner + (params + (";tag=\"" + a.tag + "\"")))
        == a.lab + "=" + inner + params + ";tag=\"" + a.tag + "\"";
  }

  lemma TagParam(tag: string)
    ensures TextParamText("tag", tag) == ";tag=\"" + tag + "\""
  {
    assert ";" + "tag" + "=\"" == ";tag=\"";
  }

  lemma SignatureCommas(lab: string, signature: seq<Base64.Byte>)
    requires ValidKey(lab)
    ensures Count(',', SignatureText(lab, signature)) == 0
  {
    hide Base64.Encode, ValidKey, Plain;
    KeyPlain(lab);
    Base64.Symbols(Base64.Standard, signature);
    assert Free(',', SignatureText(lab, signature));
    CountFree(',', SignatureText(lab, signature));
  }

  /** The verifier parses exactly the inner list and the signature that were sent. */
  lemma HeadersReadBack(env: Env, key: SigningKey, a: Args, req: Request)
    requires Proper(a) && SmallInteger(a.now) && SmallInteger(a.now + a.ttl)
    requires ParsersInvert(env.parsers) && MembersFound(env.lib) && Admits(env.cfg, a)
    requires Delivers(env.lib, a, Sign(env.parsers, env.lib, key, a), req)
    ensures var base := SignatureBaseOf(env.lib, SignerRequest(env.lib, a), SignedInner(key, a));
            && base.Base?
            && ReadHeaders(env, req)
               == Headers([Labelled(a.lab, SignedInner(key, a))], map[a.lab := Some(Bytes(key.sign(base.Bytes())))])
  {
    hide InnerText, SignedInner, Serialize, SignatureBaseOf, Coverable, ValidKey, Canonical, Plain, Carries, Count;
    SignSucceeds(env.parsers, env.lib, key, a);
    SignedInnerCanonical(key, a);
    TextIsSerialization(key, a);
    InputCommas(key, a);
    SignatureCommas(a.lab, key.sign(SignatureBaseOf(env.lib, SignerRequest(env.lib, a), SignedInner(key, a)).Bytes()));
    hide SignatureText, Sign;
    var base := SignatureBaseOf(env.lib, SignerRequest(env.lib, a), SignedInner(key, a));
    assert |map[a.lab := Some(Bytes(key.sign(base.Bytes())))]| == 1;
  }

  /** All gates but freshness are passed. */
  lemma GatesOfSigned(env: Env, key: SigningKey, a: Args, req: Request, now: int)
    requires Proper(a) && ParsersInvert(env.parsers) && Admits(env.cfg, a) && Carries(env.lib, a, req)
    ensures var g := Gates(env, req, SignedInner(key, a), now);
            if Staleness(env.cfg, a.now, a.now + a.ttl, now) == None
            then g == Pass(AgentOfArgs(a), "directory") else g.Stop?
    ensures TextParam(SignedInner(key, a).params, "nonce") == a.Nonce() != ""
    ensures TextParam(SignedInner(key, a).params, "keyid") == key.Keyid()
  {
    hide AgentOf, Lookup, Staleness, Coverable, Plain, ValidKey, Base64.Encode, SigningKey.Keyid, SignedParams;
    var l := SignedInner(key, a);
    SignedLookups(key, a);
    AgentReadBack(env.parsers, key, a, req);
    NonceNotEmpty(a);
    assert l.items[0].value == Str("@authority") && l.items[0] in l.items;
    assert Covers(l, "@authority");
    WrongTypedNone(l.params);
    hide Covers, WrongTyped;
  }

  lemma NonceNotEmpty(a: Args)
    requires a.random != []
    ensures a.Nonce() != ""
  {
    hide Base64.Symbol;
    assert |Base64.Bare(Base64.Standard, a.random)| > 0;
  }

  /** The verifier rebuilds the signer's base, so the signature checks out. */
  lemma SignatureOfSigned(env: Env, key: SigningKey, a: Args, req: Request, raw: Keys.PublicKey)
    requires Proper(a) && MembersFound(env.lib) && Carries(env.lib, a, req)
    requires forall bytes :: env.parsers.verifies(raw, key.sign(bytes), bytes)
    requires SignatureBaseOf(env.lib, SignerRequest(env.lib, a), SignedInner(key, a)).Base?
    ensures var base := SignatureBaseOf(env.lib, SignerRequest(env.lib, a), SignedInner(key, a));
            SignatureStatus(env, req, a.lab, SignedInner(key, a),
                             map[a.lab := Some(Bytes(key.sign(base.Bytes())))], raw) == Correct
  {
    hide SignedInner, BaseFrom, Coverable, Plain, ValidKey;
    SameCoveredValues(env.lib, key, a, req);
    SameValuesSameBase(env.lib, SignerRequest(env.lib, a), req, SignedInner(key, a), 0, {});
  }

  /** The signature the verifier is shown. */
  function SentSignatures(lib: Library, key: SigningKey, a: Args): Signatures
    requires lib.split(a.url).Some? && SignatureBaseOf(lib, SignerRequest(lib, a), SignedInner(key, a)).Base?
  {
    map[a.lab := Some(Bytes(key.sign(SignatureBaseOf(lib, SignerRequest(lib, a), SignedInner(key, a)).Bytes())))]
  }

  lemma SignedIsGenuineIff(env: Env, st: State, key: SigningKey, a: Args, req: Request, tick: Tick)
    requires Proper(a) && ParsersInvert(env.parsers) && MembersFound(env.lib) && Admits(env.cfg, a)
    requires Carries(env.lib, a, req) && HoldsKey(env, st, key, a, tick)
    requires SignatureBaseOf(env.lib, SignerRequest(env.lib, a), SignedInner(key, a)).Base?
    ensures Genuine(env, st, req, a.lab, SignedInner(key, a), SentSignatures(env.lib, key, a), tick)
       <==> Staleness(env.cfg, a.now, a.now + a.ttl, tick.now) == None
  {
    hide Proper, ParsersInvert, MembersFound, Admits, SignedInner, Staleness, SignatureBaseOf, SignatureStatus, Gates;
    hide Keys.Resolve, SignerRequest, AgentOfArgs, TextParam, SigningKey.Keyid, Args.Nonce;
    GatesOfSigned(env, key, a, req, tick.now);
    if Gates(env, req, SignedInner(key, a), tick.now).Pass? {
      var r := Resolution(env, st, req, SignedInner(key, a), tick);
      assert r.Resolved? && forall bytes :: env.parsers.verifies(r.key.key, key.sign(bytes), bytes);
      hide HoldsKey, Carries;
      SignatureOfSigned(env, key, a, req, r.key.key);
    }
  }

  /** Sign then verify. For every agent format, any supported duplicate-free components and quote-free
      texts, with a resolver that holds the key: the signed request is VERIFIED exactly when it is fresh
      and its nonce is not live, so the first time while fresh. */
  lemma SignThenVerify(env: Env, st: State, key: SigningKey, a: Args, req: Request, clock: Clock, answer: Answer,
                       after: State)
    requires Proper(a) && SmallInteger(a.now) && SmallInteger(a.now + a.ttl)
    requires ParsersInvert(env.parsers) && MembersFound(env.lib) && Admits(env.cfg, a)
    requires Delivers(env.lib, a, Sign(env.parsers, env.lib, key, a), req) && HoldsKey(env, st, key, a, clock(0))
    requires IsAnswer(env, st, req, clock, answer, after)
    ensures IsVerified(answer) <==>
              && Staleness(env.cfg, a.now, a.now + a.ttl, clock(0).now) == None
              && Fresh(st.seen, a.Nonce(), clock(0).now)
  {
    hide Proper, SignedInner, Sign, Staleness, Fresh, SignatureBaseOf, Genuine, Gates, Judge, HoldsKey, TextParam;
    hide ReadHeaders, Admits, ParsersInvert, MembersFound, SmallInteger, SignerRequest, IsAnswer, Args.Nonce;
    HeadersReadBack(env, key, a, req);
    assert env.lib.split(a.url).Some?;
    hide Carries;
    var l, sigs := SignedInner(key, a), SentSignatures(env.lib, key, a);
    OneLabelAnswer(env, st, req, Labelled(a.lab, l), sigs, clock, answer, after);
    VerifiedIffAcceptable(env, st, req, a.lab, l, sigs, clock(0));
    SignedIsGenuineIff(env, st, key, a, req, clock(0));
    GatesOfSigned(env, key, a, req, clock(0).now);
  }
}
