/** The signing half: `sign_request`, and the round trip through the verifier. */
module Signer {
  import opened Wrappers
  import opened Text
  import opened StructuredFields
  import opened SignatureBase
  import opened Verifier
  import Base64
  import Keys

  datatype AgentFormat = DictFormat | LegacyFormat | NoFormat | UnknownFormat

  /** A private key: the bytes of its public half, and Ed25519 signing; and SHA-256. */
  datatype SigningKey = SigningKey(
    raw: Keys.PublicKey, sign: seq<Base64.Byte> -> seq<Base64.Byte>, digest: string -> seq<Base64.Byte>)
  {
    /** The thumbprint of the public half. */
    function Keyid(): string {
      Base64.UrlEncode(digest(Keys.CanonicalJwk(Keys.Word("Ed25519"), Keys.Word(Base64.UrlEncode(raw)))))
    }
  }

  /** The key id the signer writes is the thumbprint by which a resolver registers or indexes the key. */
  lemma KeyidIsThumbprint(lib: Keys.Library, key: SigningKey)
    requires key.digest == lib.digest
    ensures Keys.Thumbprint(lib, Keys.PublicJwk(key.raw)) == Some(key.Keyid())
  {
    hide Base64.UrlEncode, Keys.CanonicalJwk;
  }

  /** The arguments, the clock reading, and the random bytes of the nonce. */
  datatype Args = Args(
    verb: string, url: string, agentUrl: string, tag: string, lab: string, ttl: int,
    extra: seq<string>, format: AgentFormat, now: int, random: seq<Base64.Byte>)
  {
    function Nonce(): string {
      Base64.Encode(Base64.Standard, random)
    }

    function Components(): seq<string> {
      ["@authority"] + extra
    }
  }

  datatype Signed =
    | Signed(signatureInput: string, signature: string, signatureAgent: Option<string>)
    | BadUrl
    | BadFormat
    | NotParsed
    | NoBase(error: BaseError)
    | BaseRaises

  // ---------- the text the signer writes ----------

  function Quoted(names: seq<string>): seq<string> {
    seq(|names|, i requires 0 <= i < |names| => QuotedName(names[i]))
  }

  /** The Signature-Agent header, if any. */
  function AgentHeader(a: Args): Option<string> {
    match a.format
    case DictFormat => Some(a.lab + "=\"" + a.agentUrl + "\"")
    case LegacyFormat => Some("\"" + a.agentUrl + "\"")
    case _ => None
  }

  function QuotedName(name: string): string {
    "\"" + name + "\""
  }

  function TextParamText(name: string, value: string): string {
    ";" + name + "=\"" + value + "\""
  }

  function NumberParamText(name: string, value: int): string {
    ";" + name + "=" + Text.Integer(value)
  }

  const AGENT := "signature-agent"

  function AgentComponent(a: Args): string {
    match a.format
    case DictFormat => " " + (QuotedName(AGENT) + TextParamText("key", a.lab))
    case LegacyFormat => " " + QuotedName(AGENT)
    case _ => ""
  }

  function ParamText(key: SigningKey, a: Args): string {
    NumberParamText("created", a.now) + NumberParamText("expires", a.now + a.ttl)
    + TextParamText("keyid", key.Keyid()) + TextParamText("alg", "ed25519")
    + TextParamText("nonce", a.Nonce()) + TextParamText("tag", a.tag)
  }

  function InnerText(key: SigningKey, a: Args): string {
    "(" + Join(' ', Quoted(a.Components())) + AgentComponent(a) + ")" + ParamText(key, a)
  }

  /** The request the signer computes the base of; its URL is split once more for the Host header. */
  function SignerRequest(lib: Library, a: Args): Request
    requires lib.split(a.url).Some?
  {
    var host := map["host" := lib.split(a.url).value.netloc];
    Request(a.verb, a.url, if AgentHeader(a).Some? then host["signature-agent" := AgentHeader(a).value] else host)
  }

  function SignatureText(lab: string, signature: seq<Base64.Byte>): string {
    lab + "=:" + Base64.Encode(Base64.Standard, signature) + ":"
  }

  /** `d[label]`; the labels of a dictionary are distinct. */
  function MemberOf(members: seq<Labelled>, lab: string): Option<Labelled> {
    if members == [] then None
    else if members[0].lab == lab then Some(members[0])
    else MemberOf(members[1..], lab)
  }

  function SignMember(lib: Library, key: SigningKey, a: Args, m: Labelled): Signed
    requires lib.split(a.url).Some?
  {
    match m
    case Flat(_) => BaseRaises
    case Labelled(_, inner) =>
      match SignatureBaseOf(lib, SignerRequest(lib, a), inner)
      case Raised => BaseRaises
      case Failed(error) => NoBase(error)
      case Base(text) =>
        Signed(a.lab + "=" + Serialize(inner), SignatureText(a.lab, key.sign(Base(text).Bytes())), AgentHeader(a))
  }

  function Sign(parsers: Parsers, lib: Library, key: SigningKey, a: Args): Signed {
    if lib.split(a.url) == None then BadUrl
    else if a.format.UnknownFormat? then BadFormat
    else
      match parsers.inputs(a.lab + "=" + InnerText(key, a))
      case None => NotParsed
      case Some(members) =>
        match MemberOf(members, a.lab)
        case None => NotParsed
        case Some(m) => SignMember(lib, key, a, m)
  }

  method SignRequest(parsers: Parsers, lib: Library, key: SigningKey, a: Args) returns (out: Signed)
    ensures out == Sign(parsers, lib, key, a)
  {
    hide Serialize, SignatureBaseOf, Join, Quoted, ParamText, MemberOf;
    var parts := lib.split(a.url);
    if parts.None? {
      return BadUrl;
    }
    var host := parts.value.netloc;
    if a.format.UnknownFormat? {
      return BadFormat;
    }
    var comps := Join(' ', Quoted(["@authority"] + a.extra));
    var sigAgent: Option<string>, component := None, "";
    if a.format.DictFormat? {
      sigAgent := Some(a.lab + "=\"" + a.agentUrl + "\"");
      component := " " + (QuotedName(AGENT) + TextParamText("key", a.lab));
    } else if a.format.LegacyFormat? {
      sigAgent, component := Some("\"" + a.agentUrl + "\""), " " + QuotedName(AGENT);
    }
    var text := "(" + comps + component + ")" + ParamText(key, a);
    var parsed := parsers.inputs(a.lab + "=" + text);
    if parsed.None? {
      return NotParsed;
    }
    var member := MemberOf(parsed.value, a.lab);
    if member.None? {
      return NotParsed;
    }
    if member.value.Flat? {
      return BaseRaises;
    }
    var headers := map["host" := host];
    if sigAgent.Some? {
      headers := headers["signature-agent" := sigAgent.value];
    }
    var inner := member.value.inner;
    var base := BuildSignatureBase(lib, Request(a.verb, a.url, headers), inner);
    if base.Raised? {
      return BaseRaises;
    }
    if base.Failed? {
      return NoBase(base.error);
    }
    var signature := key.sign(base.Bytes());
    return Signed(a.lab + "=" + Serialize(inner), SignatureText(a.lab, signature), sigAgent);
  }

  // ---------- the structure behind the text ----------

  function PlainItems(names: seq<string>): (items: seq<Item>)
    ensures |items| == |names|
  {
    seq(|names|, i requires 0 <= i < |names| => Item(Str(names[i]), []))
  }

  function AgentItems(a: Args): seq<Item> {
    match a.format
    case DictFormat => [Item(Str(AGENT), [Param("key", Str(a.lab))])]
    case LegacyFormat => [Item(Str(AGENT), [])]
    case _ => []
  }

  function SignedParams(key: SigningKey, a: Args): seq<Param> {
    [Param("created", StructuredFields.Integer(a.now)), Param("expires", StructuredFields.Integer(a.now + a.ttl)),
     Param("keyid", Str(key.Keyid())), Param("alg", Str("ed25519")), Param("nonce", Str(a.Nonce())),
     Param("tag", Str(a.tag))]
  }

  function SignedInner(key: SigningKey, a: Args): InnerList {
    InnerList(PlainItems(a.Components()) + AgentItems(a), SignedParams(key, a))
  }

  /** What is signed: the authority first, then the extra components in their order, then the agent if it is
      sent, under the label in a dictionary; from now for the lifetime asked, under the key's thumbprint, with the
      algorithm, the nonce and the tag. */
  lemma SignedListIs(key: SigningKey, a: Args)
    ensures var items, n := SignedInner(key, a).items, |a.extra|;
            && |items| == 1 + n + (if a.format == DictFormat || a.format == LegacyFormat then 1 else 0)
            && items[0] == Item(Str("@authority"), [])
            && (forall i :: 0 <= i < n ==> items[1 + i] == Item(Str(a.extra[i]), []))
            && (a.format == DictFormat ==>
                  items[1 + n] == Item(Str("signature-agent"), [Param("key", Str(a.lab))]))
            && (a.format == LegacyFormat ==> items[1 + n] == Item(Str("signature-agent"), []))
    ensures var params := SignedInner(key, a).params;
            && |params| == 6
            && params[0] == Param("created", StructuredFields.Integer(a.now))
            && params[1] == Param("expires", StructuredFields.Integer(a.now + a.ttl))
            && params[2] == Param("keyid", Str(key.Keyid())) && params[3] == Param("alg", Str("ed25519"))
            && params[4] == Param("nonce", Str(a.Nonce())) && params[5] == Param("tag", Str(a.tag))
  {
    hide SigningKey.Keyid, Base64.Encode;
    assert forall i :: 0 <= i < |a.extra| ==> a.Components()[1 + i] == a.extra[i];
  }

  /** Printable and free of the characters a structured string escapes. */
  predicate Plain(s: string) {
    Printable(s) && Free('"', s) && Free('\\', s)
  }

  lemma PlainTail(s: string)
    requires Plain(s) && s != ""
    ensures Plain(s[1..]) && s[0] != '"' && s[0] != '\\'
  {
    assert s[0] in s && forall c :: c in s[1..] ==> c in s;
  }

  lemma {:induction false} EscapePlain(s: string)
    requires Plain(s)
    ensures Escape(s) == s
  {
    hide Plain;
    if s != "" {
      PlainTail(s);
      EscapePlain(s[1..]);
      assert [s[0]] + s[1..] == s;
    }
  }

  function ItemTexts(items: seq<Item>): seq<string> {
    seq(|items|, i requires 0 <= i < |items| => OneItem(items[i]))
  }

  lemma {:induction false} ItemsAreJoined(items: seq<Item>)
    requires items != []
    ensures Items(items) == Join(' ', ItemTexts(items)) + ")"
  {
    hide OneItem;
    if |items| == 1 {
      assert items[1..] == [];
      assert Items(items) == OneItem(items[0]) + "" + ")";
    } else {
      ItemsAreJoined(items[1..]);
      assert ItemTexts(items)[1..] == ItemTexts(items[1..]);
    }
  }

  lemma PlainItemText(name: string)
    requires Plain(name)
    ensures OneItem(Item(Str(name), [])) == QuotedName(name)
  {
    hide Plain;
    EscapePlain(name);
    assert QuotedName(name) + "" == QuotedName(name);
  }

  lemma PlainItemTexts(names: seq<string>)
    requires forall n :: n in names ==> Plain(n)
    ensures ItemTexts(PlainItems(names)) == Quoted(names)
  {
    hide OneItem, Plain, QuotedName;
    forall i | 0 <= i < |names|
      ensures OneItem(Item(Str(names[i]), [])) == QuotedName(names[i])
    {
      assert names[i] in names;
      PlainItemText(names[i]);
    }
  }

  lemma StrParamText(name: string, value: string)
    requires Plain(value)
    ensures OneParam(Param(name, Str(value))) == TextParamText(name, value)
  {
    hide Plain;
    EscapePlain(value);
    assert ";" + name + ("=" + ("\"" + value + "\"")) == ";" + name + "=\"" + value + "\"";
  }

  lemma IntParamText(name: string, value: int)
    ensures OneParam(Param(name, StructuredFields.Integer(value))) == NumberParamText(name, value)
  {
    hide Text.Integer;
    assert ";" + name + ("=" + Text.Integer(value)) == ";" + name + "=" + Text.Integer(value);
  }

  /** What the signer sends beside the inner list: the signature as a byte sequence under its label, the agent's
      URL as a string, under the label in a dictionary or alone; and its nonce is the base64 text of the random
      bytes. */
  lemma HeadersAreSerialized(a: Args, signature: seq<Base64.Byte>)
    ensures SignatureText(a.lab, signature) == a.lab + "=" + Bare(Bytes(signature))
    ensures Plain(a.agentUrl) && a.format == DictFormat ==> AgentHeader(a) == Some(a.lab + "=" + Bare(Str(a.agentUrl)))
    ensures Plain(a.agentUrl) && a.format == LegacyFormat ==> AgentHeader(a) == Some(Bare(Str(a.agentUrl)))
    ensures a.format == NoFormat ==> AgentHeader(a) == None
    ensures Base64.Decode(Base64.Standard, a.Nonce()) == Some(a.random)
  {
    hide Base64.Encode, Base64.Decode, Plain;
    Base64.PaddedRoundTrip(Base64.Standard, a.random);
    var text := Base64.Encode(Base64.Standard, signature);
    assert a.lab + "=:" + text + ":" == a.lab + "=" + (":" + text + ":");
    if Plain(a.agentUrl) {
      EscapePlain(a.agentUrl);
      assert a.lab + "=\"" + a.agentUrl + "\"" == a.lab + "=" + ("\"" + a.agentUrl + "\"");
    }
  }

  // ---------- what the arguments must be ----------

  /** What can be covered besides the authority and the agent: the components derived from method and URL,
      and the one other header the signer has. */
  predicate Coverable(n: string) {
    n == "@method" || n == "@path" || n == "@query" || n == "@target-uri" || n == "host"
  }

  predicate Distinct(names: seq<string>) {
    forall i, j :: 0 <= i < j < |names| ==> names[i] != names[j]
  }

  /** Supported, duplicate-free components; a label that is a dictionary key; quote-free texts, the agent's
      URL among them when it is sent. */
  predicate Proper(a: Args) {
    && !a.format.UnknownFormat? && a.random != []
    && ValidKey(a.lab) && (!a.format.NoFormat? ==> Plain(a.agentUrl) && a.agentUrl != "") && Plain(a.tag)
    && (forall c :: c in a.extra ==> Coverable(c)) && Distinct(a.extra)
  }

  lemma CoverablePlain(n: string)
    requires Coverable(n) || n == "@authority"
    ensures Plain(n) && n != AGENT && (Coverable(n) ==> n != "@authority")
  {
    assert (n[0] == '@' || n[0] == 'h') && AGENT[0] == 's';
    assert |"@authority"| == 10 && |"@method"| == 7 && |"@path"| == 5 && |"@query"| == 6 && |"@target-uri"| == 11;
  }

  lemma ComponentsArePlain(a: Args)
    requires Proper(a)
    ensures forall n :: n in a.Components() ==> Plain(n) && n != AGENT && (Coverable(n) || n == "@authority")
    ensures Distinct(a.Components())
  {
    hide Coverable, Plain;
    var c := a.Components();
    forall n | n in c
      ensures Plain(n) && n != AGENT && (Coverable(n) || n == "@authority")
    {
      assert n == "@authority" || n in a.extra;
      CoverablePlain(n);
    }
    forall i, j | 0 <= i < j < |c|
      ensures c[i] != c[j]
    {
      assert c[j] == a.extra[j - 1] && c[j] in a.extra;
      CoverablePlain(c[j]);
      if i > 0 {
        assert c[i] == a.extra[i - 1];
      }
    }
  }

  lemma SymbolsArePlain(s: string)
    requires forall c :: c in s ==> Base64.IsSymbol(c)
    ensures Plain(s) && Free(',', s)
  {
  }

  lemma NoncePlain(a: Args)
    ensures Plain(a.Nonce()) && Free(',', a.Nonce())
  {
    hide Base64.Encode;
    Base64.Symbols(Base64.Standard, a.random);
    SymbolsArePlain(a.Nonce());
  }

  lemma KeyidPlain(key: SigningKey)
    ensures Plain(key.Keyid()) && Free(',', key.Keyid())
  {
    hide Base64.UrlEncode;
    Base64.UrlSymbols(key.digest(Keys.CanonicalJwk(Keys.Word("Ed25519"), Keys.Word(Base64.UrlEncode(key.raw)))));
    SymbolsArePlain(key.Keyid());
  }

  lemma KeyPlain(k: string)
    requires ValidKey(k)
    ensures Plain(k) && Free(',', k)
  {
    forall c | c in k
      ensures ' ' <= c <= '~' && c != '"' && c != '\\' && c != ','
    {
      var i :| 0 <= i < |k| && k[i] == c;
      assert Is(KeyChars, k[i]);
    }
  }

  // ---------- the text is the serialization of the structure ----------

  lemma ParamsOfSix(a: Param, b: Param, c: Param, d: Param, e: Param, f: Param)
    ensures Params([a, b, c, d, e, f])
         == OneParam(a) + OneParam(b) + OneParam(c) + OneParam(d) + OneParam(e) + OneParam(f)
  {
    hide OneParam;
    assert [a, b, c, d, e, f][1..] == [b, c, d, e, f];
    assert [b, c, d, e, f][1..] == [c, d, e, f];
    assert [c, d, e, f][1..] == [d, e, f] && [d, e, f][1..] == [e, f] && [e, f][1..] == [f];
    assert Params([f]) == OneParam(f);
    assert Params([e, f]) == OneParam(e) + OneParam(f);
    assert Params([d, e, f]) == OneParam(d) + OneParam(e) + OneParam(f);
    assert Params([c, d, e, f]) == OneParam(c) + OneParam(d) + OneParam(e) + OneParam(f);
    assert Params([b, c, d, e, f]) == OneParam(b) + OneParam(c) + OneParam(d) + OneParam(e) + OneParam(f);
  }

  lemma ParamTextIsParams(key: SigningKey, a: Args)
    requires Plain(a.tag)
    ensures ParamText(key, a) == Params(SignedParams(key, a))
  {
    hide Params, OneParam, Plain, TextParamText, NumberParamText, SigningKey.Keyid, Base64.Encode;
    NoncePlain(a);
    KeyidPlain(key);
    Ed25519Plain();
    var ps := SignedParams(key, a);
    ParamsOfSix(ps[0], ps[1], ps[2], ps[3], ps[4], ps[5]);
    IntParamText("created", a.now);
    IntParamText("expires", a.now + a.ttl);
    StrParamText("keyid", key.Keyid());
    StrParamText("alg", "ed25519");
    StrParamText("nonce", a.Nonce());
    StrParamText("tag", a.tag);
  }

  lemma Ed25519Plain()
    ensures Plain("ed25519") && Plain(AGENT)
  {
  }

  lemma AgentComponentText(a: Args)
    requires ValidKey(a.lab) && !a.format.UnknownFormat?
    ensures AgentComponent(a) == if a.format.NoFormat? then "" else " " + OneItem(AgentItems(a)[0])
  {
    hide Plain, OneParam, Escape, TextParamText, ValidKey;
    KeyPlain(a.lab);
    Ed25519Plain();
    match a.format
    case DictFormat =>
      StrParamText("key", a.lab);
      EscapePlain(AGENT);
      ParamsOfOne(Param("key", Str(a.lab)));
    case LegacyFormat =>
      PlainItemText(AGENT);
    case _ =>
  }

  lemma ParamsOfOne(p: Param)
    ensures Params([p]) == OneParam(p)
  {
    assert [p][1..] == [] && OneParam(p) + "" == OneParam(p);
  }

  /** The text the signer writes is the canonical serialization of the inner list it means. */
  lemma TextIsSerialization(key: SigningKey, a: Args)
    requires Proper(a)
    ensures InnerText(key, a) == Serialize(SignedInner(key, a))
  {
    hide Join, OneItem, Items, Params, ParamText, Plain, AgentComponent, ValidKey, SignedParams, Coverable, Quoted;
    ComponentsArePlain(a);
    var plain, agents := PlainItems(a.Components()), AgentItems(a);
    ItemsAreJoined(plain + agents);
    PlainItemTexts(a.Components());
    ParamTextIsParams(key, a);
    AgentComponentText(a);
    JoinedItems(plain, agents);
    Shuffle(Join(' ', ItemTexts(plain)), AgentComponent(a), ParamText(key, a));
  }

  lemma JoinedItems(plain: seq<Item>, agents: seq<Item>)
    requires plain != [] && |agents| <= 1
    ensures Join(' ', ItemTexts(plain + agents))
         == Join(' ', ItemTexts(plain)) + (if agents == [] then "" else " " + OneItem(agents[0]))
  {
    hide Join, OneItem;
    if agents == [] {
      assert plain + agents == plain;
    } else {
      assert ItemTexts(plain + agents) == ItemTexts(plain) + [OneItem(agents[0])];
      JoinLast(' ', ItemTexts(plain), OneItem(agents[0]));
    }
  }

  lemma Shuffle(items: string, agent: string, params: string)
    ensures "(" + items + agent + ")" + params == "(" + (items + agent + ")") + params
  {
  }
}
