/** The Web Bot Auth verifier: the gates one signature label passes, and the loop over labels. */
module Verifier {
  import opened Wrappers
  import opened StructuredFields
  import opened SignatureBase
  import opened Outcomes
  import opened NonceStore
  import HeapQueue
  import Base64
  import Keys
  import Text
  import Utf8

  /** `acceptedTags` is the set in force: the three default tags when none or an empty set was given. */
  datatype Config = Config(
    acceptedTags: set<string>, maxValidity: int, skew: int, requireNonce: bool, maxSignatures: int)

  /** A member of Signature-Input: an inner list, or an item, over which Python cannot iterate. */
  datatype Labelled = Labelled(lab: string, inner: InnerList) | Flat(lab: string)

  /** The members of Signature by label; None is an inner list, which has no value to read. */
  type Signatures = map<string, Option<BareItem>>

  /** What a Signature-Agent dictionary member says: its URL, and the text of its `type` if given. */
  datatype Agent = Agent(url: BareItem, kind: Option<string>)

  /** Structured-field parsing of the headers, and Ed25519 verification. */
  datatype Parsers = Parsers(
    inputs: string -> Option<seq<Labelled>>,
    signatures: string -> Option<Signatures>,
    agentItem: string -> Option<BareItem>,
    agentMember: (string, BareItem) -> Option<Agent>,
    verifies: (Keys.PublicKey, seq<Base64.Byte>, seq<Base64.Byte>) -> bool)

  /** Everything the verifier is configured with or calls. */
  datatype Env = Env(
    cfg: Config, parsers: Parsers, lib: Library,
    keyLib: Keys.Library, keyCfg: Keys.Config, world: Keys.World)

  /** The clock as one label sees it: the verifier's reading and the resolver's. */
  datatype Tick = Tick(now: int, keys: Keys.Ticks)

  type Clock = nat -> Tick

  /** The state verification reads and changes. */
  datatype State = State(keys: Keys.State, seen: Nonces)

  // ---------- gates before the key lookup ----------

  predicate HasType(params: seq<Param>, name: string, int_: bool) {
    match Lookup(params, name)
    case None => true
    case Some(v) => if int_ then v.Integer? else v.Str?
  }

  /** The parameters whose types section 2.3 of RFC 9421 fixes, and whether each is an integer. */
  const TYPED_PARAMS: seq<(string, bool)> :=
    [("created", true), ("expires", true), ("keyid", false), ("alg", false), ("nonce", false), ("tag", false)]

  /** The first parameter of the wrong type, in the order the code checks. */
  function WrongTyped(params: seq<Param>, i: nat := 0): Option<string>
    requires i <= |TYPED_PARAMS|
    decreases |TYPED_PARAMS| - i
  {
    if i == |TYPED_PARAMS| then None
    else if !HasType(params, TYPED_PARAMS[i].0, TYPED_PARAMS[i].1) then Some(TYPED_PARAMS[i].0)
    else WrongTyped(params, i + 1)
  }

  lemma WrongTypedNone(params: seq<Param>)
    ensures WrongTyped(params) == None <==>
              && HasType(params, "created", true) && HasType(params, "expires", true) && HasType(params, "keyid", false)
              && HasType(params, "alg", false) && HasType(params, "nonce", false) && HasType(params, "tag", false)
  {
    hide HasType;
    assert WrongTyped(params, 6) == None;
    assert WrongTyped(params, 4) == None <==> HasType(params, "nonce", false) && HasType(params, "tag", false);
    assert WrongTyped(params, 2) == None <==>
        HasType(params, "keyid", false) && HasType(params, "alg", false) && WrongTyped(params, 4) == None;
  }

  function TextParam(params: seq<Param>, name: string): string {
    match Lookup(params, name)
    case Some(Str(s)) => s
    case _ => ""
  }

  function IntParam(params: seq<Param>, name: string): int {
    match Lookup(params, name)
    case Some(Integer(i)) => i
    case _ => 0
  }

  predicate TagAccepted(cfg: Config, params: seq<Param>) {
    match Lookup(params, "tag")
    case Some(Str(s)) => s in cfg.acceptedTags
    case _ => false
  }

  function MissingParam(params: seq<Param>): Option<string> {
    if Lookup(params, "created") == None then Some("created")
    else if Lookup(params, "expires") == None then Some("expires")
    else if Lookup(params, "keyid") == None then Some("keyid")
    else None
  }

  predicate Covers(l: InnerList, name: string) {
    exists i :: i in l.items && i.value.Reads(name)
  }

  /** The freshness arithmetic. */
  function Staleness(cfg: Config, created: int, expires: int, now: int): Option<Reason> {
    if created > now + cfg.skew then Some(CreatedInFuture)
    else if expires < now - cfg.skew then Some(Expired)
    else if expires - created > cfg.maxValidity then Some(ValidityTooLong)
    else None
  }

  /** Where the key is to be looked up. */
  datatype AgentLookup = NotSigned | Malformed | Lead(url: Keys.AgentUrl, kind: string)

  function SignedAgents(items: seq<Item>): seq<Item> {
    if items == [] then []
    else (if items[0].value.Reads("signature-agent") then [items[0]] else []) + SignedAgents(items[1..])
  }

  function AgentOf(parsers: Parsers, req: Request, l: InnerList): AgentLookup {
    var raw := Header(req, "signature-agent");
    if raw == "" then Lead(None, "directory")
    else
      var signed := SignedAgents(l.items);
      if signed == [] then NotSigned
      else
        match Lookup(signed[0].params, "key")
        case None =>
          (match parsers.agentItem(raw)
           case Some(url) => Lead(Some(url), "directory")
           case None => Malformed)
        case Some(member) =>
          match parsers.agentMember(raw, member)
          case Some(agent) => Lead(Some(agent.url), if agent.kind.Some? then agent.kind.value else "directory")
          case None => Malformed
  }

  datatype Gate = Stop(outcome: Outcome, reason: Reason) | Pass(agentUrl: Keys.AgentUrl, kind: string)

  function AlgOf(params: seq<Param>): string {
    if Lookup(params, "alg") == None then "ed25519" else TextParam(params, "alg")
  }

  function Gates(env: Env, req: Request, l: InnerList, now: int): Gate {
    var p, cfg := l.params, env.cfg;
    if WrongTyped(p).Some? then Stop(INVALID, WrongType(WrongTyped(p).value))
    else if !TagAccepted(cfg, p) then Stop(UNVERIFIED, TagNotAccepted)
    else if MissingParam(p).Some? then Stop(INVALID, Missing(MissingParam(p).value))
    else if AlgOf(p) != "ed25519" then Stop(if "hmac" <= AlgOf(p) then INVALID else UNVERIFIED, AlgNotAccepted)
    else if !Covers(l, "@authority") && !Covers(l, "@target-uri") then Stop(INVALID, AuthorityNotCovered)
    else if Staleness(cfg, IntParam(p, "created"), IntParam(p, "expires"), now).Some? then
      Stop(INVALID, Staleness(cfg, IntParam(p, "created"), IntParam(p, "expires"), now).value)
    else if cfg.requireNonce && TextParam(p, "nonce") == "" then Stop(INVALID, NonceRequired)
    else
      match AgentOf(env.parsers, req, l)
      case NotSigned => Stop(INVALID, AgentNotSigned)
      case Malformed => Stop(INVALID, AgentMalformed)
      case Lead(url, kind) => Pass(url, kind)
  }

  // ---------- what the gates ask ----------

  /** The parameter is there and is not of the type section 2.3 of RFC 9421 gives it. */
  predicate IllTyped(params: seq<Param>, name: string) {
    match Lookup(params, name)
    case None => false
    case Some(v) =>
      || ((name == "created" || name == "expires") && !v.Integer?)
      || ((name == "keyid" || name == "alg" || name == "nonce" || name == "tag") && !v.Str?)
  }

  /** The order in which types are checked. */
  function TypeRank(name: string): nat {
    if name == "created" then 0 else if name == "expires" then 1 else if name == "keyid" then 2
    else if name == "alg" then 3 else if name == "nonce" then 4 else 5
  }

  /** The header as sent, none when it is missing or empty. */
  predicate Sends(req: Request, name: string, raw: string) {
    name in req.headers && req.headers[name] == raw != ""
  }

  predicate CoversOne(items: seq<Item>, name: string) {
    exists i :: i in items && Called(i, name)
  }

  /** Item `k` is the first one called `signature-agent`. */
  predicate FirstAgent(items: seq<Item>, k: nat) {
    && k < |items| && Called(items[k], "signature-agent")
    && forall j :: 0 <= j < k ==> !Called(items[j], "signature-agent")
  }

  /** What the item that covers the header says of the agent: the URL of the whole header, or that of the
      member it names and the type that member gives, a directory when it gives none. */
  ghost predicate ItemLeads(parsers: Parsers, raw: string, params: seq<Param>, agent: AgentLookup) {
    match Lookup(params, "key")
    case None =>
      (match parsers.agentItem(raw)
       case None => agent == Malformed
       case Some(url) => agent == Lead(Some(url), "directory"))
    case Some(member) =>
      match parsers.agentMember(raw, member)
      case None => agent == Malformed
      case Some(Agent(url, None)) => agent == Lead(Some(url), "directory")
      case Some(Agent(url, Some(kind))) => agent == Lead(Some(url), kind)
  }

  /** Where a request says its key is: nowhere without the header; and the header must be covered. */
  ghost predicate IsAgent(parsers: Parsers, req: Request, items: seq<Item>, agent: AgentLookup) {
    if !exists raw :: Sends(req, "signature-agent", raw) then agent == Lead(None, "directory")
    else if !CoversOne(items, "signature-agent") then agent == NotSigned
    else exists k: nat :: && FirstAgent(items, k)
                          && ItemLeads(parsers, req.headers["signature-agent"], items[k].params, agent)
  }

  /** The label has this fault. */
  ghost predicate Fails(env: Env, req: Request, l: InnerList, now: int, reason: Reason) {
    var p, skew := l.params, env.cfg.skew;
    match reason
    case WrongType(name) => IllTyped(p, name)
    case TagNotAccepted => !exists tag :: Lookup(p, "tag") == Some(Str(tag)) && tag in env.cfg.acceptedTags
    case Missing(name) => (name == "created" || name == "expires" || name == "keyid") && Lookup(p, name) == None
    case AlgNotAccepted => Lookup(p, "alg") != None && Lookup(p, "alg") != Some(Str("ed25519"))
    case AuthorityNotCovered => !CoversOne(l.items, "@authority") && !CoversOne(l.items, "@target-uri")
    case CreatedInFuture => exists created :: Lookup(p, "created") == Some(Integer(created)) && created > now + skew
    case Expired => exists expires :: Lookup(p, "expires") == Some(Integer(expires)) && expires + skew < now
    case ValidityTooLong =>
      exists created, expires :: && Lookup(p, "created") == Some(Integer(created))
                                 && Lookup(p, "expires") == Some(Integer(expires))
                                 && expires - created > env.cfg.maxValidity
    case NonceRequired => env.cfg.requireNonce && (Lookup(p, "nonce") == None || Lookup(p, "nonce") == Some(Str("")))
    case AgentNotSigned => IsAgent(env.parsers, req, l.items, NotSigned)
    case AgentMalformed => IsAgent(env.parsers, req, l.items, Malformed)
    case _ => false
  }

  /** The order in which faults are looked for. */
  function Rank(reason: Reason): nat {
    match reason
    case WrongType(name) => TypeRank(name)
    case TagNotAccepted => 6
    case Missing(name) => if name == "created" then 7 else if name == "expires" then 8 else 9
    case AlgNotAccepted => 10
    case AuthorityNotCovered => 11
    case CreatedInFuture => 12
    case Expired => 13
    case ValidityTooLong => 14
    case NonceRequired => 15
    case _ => 16
  }

  /** The first fault of the label. */
  ghost predicate FailsFirst(env: Env, req: Request, l: InnerList, now: int, reason: Reason) {
    && Fails(env, req, l, now, reason)
    && forall other :: Fails(env, req, l, now, other) ==> Rank(reason) <= Rank(other)
  }

  /** An unknown tag and an unsupported algorithm that is not a shared secret leave a label undecided; every
      other fault makes it invalid. */
  ghost predicate IsOutcomeOf(l: InnerList, reason: Reason, outcome: Outcome) {
    if reason.TagNotAccepted? then outcome == UNVERIFIED
    else if reason.AlgNotAccepted? then
      outcome == if exists alg :: Lookup(l.params, "alg") == Some(Str(alg)) && "hmac" <= alg then INVALID
                 else UNVERIFIED
    else outcome == INVALID
  }

  /** The label has no fault, and its agent leads here. */
  ghost predicate Admissible(env: Env, req: Request, l: InnerList, now: int, url: Keys.AgentUrl, kind: string) {
    && (forall reason :: !Fails(env, req, l, now, reason))
    && IsAgent(env.parsers, req, l.items, Lead(url, kind))
  }

  lemma {:induction false} WrongTypedFirst(params: seq<Param>, i: nat)
    requires i <= |TYPED_PARAMS|
    ensures match WrongTyped(params, i)
            case None => forall name :: IllTyped(params, name) ==> TypeRank(name) < i
            case Some(name) =>
              && IllTyped(params, name) && i <= TypeRank(name)
              && forall other :: IllTyped(params, other) ==> TypeRank(other) < i || TypeRank(name) <= TypeRank(other)
    decreases |TYPED_PARAMS| - i
  {
    TypedParam(params, if i < 6 then i else 0);
    if i < |TYPED_PARAMS| {
      hide IllTyped, TypeRank, HasType;
      WrongTypedFirst(params, i + 1);
    } else {
      OnlySixTypes(params);
    }
  }

  lemma TypedParam(params: seq<Param>, i: nat)
    requires i < |TYPED_PARAMS|
    ensures TypeRank(TYPED_PARAMS[i].0) == i
    ensures IllTyped(params, TYPED_PARAMS[i].0) <==> !HasType(params, TYPED_PARAMS[i].0, TYPED_PARAMS[i].1)
    ensures forall name :: IllTyped(params, name) && TypeRank(name) == i ==> name == TYPED_PARAMS[i].0
  {
    hide Lookup;
  }

  lemma OnlySixTypes(params: seq<Param>)
    ensures forall name :: IllTyped(params, name) ==> TypeRank(name) < 6
  {
    hide Lookup, IllTyped;
  }

  lemma {:induction false} SignedAgentsAre(items: seq<Item>)
    ensures SignedAgents(items) == [] <==> !CoversOne(items, "signature-agent")
    ensures SignedAgents(items) != [] ==>
              exists k: nat :: FirstAgent(items, k) && SignedAgents(items)[0] == items[k]
  {
    if items != [] {
      var rest := items[1..];
      SignedAgentsAre(rest);
      if Called(items[0], "signature-agent") {
        assert FirstAgent(items, 0);
      } else if SignedAgents(rest) != [] {
        var k: nat :| FirstAgent(rest, k) && SignedAgents(rest)[0] == rest[k];
        assert FirstAgent(items, k + 1);
      }
    }
  }

  /** The agent is looked for as it must be. */
  lemma AgentMeans(parsers: Parsers, req: Request, l: InnerList, agent: AgentLookup)
    ensures AgentOf(parsers, req, l) == agent <==> IsAgent(parsers, req, l.items, agent)
  {
    hide Lookup, FirstAgent, CoversOne;
    SignedAgentsAre(l.items);
    hide SignedAgents;
    var raw := Header(req, "signature-agent");
    if raw != "" {
      assert Sends(req, "signature-agent", raw);
    }
    forall j: nat, k: nat | FirstAgent(l.items, j) && FirstAgent(l.items, k)
      ensures j == k
    {
      FirstAgentIsOne(l.items, j, k);
    }
  }

  lemma FirstAgentIsOne(items: seq<Item>, j: nat, k: nat)
    requires FirstAgent(items, j) && FirstAgent(items, k)
    ensures j == k
  {
  }

  /** What the gates must answer. */
  ghost predicate IsGate(env: Env, req: Request, l: InnerList, now: int, gate: Gate) {
    match gate
    case Stop(outcome, reason) => FailsFirst(env, req, l, now, reason) && IsOutcomeOf(l, reason, outcome)
    case Pass(url, kind) => Admissible(env, req, l, now, url, kind)
  }

  /** A well-typed parameter is missing or of its type. */
  lemma WellTyped(params: seq<Param>)
    requires forall name :: !IllTyped(params, name)
    ensures Lookup(params, "created").Some? ==> Lookup(params, "created").value.Integer?
    ensures Lookup(params, "expires").Some? ==> Lookup(params, "expires").value.Integer?
    ensures Lookup(params, "keyid").Some? ==> Lookup(params, "keyid").value.Str?
    ensures Lookup(params, "alg").Some? ==> Lookup(params, "alg").value.Str?
    ensures Lookup(params, "nonce").Some? ==> Lookup(params, "nonce").value.Str?
    ensures Lookup(params, "tag").Some? ==> Lookup(params, "tag").value.Str?
  {
    hide Lookup;
    assert !IllTyped(params, "created") && !IllTyped(params, "expires") && !IllTyped(params, "keyid");
    assert !IllTyped(params, "alg") && !IllTyped(params, "nonce") && !IllTyped(params, "tag");
  }

  /** Parameters that are there are compared as they should be. */
  lemma FaultsOfParams(env: Env, req: Request, l: InnerList, now: int)
    requires forall name :: !IllTyped(l.params, name)
    ensures var p := l.params;
            && (Fails(env, req, l, now, TagNotAccepted) <==> !TagAccepted(env.cfg, p))
            && (Fails(env, req, l, now, AlgNotAccepted) <==> AlgOf(p) != "ed25519")
            && (Fails(env, req, l, now, NonceRequired) <==> env.cfg.requireNonce && TextParam(p, "nonce") == "")
            && (AlgOf(p) != "ed25519" ==> Lookup(p, "alg") == Some(Str(AlgOf(p))))
  {
    hide Lookup, IllTyped;
    WellTyped(l.params);
  }

  lemma MissingIsFirst(params: seq<Param>)
    ensures var names := ["created", "expires", "keyid"];
            match MissingParam(params)
            case None => forall name :: name in names ==> Lookup(params, name).Some?
            case Some(name) =>
              && name in names && Lookup(params, name) == None
              && forall other :: other in names && Lookup(params, other) == None
                                 ==> Rank(Missing(name)) <= Rank(Missing(other))
  {
    hide Lookup;
  }

  lemma FaultsOfTime(env: Env, req: Request, l: InnerList, now: int)
    requires (forall name :: !IllTyped(l.params, name)) && MissingParam(l.params) == None
    ensures match Staleness(env.cfg, IntParam(l.params, "created"), IntParam(l.params, "expires"), now)
            case None =>
              && !Fails(env, req, l, now, CreatedInFuture) && !Fails(env, req, l, now, Expired)
              && !Fails(env, req, l, now, ValidityTooLong)
            case Some(reason) =>
              && Fails(env, req, l, now, reason)
              && (reason == CreatedInFuture || reason == Expired || reason == ValidityTooLong)
              && forall other :: Fails(env, req, l, now, other) && other in {CreatedInFuture, Expired, ValidityTooLong}
                                 ==> Rank(reason) <= Rank(other)
  {
    hide Lookup, IllTyped;
    WellTyped(l.params);
    MissingIsFirst(l.params);
    assert "created" in ["created", "expires", "keyid"] && "expires" in ["created", "expires", "keyid"];
  }

  /** The label has no fault that is looked for before rank `n`. */
  ghost predicate PassedTo(env: Env, req: Request, l: InnerList, now: int, n: nat) {
    forall reason :: Fails(env, req, l, now, reason) ==> n <= Rank(reason)
  }

  lemma PassedTypes(env: Env, req: Request, l: InnerList, now: int)
    ensures match WrongTyped(l.params)
            case None => (forall name :: !IllTyped(l.params, name)) && PassedTo(env, req, l, now, 6)
            case Some(name) => FailsFirst(env, req, l, now, WrongType(name))
  {
    WrongTypedFirst(l.params, 0);
    hide WrongTyped, IllTyped, Lookup, IsAgent, CoversOne, TypeRank;
    forall reason: Reason
      ensures !reason.WrongType? && Fails(env, req, l, now, reason) ==> 6 <= Rank(reason)
      ensures reason.WrongType? ==> (Fails(env, req, l, now, reason) <==> IllTyped(l.params, reason.param))
    {
    }
    TypeRanks();
  }

  lemma TypeRanks()
    ensures forall name :: TypeRank(name) < 6
  {
  }

  lemma PassedTag(env: Env, req: Request, l: InnerList, now: int)
    requires PassedTo(env, req, l, now, 6) && forall name :: !IllTyped(l.params, name)
    ensures if TagAccepted(env.cfg, l.params) then PassedTo(env, req, l, now, 7)
            else FailsFirst(env, req, l, now, TagNotAccepted)
  {
    FaultsOfParams(env, req, l, now);
    hide Fails, IllTyped, TagAccepted, TypeRank, AlgOf, TextParam;
    TypeRanks();
  }

  lemma PassedMissing(env: Env, req: Request, l: InnerList, now: int)
    requires PassedTo(env, req, l, now, 7)
    ensures match MissingParam(l.params)
            case None => PassedTo(env, req, l, now, 10)
            case Some(name) => FailsFirst(env, req, l, now, Missing(name))
  {
    MissingIsFirst(l.params);
    MissingFails(env, req, l, now);
    hide Fails, MissingParam, TypeRank, Lookup;
    TypeRanks();
  }

  lemma MissingFails(env: Env, req: Request, l: InnerList, now: int)
    ensures forall name :: Fails(env, req, l, now, Missing(name)) <==>
                             name in ["created", "expires", "keyid"] && Lookup(l.params, name) == None
  {
    hide Lookup;
  }

  lemma PassedAlg(env: Env, req: Request, l: InnerList, now: int)
    requires PassedTo(env, req, l, now, 10) && forall name :: !IllTyped(l.params, name)
    ensures if AlgOf(l.params) == "ed25519" then PassedTo(env, req, l, now, 11)
            else FailsFirst(env, req, l, now, AlgNotAccepted)
                 && IsOutcomeOf(l, AlgNotAccepted, if "hmac" <= AlgOf(l.params) then INVALID else UNVERIFIED)
  {
    FaultsOfParams(env, req, l, now);
    hide Fails, IllTyped, TagAccepted, TypeRank, AlgOf, TextParam, Lookup;
    TypeRanks();
  }

  lemma CoversIff(l: InnerList, name: string)
    ensures Covers(l, name) <==> CoversOne(l.items, name)
  {
  }

  lemma PassedAuthority(env: Env, req: Request, l: InnerList, now: int)
    requires PassedTo(env, req, l, now, 11)
    ensures if Covers(l, "@authority") || Covers(l, "@target-uri") then PassedTo(env, req, l, now, 12)
            else FailsFirst(env, req, l, now, AuthorityNotCovered)
  {
    CoversIff(l, "@authority");
    CoversIff(l, "@target-uri");
    hide Covers, CoversOne, TypeRank;
    assert Fails(env, req, l, now, AuthorityNotCovered) <==> !Covers(l, "@authority") && !Covers(l, "@target-uri");
    hide Fails;
    TypeRanks();
  }

  lemma PassedTime(env: Env, req: Request, l: InnerList, now: int)
    requires PassedTo(env, req, l, now, 12)
    requires (forall name :: !IllTyped(l.params, name)) && MissingParam(l.params) == None
    ensures match Staleness(env.cfg, IntParam(l.params, "created"), IntParam(l.params, "expires"), now)
            case None => PassedTo(env, req, l, now, 15)
            case Some(reason) => FailsFirst(env, req, l, now, reason) && IsOutcomeOf(l, reason, INVALID)
  {
    FaultsOfTime(env, req, l, now);
    hide Fails, IllTyped, Staleness, MissingParam, TypeRank, IntParam, Lookup;
    TypeRanks();
  }

  lemma PassedNonce(env: Env, req: Request, l: InnerList, now: int)
    requires PassedTo(env, req, l, now, 15) && forall name :: !IllTyped(l.params, name)
    ensures if env.cfg.requireNonce && TextParam(l.params, "nonce") == "" then
              FailsFirst(env, req, l, now, NonceRequired)
            else PassedTo(env, req, l, now, 16)
  {
    FaultsOfParams(env, req, l, now);
    hide Fails, IllTyped, TagAccepted, TypeRank, AlgOf, TextParam;
    TypeRanks();
  }

  lemma PassedAgent(env: Env, req: Request, l: InnerList, now: int)
    requires PassedTo(env, req, l, now, 16)
    ensures match AgentOf(env.parsers, req, l)
            case NotSigned => FailsFirst(env, req, l, now, AgentNotSigned)
            case Malformed => FailsFirst(env, req, l, now, AgentMalformed)
            case Lead(url, kind) => Admissible(env, req, l, now, url, kind)
  {
    AgentMeans(env.parsers, req, l, NotSigned);
    AgentMeans(env.parsers, req, l, Malformed);
    AgentMeans(env.parsers, req, l, AgentOf(env.parsers, req, l));
    hide AgentOf, IsAgent, TypeRank;
    assert Fails(env, req, l, now, AgentNotSigned) <==> AgentOf(env.parsers, req, l) == NotSigned;
    assert Fails(env, req, l, now, AgentMalformed) <==> AgentOf(env.parsers, req, l) == Malformed;
    forall reason | Fails(env, req, l, now, reason)
      ensures reason == AgentNotSigned || reason == AgentMalformed
    {
      assert Rank(reason) >= 16;
      LastFaults(env, req, l, now, reason);
    }
    hide Fails;
  }

  lemma LastFaults(env: Env, req: Request, l: InnerList, now: int, reason: Reason)
    requires Fails(env, req, l, now, reason) && Rank(reason) >= 16
    ensures reason == AgentNotSigned || reason == AgentMalformed
  {
    hide IllTyped, Lookup, IsAgent;
  }

  /** The gates answer the first fault, and let the label pass when it has none. */
  lemma GateIs(env: Env, req: Request, l: InnerList, now: int)
    ensures IsGate(env, req, l, now, Gates(env, req, l, now))
  {
    hide WrongTyped, IllTyped, TagAccepted, MissingParam, AlgOf, Covers, Staleness, IntParam, TextParam, AgentOf;
    hide PassedTo, FailsFirst, Admissible;
    PassedTypes(env, req, l, now);
    if WrongTyped(l.params) == None {
      PassedTag(env, req, l, now);
      if TagAccepted(env.cfg, l.params) {
        PassedMissing(env, req, l, now);
        if MissingParam(l.params) == None {
          PassedAlg(env, req, l, now);
          if AlgOf(l.params) == "ed25519" {
            PassedRest(env, req, l, now);
          }
        }
      }
    }
  }

  lemma PassedRest(env: Env, req: Request, l: InnerList, now: int)
    requires PassedTo(env, req, l, now, 11)
    requires WrongTyped(l.params) == None && (forall name :: !IllTyped(l.params, name))
    requires TagAccepted(env.cfg, l.params) && MissingParam(l.params) == None && AlgOf(l.params) == "ed25519"
    ensures IsGate(env, req, l, now, Gates(env, req, l, now))
  {
    hide WrongTyped, IllTyped, TagAccepted, MissingParam, AlgOf, Covers, Staleness, IntParam, TextParam, AgentOf;
    hide PassedTo, FailsFirst, Admissible;
    PassedAuthority(env, req, l, now);
    if Covers(l, "@authority") || Covers(l, "@target-uri") {
      PassedTime(env, req, l, now);
      if Staleness(env.cfg, IntParam(l.params, "created"), IntParam(l.params, "expires"), now) == None {
        PassedNonce(env, req, l, now);
        if !(env.cfg.requireNonce && TextParam(l.params, "nonce") == "") {
          PassedAgent(env, req, l, now);
        }
      }
    }
  }

  lemma TypeRankIsOne(params: seq<Param>, m: string, n: string)
    requires IllTyped(params, m) && IllTyped(params, n) && TypeRank(m) == TypeRank(n)
    ensures m == n
  {
    hide Lookup;
  }

  /** Different faults have different ranks. */
  lemma RankIsOne(env: Env, req: Request, l: InnerList, now: int, a: Reason, b: Reason)
    requires Fails(env, req, l, now, a) && Fails(env, req, l, now, b) && Rank(a) == Rank(b)
    ensures a == b
  {
    hide Lookup, IllTyped, CoversOne, IsAgent, TypeRank;
    TypeRanks();
    if a.WrongType? && b.WrongType? {
      TypeRankIsOne(l.params, a.param, b.param);
    }
    AgentMeans(env.parsers, req, l, NotSigned);
    AgentMeans(env.parsers, req, l, Malformed);
  }

  /** What the gates must answer is what they answer, and nothing else. */
  lemma GatesAre(env: Env, req: Request, l: InnerList, now: int, gate: Gate)
    ensures Gates(env, req, l, now) == gate <==> IsGate(env, req, l, now, gate)
  {
    hide Gates, Fails, IsAgent, IsOutcomeOf;
    GateIs(env, req, l, now);
    var g := Gates(env, req, l, now);
    if IsGate(env, req, l, now, gate) {
      if g.Stop? && gate.Stop? {
        RankIsOne(env, req, l, now, g.reason, gate.reason);
        OutcomeIsOne(l, g.reason, g.outcome, gate.outcome);
      } else if g.Pass? && gate.Pass? {
        AgentMeans(env.parsers, req, l, Lead(g.agentUrl, g.kind));
        AgentMeans(env.parsers, req, l, Lead(gate.agentUrl, gate.kind));
      }
    }
  }

  lemma OutcomeIsOne(l: InnerList, reason: Reason, a: Outcome, b: Outcome)
    requires IsOutcomeOf(l, reason, a) && IsOutcomeOf(l, reason, b)
    ensures a == b
  {
  }

  // ---------- one label ----------

  function Blank(lab: string, l: InnerList): VerificationResult {
    VerificationResult(INVALID, Good, Some(lab), Lookup(l.params, "keyid"), None, Lookup(l.params, "tag"),
                       seq(|l.items|, i requires 0 <= i < |l.items| => l.items[i].value))
  }

  function Fail(r: VerificationResult, outcome: Outcome, reason: Reason): VerificationResult {
    r.(outcome := outcome, reason := reason)
  }

  /** `Raising`: reading the signature's value or building the base raises something that is not caught. */
  datatype Status = Correct | Faulty(reason: Reason) | Raising

  /** What becomes of the signature check. */
  function SignatureStatus(env: Env, req: Request, lab: string, l: InnerList, sigs: Signatures,
                           key: Keys.PublicKey): Status
  {
    if lab !in sigs then Faulty(NoSignatureValue)
    else if sigs[lab].None? then Raising
    else if !sigs[lab].value.Bytes? then Faulty(SignatureNotBytes)
    else
      match SignatureBaseOf(env.lib, req, l)
      case Raised => Raising
      case Failed(error) => Faulty(BaseFailed(error))
      case Base(text) =>
        if env.parsers.verifies(key, sigs[lab].value.b, Base(text).Bytes()) then Correct else Faulty(SignatureMismatch)
  }

  /** `Escaped` is an exception that leaves `verify`. */
  datatype Answer = Result(result: VerificationResult) | Escaped

  predicate IsVerified(a: Answer) {
    a.Result? && a.result.outcome == VERIFIED
  }

  predicate IsInvalid(a: Answer) {
    a.Result? && a.result.outcome == INVALID
  }

  function Resolution(env: Env, st: State, req: Request, l: InnerList, tick: Tick): Keys.Resolution
    requires Gates(env, req, l, tick.now).Pass?
  {
    var g := Gates(env, req, l, tick.now);
    Keys.Resolve(env.keyLib, env.keyCfg, env.world, st.keys, TextParam(l.params, "keyid"), g.agentUrl, g.kind,
                 tick.keys)
  }

  /** Every check but the nonce passes. */
  predicate Genuine(env: Env, st: State, req: Request, lab: string, l: InnerList, sigs: Signatures,
                    tick: Tick) {
    && Gates(env, req, l, tick.now).Pass?
    && Resolution(env, st, req, l, tick).Resolved?
    && SignatureStatus(env, req, lab, l, sigs, Resolution(env, st, req, l, tick).key.key) == Correct
  }

  /** The label is genuine and its nonce, if it has one, is not live. */
  predicate Acceptable(env: Env, st: State, req: Request, lab: string, l: InnerList, sigs: Signatures,
                       tick: Tick) {
    && Genuine(env, st, req, lab, l, sigs, tick)
    && (TextParam(l.params, "nonce") == "" || Fresh(st.seen, TextParam(l.params, "nonce"), tick.now))
  }

  function Judge(env: Env, st: State, req: Request, lab: string, l: InnerList, sigs: Signatures,
                 tick: Tick): Answer {
    var r := Blank(lab, l);
    match Gates(env, req, l, tick.now)
    case Stop(outcome, reason) => Result(Fail(r, outcome, reason))
    case Pass(_, _) =>
      match Resolution(env, st, req, l, tick)
      case TestKeyRejected => Result(Fail(r, INVALID, TestKey))
      case KeyNotFound(why) => Result(Fail(r, UNVERIFIED, KeyUnavailable(why)))
      case Raised => Escaped
      case Resolved(key) =>
        var named := r.(operator := Some(key.source));
        match SignatureStatus(env, req, lab, l, sigs, key.key)
        case Raising => Escaped
        case Faulty(reason) => Result(Fail(named, INVALID, reason))
        case Correct =>
          var nonce := TextParam(l.params, "nonce");
          if nonce != "" && !Fresh(st.seen, nonce, tick.now) then Result(Fail(named, INVALID, NonceReplayed))
          else Result(Fail(named, VERIFIED, Good))
  }

  /** The state after judging: the key cache moves when a lookup happened, the nonces when a genuine
      label carried one. */
  function After(env: Env, st: State, req: Request, lab: string, l: InnerList, sigs: Signatures,
                 tick: Tick): State {
    match Gates(env, req, l, tick.now)
    case Stop(_, _) => st
    case Pass(url, kind) =>
      var keys := Keys.AfterResolve(env.keyLib, env.keyCfg, env.world, st.keys, TextParam(l.params, "keyid"), url, kind,
                                    tick.keys);
      var nonce := TextParam(l.params, "nonce");
      if Genuine(env, st, req, lab, l, sigs, tick) && nonce != "" then
        State(keys, AfterCall(st.seen, nonce, IntParam(l.params, "expires"), tick.now))
      else State(keys, st.seen)
  }

  // ---------- what the judgement must be ----------

  /** What becomes of the signature of a label, whose base is as `SignatureBase.IsBuilt` says. */
  ghost predicate IsStatus(env: Env, req: Request, lab: string, l: InnerList, sigs: Signatures,
                           key: Keys.PublicKey, status: Status) {
    if lab !in sigs then status == Faulty(NoSignatureValue)
    else if sigs[lab] == None then status == Raising
    else if !sigs[lab].value.Bytes? then status == Faulty(SignatureNotBytes)
    else
      exists base :: IsBuilt(env.lib, req, l, base) && match base
        case Raised => status == Raising
        case Failed(error) => status == Faulty(BaseFailed(error))
        case Base(text) => status == if env.parsers.verifies(key, sigs[lab].value.b, Utf8.Encode(text)) then Correct
                                     else Faulty(SignatureMismatch)
  }

  /** The answer about a label: it names the label and what the label says of itself, and the operator it is
      given. */
  predicate Reports(lab: string, l: InnerList, a: Answer, outcome: Outcome, reason: Reason, operator: Option<string>) {
    && a.Result? && a.result.outcome == outcome && a.result.reason == reason && a.result.operator == operator
    && a.result.lab == Some(lab)
    && a.result.keyid == Lookup(l.params, "keyid") && a.result.tag == Lookup(l.params, "tag")
    && |a.result.covered| == |l.items| && forall i :: 0 <= i < |l.items| ==> a.result.covered[i] == l.items[i].value
  }

  /** The label carries a nonce that is stored and has not expired. */
  ghost predicate Replays(st: State, l: InnerList, now: int) {
    exists nonce :: && Lookup(l.params, "nonce") == Some(Str(nonce)) && nonce != ""
                    && nonce in st.seen && now <= st.seen[nonce]
  }

  /** What is answered once the key was looked up: the operator is where the key was found, and there is none
      when it was not. */
  ghost predicate IsAnswerWith(env: Env, st: State, req: Request, lab: string, l: InnerList, sigs: Signatures,
                               now: int, found: Keys.Resolution, a: Answer) {
    match found
    case TestKeyRejected => Reports(lab, l, a, INVALID, TestKey, None)
    case KeyNotFound(why) => Reports(lab, l, a, UNVERIFIED, KeyUnavailable(why), None)
    case Raised => a == Escaped
    case Resolved(key) =>
      exists status :: IsStatus(env, req, lab, l, sigs, key.key, status) && match status
        case Raising => a == Escaped
        case Faulty(reason) => Reports(lab, l, a, INVALID, reason, Some(key.source))
        case Correct =>
          if Replays(st, l, now) then Reports(lab, l, a, INVALID, NonceReplayed, Some(key.source))
          else Reports(lab, l, a, VERIFIED, Good, Some(key.source))
  }

  /** What is found for the key id of the label, as `Keys.LooksUp` says. */
  ghost predicate Finds(env: Env, st: State, l: InnerList, tick: Tick, url: Keys.AgentUrl, kind: string,
                        found: Keys.Resolution) {
    exists keyid, after :: && Lookup(l.params, "keyid") == Some(Str(keyid))
                           && Keys.LooksUp(env.keyLib, env.keyCfg, env.world, st.keys, keyid, url, kind, tick.keys,
                                           found, after)
  }

  /** What one label must be answered: its first fault, without an operator; or what follows from the key its
      agent leads to. */
  ghost predicate IsJudged(env: Env, st: State, req: Request, lab: string, l: InnerList, sigs: Signatures,
                           tick: Tick, a: Answer) {
    || (exists outcome, reason :: && FailsFirst(env, req, l, tick.now, reason) && IsOutcomeOf(l, reason, outcome)
                                  && Reports(lab, l, a, outcome, reason, None))
    || (exists url, kind, found :: && Admissible(env, req, l, tick.now, url, kind)
                                   && Finds(env, st, l, tick, url, kind, found)
                                   && IsAnswerWith(env, st, req, lab, l, sigs, tick.now, found, a))
  }

  lemma StatusIs(env: Env, req: Request, lab: string, l: InnerList, sigs: Signatures, key: Keys.PublicKey,
                 status: Status)
    ensures SignatureStatus(env, req, lab, l, sigs, key) == status <==> IsStatus(env, req, lab, l, sigs, key, status)
  {
    hide SignatureBaseOf, IsBuilt, Utf8.Encode;
    forall base
      ensures base == SignatureBaseOf(env.lib, req, l) <==> IsBuilt(env.lib, req, l, base)
    {
      BaseIsBase(env.lib, req, l, base);
    }
    assert IsBuilt(env.lib, req, l, SignatureBaseOf(env.lib, req, l));
  }

  lemma ReplaysIff(st: State, l: InnerList, now: int)
    requires forall name :: !IllTyped(l.params, name)
    ensures Replays(st, l, now) <==>
              TextParam(l.params, "nonce") != "" && !Fresh(st.seen, TextParam(l.params, "nonce"), now)
  {
    hide IllTyped, Lookup;
    WellTyped(l.params);
  }

  lemma KeyidOfAdmissible(env: Env, req: Request, l: InnerList, now: int, url: Keys.AgentUrl, kind: string)
    requires Admissible(env, req, l, now, url, kind)
    ensures forall name :: !IllTyped(l.params, name)
    ensures Lookup(l.params, "keyid") == Some(Str(TextParam(l.params, "keyid")))
  {
    hide Lookup, IsAgent;
    forall name
      ensures !IllTyped(l.params, name)
    {
      assert !Fails(env, req, l, now, WrongType(name));
    }
    assert !Fails(env, req, l, now, Missing("keyid"));
    hide Fails, IllTyped;
    WellTyped(l.params);
  }

  lemma FindsIff(env: Env, st: State, req: Request, l: InnerList, tick: Tick, url: Keys.AgentUrl, kind: string,
                 found: Keys.Resolution)
    requires Gates(env, req, l, tick.now) == Pass(url, kind) && Admissible(env, req, l, tick.now, url, kind)
    ensures Finds(env, st, l, tick, url, kind, found) <==> found == Resolution(env, st, req, l, tick)
  {
    KeyidOfAdmissible(env, req, l, tick.now, url, kind);
    hide Gates, Lookup, Admissible, Keys.LooksUp, Keys.Resolve, Keys.AfterResolve, TextParam;
    var keyid := TextParam(l.params, "keyid");
    forall after
      ensures Keys.LooksUp(env.keyLib, env.keyCfg, env.world, st.keys, keyid, url, kind, tick.keys, found, after)
         <==> && found == Resolution(env, st, req, l, tick)
              && after == Keys.AfterResolve(env.keyLib, env.keyCfg, env.world, st.keys, keyid, url, kind, tick.keys)
    {
      Keys.LookupIsUnique(env.keyLib, env.keyCfg, env.world, st.keys, keyid, url, kind, tick.keys, found, after);
    }
    if found == Resolution(env, st, req, l, tick) {
      var after := Keys.AfterResolve(env.keyLib, env.keyCfg, env.world, st.keys, keyid, url, kind, tick.keys);
      assert Keys.LooksUp(env.keyLib, env.keyCfg, env.world, st.keys, keyid, url, kind, tick.keys, found, after);
    }
  }

  lemma ReportsIff(lab: string, l: InnerList, a: Answer, outcome: Outcome, reason: Reason, operator: Option<string>)
    ensures Reports(lab, l, a, outcome, reason, operator)
       <==> a == Result(Fail(Blank(lab, l).(operator := operator), outcome, reason))
  {
    hide Lookup;
    if Reports(lab, l, a, outcome, reason, operator) {
      assert a.result.covered == Blank(lab, l).covered;
    }
  }

  lemma AnswerWithIs(env: Env, st: State, req: Request, lab: string, l: InnerList, sigs: Signatures, tick: Tick,
                     a: Answer)
    requires Gates(env, req, l, tick.now).Pass? && forall name :: !IllTyped(l.params, name)
    ensures a == Judge(env, st, req, lab, l, sigs, tick) <==>
              IsAnswerWith(env, st, req, lab, l, sigs, tick.now, Resolution(env, st, req, l, tick), a)
  {
    hide Gates, IllTyped, Resolution, SignatureStatus, IsStatus, Reports, Replays, Blank, TextParam, Fresh;
    ReplaysIff(st, l, tick.now);
    forall outcome, reason, operator
      ensures Reports(lab, l, a, outcome, reason, operator)
         <==> a == Result(Fail(Blank(lab, l).(operator := operator), outcome, reason))
    {
      ReportsIff(lab, l, a, outcome, reason, operator);
    }
    NoOperator(lab, l);
    forall key, status
      ensures SignatureStatus(env, req, lab, l, sigs, key) == status <==> IsStatus(env, req, lab, l, sigs, key, status)
    {
      StatusIs(env, req, lab, l, sigs, key, status);
    }
    var found := Resolution(env, st, req, l, tick);
    if found.Resolved? {
      assert IsStatus(env, req, lab, l, sigs, found.key.key, SignatureStatus(env, req, lab, l, sigs, found.key.key));
    }
  }

  lemma NoOperator(lab: string, l: InnerList)
    ensures Blank(lab, l).operator == None && Blank(lab, l).(operator := None) == Blank(lab, l)
  {
  }

  /** A label is answered what it must be answered, and nothing else. */
  lemma JudgeIs(env: Env, st: State, req: Request, lab: string, l: InnerList, sigs: Signatures, tick: Tick, a: Answer)
    ensures a == Judge(env, st, req, lab, l, sigs, tick) <==> IsJudged(env, st, req, lab, l, sigs, tick, a)
  {
    hide Gates, Resolution, SignatureStatus, Reports, Blank, FailsFirst, IsOutcomeOf, Admissible, Finds, IsAnswerWith;
    var g := Gates(env, req, l, tick.now);
    forall gate
      ensures g == gate <==> IsGate(env, req, l, tick.now, gate)
    {
      GatesAre(env, req, l, tick.now, gate);
    }
    assert IsGate(env, req, l, tick.now, g);
    match g
    case Stop(outcome, reason) =>
      ReportsIff(lab, l, a, outcome, reason, None);
      NoOperator(lab, l);
      forall o, r | FailsFirst(env, req, l, tick.now, r) && IsOutcomeOf(l, r, o)
        ensures o == outcome && r == reason
      {
        assert IsGate(env, req, l, tick.now, Stop(o, r));
      }
      forall u, k
        ensures !Admissible(env, req, l, tick.now, u, k)
      {
        assert IsGate(env, req, l, tick.now, Pass(u, k)) <==> g == Pass(u, k);
      }
    case Pass(url, kind) =>
      KeyidOfAdmissible(env, req, l, tick.now, url, kind);
      AnswerWithIs(env, st, req, lab, l, sigs, tick, a);
      forall found
        ensures Finds(env, st, l, tick, url, kind, found) <==> found == Resolution(env, st, req, l, tick)
      {
        FindsIff(env, st, req, l, tick, url, kind, found);
      }
      forall u, k | Admissible(env, req, l, tick.now, u, k)
        ensures u == url && k == kind
      {
        assert IsGate(env, req, l, tick.now, Pass(u, k));
      }
      forall o, r
        ensures !(FailsFirst(env, req, l, tick.now, r) && IsOutcomeOf(l, r, o))
      {
        assert IsGate(env, req, l, tick.now, Stop(o, r)) <==> g == Stop(o, r);
      }
  }

  // ---------- what VERIFIED and the operator mean ----------

  /** The label has no fault, `key` is found for it, and its signature is one by that key of the bytes of its
      base. */
  ghost predicate Proves(env: Env, st: State, req: Request, lab: string, l: InnerList, sigs: Signatures,
                         tick: Tick, key: Keys.ResolvedKey) {
    && (exists url, kind :: && Admissible(env, req, l, tick.now, url, kind)
                            && Finds(env, st, l, tick, url, kind, Keys.Resolved(key)))
    && lab in sigs && sigs[lab].Some? && sigs[lab].value.Bytes?
    && exists text :: && IsBuilt(env.lib, req, l, Base(text))
                      && env.parsers.verifies(key.key, sigs[lab].value.b, Utf8.Encode(text))
  }

  lemma GenuineProves(env: Env, st: State, req: Request, lab: string, l: InnerList, sigs: Signatures, tick: Tick,
                      key: Keys.ResolvedKey)
    ensures Proves(env, st, req, lab, l, sigs, tick, key)
       <==> Genuine(env, st, req, lab, l, sigs, tick) && key == Resolution(env, st, req, l, tick).key
  {
    hide Gates, Resolution, SignatureStatus, Admissible, Finds, SignatureBaseOf, IsBuilt, Utf8.Encode;
    var g := Gates(env, req, l, tick.now);
    forall gate
      ensures g == gate <==> IsGate(env, req, l, tick.now, gate)
    {
      GatesAre(env, req, l, tick.now, gate);
    }
    forall u, k
      ensures Admissible(env, req, l, tick.now, u, k) <==> g == Pass(u, k)
    {
      assert IsGate(env, req, l, tick.now, Pass(u, k)) <==> g == Pass(u, k);
    }
    if g.Pass? {
      FindsIff(env, st, req, l, tick, g.agentUrl, g.kind, Keys.Resolved(key));
      SignatureProves(env, req, lab, l, sigs, key.key);
    }
  }

  lemma SignatureProves(env: Env, req: Request, lab: string, l: InnerList, sigs: Signatures, key: Keys.PublicKey)
    ensures SignatureStatus(env, req, lab, l, sigs, key) == Correct <==>
              && lab in sigs && sigs[lab].Some? && sigs[lab].value.Bytes?
              && exists text :: && IsBuilt(env.lib, req, l, Base(text))
                                && env.parsers.verifies(key, sigs[lab].value.b, Utf8.Encode(text))
  {
    hide SignatureStatus, IsBuilt, Utf8.Encode;
    StatusIs(env, req, lab, l, sigs, key, Correct);
  }

  /** A label is VERIFIED exactly when some key proves it and its nonce, if any, is not stored; and then the
      operator is the source of that key. */
  lemma VerifiedMeans(env: Env, st: State, req: Request, lab: string, l: InnerList, sigs: Signatures, tick: Tick)
    ensures var a := Judge(env, st, req, lab, l, sigs, tick);
            && (IsVerified(a)
                <==> (exists key :: Proves(env, st, req, lab, l, sigs, tick, key)) && !Replays(st, l, tick.now))
            && (IsVerified(a) ==>
                  forall key :: Proves(env, st, req, lab, l, sigs, tick, key) ==> a.result.operator == Some(key.source))
  {
    VerifiedIffAcceptable(env, st, req, lab, l, sigs, tick);
    forall key
      ensures Proves(env, st, req, lab, l, sigs, tick, key)
         <==> Genuine(env, st, req, lab, l, sigs, tick) && key == Resolution(env, st, req, l, tick).key
    {
      GenuineProves(env, st, req, lab, l, sigs, tick, key);
    }
    if Genuine(env, st, req, lab, l, sigs, tick) {
      assert Proves(env, st, req, lab, l, sigs, tick, Resolution(env, st, req, l, tick).key);
      TypedWhenGenuine(env, st, req, lab, l, sigs, tick);
      ReplaysIff(st, l, tick.now);
    }
    hide Gates, Resolution, SignatureStatus, Proves, Replays, TextParam, Fresh;
  }

  lemma TypedWhenGenuine(env: Env, st: State, req: Request, lab: string, l: InnerList, sigs: Signatures, tick: Tick)
    requires Genuine(env, st, req, lab, l, sigs, tick)
    ensures forall name :: !IllTyped(l.params, name)
  {
    hide Resolution, SignatureStatus, Gates;
    var g := Gates(env, req, l, tick.now);
    GatesAre(env, req, l, tick.now, g);
    KeyidOfAdmissible(env, req, l, tick.now, g.agentUrl, g.kind);
  }

  /** The key is the one registered under the key id of the label; or, none being registered, one with that
      thumbprint that a fetch made so far of its source published, in force and within its lifetime. */
  ghost predicate Attested(env: Env, st: State, after: State, l: InnerList, tick: Tick, key: Keys.ResolvedKey) {
    exists keyid :: && Lookup(l.params, "keyid") == Some(Str(keyid))
                    && if keyid in st.keys.statics then key == st.keys.statics[keyid]
                       else
                         && key.keyid == keyid
                         && exists f :: && f in after.keys.fetches
                                        && Keys.Vouches(env.keyLib, env.keyCfg, env.world, f, key, tick.keys)
  }

  /** The operator of a VERIFIED label, in a state whose cache is honest: the source of a key that proves it and
      is attested, so the source under which the key was registered, or the URL whose fetch published it. */
  lemma VerifiedOperator(env: Env, st: State, req: Request, lab: string, l: InnerList, sigs: Signatures, tick: Tick,
                         now: int)
    requires Keys.Honest(env.keyLib, env.keyCfg, env.world, st.keys, now) && Keys.InOrder(now, tick.keys)
    requires IsVerified(Judge(env, st, req, lab, l, sigs, tick))
    ensures exists key :: && Proves(env, st, req, lab, l, sigs, tick, key)
                          && Attested(env, st, After(env, st, req, lab, l, sigs, tick), l, tick, key)
                          && Judge(env, st, req, lab, l, sigs, tick).result.operator == Some(key.source)
  {
    hide Judge, SignatureStatus, Lookup, Keys.Resolve, Keys.Vouches, Keys.Honest, Keys.AfterResolve, AfterCall, Fresh;
    VerifiedIffAcceptable(env, st, req, lab, l, sigs, tick);
    VerifiedMeans(env, st, req, lab, l, sigs, tick);
    var g := Gates(env, req, l, tick.now);
    GatesAre(env, req, l, tick.now, g);
    KeyidOfAdmissible(env, req, l, tick.now, g.agentUrl, g.kind);
    hide Gates, Proves, Replays, Admissible, IllTyped;
    var key := Resolution(env, st, req, l, tick).key;
    GenuineProves(env, st, req, lab, l, sigs, tick, key);
    var keyid := TextParam(l.params, "keyid");
    Keys.SourceIs(env.keyLib, env.keyCfg, env.world, st.keys, keyid, g.agentUrl, g.kind, tick.keys);
    if keyid !in st.keys.statics {
      Keys.ResolvedIsPublished(env.keyLib, env.keyCfg, env.world, st.keys, now, keyid, g.agentUrl, g.kind, tick.keys);
    }
  }

  /** A label is VERIFIED exactly when it is acceptable. */
  lemma VerifiedIffAcceptable(env: Env, st: State, req: Request, lab: string, l: InnerList,
                              sigs: Signatures, tick: Tick)
    ensures IsVerified(Judge(env, st, req, lab, l, sigs, tick)) <==> Acceptable(env, st, req, lab, l, sigs, tick)
  {
    hide SignatureStatus, Resolution, Fresh;
    GatesNeverVerify(env, req, l, tick.now);
    hide Gates;
  }

  lemma GatesNeverVerify(env: Env, req: Request, l: InnerList, now: int)
    ensures Gates(env, req, l, now).Stop? ==> Gates(env, req, l, now).outcome != VERIFIED
  {
    hide WrongTyped, TagAccepted, MissingParam, Staleness, AgentOf, AlgOf;
  }

  /** Outside development mode the published test key verifies nothing, registered or not; a shared-secret
      algorithm verifies nothing anywhere. */
  lemma NeverVerified(env: Env, st: State, req: Request, lab: string, l: InnerList, sigs: Signatures,
                      tick: Tick)
    requires (TextParam(l.params, "keyid") == Keys.TEST_KEYID && !env.keyCfg.devMode) || "hmac" <= AlgOf(l.params)
    ensures !IsVerified(Judge(env, st, req, lab, l, sigs, tick))
  {
    VerifiedIffAcceptable(env, st, req, lab, l, sigs, tick);
    GatesPassIff(env, req, l, tick.now);
    hide Judge, Gates, TextParam, SignatureStatus;
    assert "ed25519"[0] != "hmac"[0];
  }

  /** The label has a signature of bytes, so the base is built. */
  predicate BaseIsBuilt(lab: string, sigs: Signatures) {
    lab in sigs && sigs[lab].Some? && sigs[lab].value.Bytes?
  }

  /** The label's member of Signature is an inner list. */
  predicate ListForSignature(lab: string, sigs: Signatures) {
    lab in sigs && sigs[lab].None?
  }

  /** Checking the signature raises: its member is an inner list, or it is bytes and building the base raises. */
  predicate CheckRaises(env: Env, req: Request, lab: string, l: InnerList, sigs: Signatures) {
    ListForSignature(lab, sigs) || (BaseIsBuilt(lab, sigs) && SignatureBaseOf(env.lib, req, l) == Raised)
  }

  /** UNVERIFIED means that there was not enough to decide: an unknown tag, an unsupported algorithm that
      is not a shared secret, or key material that could not be obtained. Everything else that is not
      VERIFIED is INVALID. An exception escapes exactly when the key lookup raises (`Keys.RaisesIff`), or the
      key is found and the member of Signature is an inner list or building the base raises
      (`SignatureBase.BaseRaisesIff`). */
  lemma UnverifiedIffUndecided(env: Env, st: State, req: Request, lab: string, l: InnerList,
                               sigs: Signatures, tick: Tick)
    ensures var a, p := Judge(env, st, req, lab, l, sigs, tick), l.params;
            && (a.Result? && a.result.outcome == UNVERIFIED <==>
                  || (WrongTyped(p) == None && !TagAccepted(env.cfg, p))
                  || (WrongTyped(p) == None && TagAccepted(env.cfg, p) && MissingParam(p) == None
                      && AlgOf(p) != "ed25519" && !("hmac" <= AlgOf(p)))
                  || (Gates(env, req, l, tick.now).Pass? && Resolution(env, st, req, l, tick).KeyNotFound?))
            && (a.Escaped? <==>
                  && Gates(env, req, l, tick.now).Pass?
                  && (|| Resolution(env, st, req, l, tick).Raised?
                      || (Resolution(env, st, req, l, tick).Resolved? && CheckRaises(env, req, lab, l, sigs))))
            && (a.Result? ==> a.result.outcome != UNSIGNED)
  {
    hide WrongTyped, TagAccepted, MissingParam, AlgOf, Staleness, AgentOf, SignatureBaseOf, Keys.Resolve, Fresh;
  }

  /** What passing the gates means. */
  lemma GatesPassIff(env: Env, req: Request, l: InnerList, now: int)
    ensures Gates(env, req, l, now).Pass? <==>
              var p, created, expires := l.params, IntParam(l.params, "created"), IntParam(l.params, "expires");
              && WrongTyped(p) == None && TagAccepted(env.cfg, p) && MissingParam(p) == None
              && AlgOf(p) == "ed25519"
              && (Covers(l, "@authority") || Covers(l, "@target-uri"))
              && created - env.cfg.skew <= now <= expires + env.cfg.skew
              && expires - created <= env.cfg.maxValidity
              && (env.cfg.requireNonce ==> TextParam(p, "nonce") != "")
              && AgentOf(env.parsers, req, l).Lead?
  {
    hide WrongTyped, TagAccepted, MissingParam, AgentOf, AlgOf, TextParam, IntParam;
  }

  /** What one label does to the nonces that are unexpired then or later: a VERIFIED label adds its own, if it
      has one that is unexpired itself (it may have been accepted within the clock skew past its expiry);
      nothing else changes them. */
  lemma UnexpiredNoncesAfterLabel(env: Env, st: State, req: Request, lab: string, l: InnerList,
                                  sigs: Signatures, tick: Tick, t: int)
    requires tick.now <= t
    ensures var nonce, expires := TextParam(l.params, "nonce"), IntParam(l.params, "expires");
            var live := Live(st.seen, t);
            Live(After(env, st, req, lab, l, sigs, tick).seen, t)
            == if IsVerified(Judge(env, st, req, lab, l, sigs, tick)) && nonce != "" && expires >= t
               then live[nonce := expires] else live
  {
    hide Judge, Genuine;
    VerifiedIffAcceptable(env, st, req, lab, l, sigs, tick);
    var nonce, expires := TextParam(l.params, "nonce"), IntParam(l.params, "expires");
    LiveAfterCall(st.seen, nonce, expires, tick.now, t);
    hide Live, AfterCall, Gates, Fresh;
    if Gates(env, req, l, tick.now).Stop? {
      NotGenuine(env, st, req, lab, l, sigs, tick);
    }
  }

  lemma NotGenuine(env: Env, st: State, req: Request, lab: string, l: InnerList, sigs: Signatures,
                   tick: Tick)
    requires Gates(env, req, l, tick.now).Stop?
    ensures !Genuine(env, st, req, lab, l, sigs, tick)
  {
  }

  lemma LiveAfterCall(seen: Nonces, nonce: string, expires: int, now: int, t: int)
    requires now <= t
    ensures Live(AfterCall(seen, nonce, expires, now), t)
         == if Fresh(seen, nonce, now) && expires >= t then Live(seen, t)[nonce := expires] else Live(seen, t)
  {
  }

  // ---------- one member of Signature-Input ----------

  /** An item raises before anything is looked at. */
  function JudgeMember(env: Env, st: State, req: Request, m: Labelled, sigs: Signatures,
                       tick: Tick): Answer {
    match m
    case Labelled(lab, l) => Judge(env, st, req, lab, l, sigs, tick)
    case Flat(_) => Escaped
  }

  function AfterMember(env: Env, st: State, req: Request, m: Labelled, sigs: Signatures,
                       tick: Tick): State {
    match m
    case Labelled(lab, l) => After(env, st, req, lab, l, sigs, tick)
    case Flat(_) => st
  }

  lemma OneFetch(env: Env, st: State, req: Request, m: Labelled, sigs: Signatures, tick: Tick)
    ensures |AfterMember(env, st, req, m, sigs, tick).keys.fetches| <= |st.keys.fetches| + 1
  {
    hide Gates, Genuine, AfterCall, TextParam, IntParam, Keys.Consults, Keys.EntryOf;
  }

  lemma LabelKeepsStatics(env: Env, st: State, req: Request, m: Labelled, sigs: Signatures, tick: Tick)
    ensures AfterMember(env, st, req, m, sigs, tick).keys.statics == st.keys.statics
  {
    hide Gates, Genuine, AfterCall, TextParam, IntParam, Keys.Consults, Keys.EntryOf;
  }

  /** The resolver's clock does not go back from `now` on, neither within a label nor from one to the next. */
  ghost predicate TicksForward(now: int, clock: Clock) {
    && Keys.InOrder(now, clock(0).keys)
    && forall k: nat :: Keys.InOrder(clock(k).keys.check, clock(k).keys) && clock(k).keys.use <= clock(k + 1).keys.check
  }

  lemma LabelKeepsHonest(env: Env, st: State, req: Request, m: Labelled, sigs: Signatures, tick: Tick, now: int)
    requires Keys.Honest(env.keyLib, env.keyCfg, env.world, st.keys, now) && Keys.InOrder(now, tick.keys)
    ensures Keys.Honest(env.keyLib, env.keyCfg, env.world, AfterMember(env, st, req, m, sigs, tick).keys, tick.keys.use)
  {
    hide Keys.Honest, Genuine, AfterCall, Keys.AfterResolve, TextParam, IntParam;
    Keys.StillHonest(env.keyLib, env.keyCfg, env.world, st.keys, now, tick.keys.use);
    if m.Labelled? {
      var g := Gates(env, req, m.inner, tick.now);
      hide Gates;
      if g.Pass? {
        Keys.ResolveKeepsHonest(env.keyLib, env.keyCfg, env.world, st.keys, now, TextParam(m.inner.params, "keyid"),
                                g.agentUrl, g.kind, tick.keys);
      }
    }
  }

  /** The parsers found the agent in some header. */
  ghost predicate FromHeader(parsers: Parsers, agent: BareItem) {
    || (exists raw :: parsers.agentItem(raw) == Some(agent))
    || exists raw, member, kind :: parsers.agentMember(raw, member) == Some(Agent(agent, kind))
  }

  /** The source of a registered key, or a URL that an agent found in a header leads to. */
  ghost predicate IsSource(env: Env, statics: map<string, Keys.ResolvedKey>, source: string) {
    || (exists kid :: kid in statics && source == statics[kid].source)
    || exists agent, kind :: && FromHeader(env.parsers, agent)
                             && Keys.AgentLeadsTo(env.keyLib, env.keyCfg, Some(agent), kind, source)
  }

  lemma AgentIsFromHeader(parsers: Parsers, req: Request, l: InnerList)
    ensures var a := AgentOf(parsers, req, l); a.Lead? && a.url.Some? ==> FromHeader(parsers, a.url.value)
  {
    hide SignedAgents, Lookup;
    var raw := Header(req, "signature-agent");
    var signed := SignedAgents(l.items);
    if raw != "" && signed != [] && Lookup(signed[0].params, "key").Some? {
      var found := parsers.agentMember(raw, Lookup(signed[0].params, "key").value);
      if found.Some? {
        assert found == Some(Agent(found.value.url, found.value.kind));
      }
    }
  }

  lemma PassIsFromHeader(env: Env, req: Request, l: InnerList, now: int)
    ensures var g := Gates(env, req, l, now); g.Pass? && g.agentUrl.Some? ==> FromHeader(env.parsers, g.agentUrl.value)
  {
    AgentIsFromHeader(env.parsers, req, l);
    hide AgentOf, FromHeader, WrongTyped, TagAccepted, MissingParam, AlgOf, Covers, Staleness;
  }

  /** Every operator a label is given is such a source; a label whose key was not found has none, and a VERIFIED
      one has one. */
  lemma OperatorIsSource(env: Env, st: State, req: Request, lab: string, l: InnerList, sigs: Signatures, tick: Tick)
    requires Judge(env, st, req, lab, l, sigs, tick).Result?
    ensures var r := Judge(env, st, req, lab, l, sigs, tick).result;
            && (r.operator.Some? ==> IsSource(env, st.keys.statics, r.operator.value))
            && (r.operator.Some?
                <==> || r.reason in {Good, NoSignatureValue, SignatureNotBytes, SignatureMismatch, NonceReplayed}
                     || r.reason.BaseFailed?)
            && (r.outcome == VERIFIED ==> r.operator.Some?)
  {
    JudgeIs(env, st, req, lab, l, sigs, tick, Judge(env, st, req, lab, l, sigs, tick));
    var g := Gates(env, req, l, tick.now);
    GatesNeverVerify(env, req, l, tick.now);
    GateReasons(env, req, l, tick.now);
    StatusReasons(env, req, lab, l, sigs, st, tick);
    hide IsJudged, Gates, SignatureStatus, Keys.Resolve, Fresh, IsSource, TextParam;
    if g.Pass? && Resolution(env, st, req, l, tick).Resolved? {
      SourceOfLabel(env, st, req, l, tick);
    }
  }

  lemma GateReasons(env: Env, req: Request, l: InnerList, now: int)
    ensures var g := Gates(env, req, l, now);
            g.Stop? ==> && g.reason !in {Good, NoSignatureValue, SignatureNotBytes, SignatureMismatch, NonceReplayed}
                        && !g.reason.BaseFailed?
  {
    GateIs(env, req, l, now);
    hide Gates, IllTyped, Lookup, CoversOne, IsAgent;
  }

  lemma StatusReasons(env: Env, req: Request, lab: string, l: InnerList, sigs: Signatures, st: State, tick: Tick)
    ensures forall key :: var status := SignatureStatus(env, req, lab, l, sigs, key);
                          status.Faulty? ==> status.reason in {NoSignatureValue, SignatureNotBytes, SignatureMismatch}
                                             || status.reason.BaseFailed?
  {
    hide SignatureBaseOf, Utf8.Encode;
  }

  lemma SourceOfLabel(env: Env, st: State, req: Request, l: InnerList, tick: Tick)
    requires Gates(env, req, l, tick.now).Pass? && Resolution(env, st, req, l, tick).Resolved?
    ensures IsSource(env, st.keys.statics, Resolution(env, st, req, l, tick).key.source)
  {
    PassIsFromHeader(env, req, l, tick.now);
    var g := Gates(env, req, l, tick.now);
    hide Gates, FromHeader, Keys.Resolve, Keys.AgentLeadsTo, TextParam;
    var keyid := TextParam(l.params, "keyid");
    Keys.SourceIs(env.keyLib, env.keyCfg, env.world, st.keys, keyid, g.agentUrl, g.kind, tick.keys);
    if keyid !in st.keys.statics {
      var key := Resolution(env, st, req, l, tick).key;
      assert Keys.AgentLeadsTo(env.keyLib, env.keyCfg, g.agentUrl, g.kind, key.source);
      Keys.LeadNeedsAgent(env.keyLib, env.keyCfg, g.agentUrl, g.kind, key.source);
    }
  }

  // ---------- all labels ----------

  function Refusal(reason: Reason): VerificationResult {
    VerificationResult(INVALID, reason, None, None, None, None, [])
  }

  /** A verified label ends the loop; so does an exception. */
  predicate EndsLoop(a: Answer) {
    IsVerified(a) || a.Escaped?
  }

  /** The labels of one request, the state the loop starts in, and the clock each label sees. */
  datatype Job = Job(env: Env, start: State, req: Request, inputs: seq<Labelled>, sigs: Signatures,
                     clock: Clock) {

    /** The state when label `k` is judged, if no earlier one ended the loop. */
    function StateAt(k: nat): State
      requires k <= |inputs|
    {
      if k == 0 then start
      else AfterMember(env, StateAt(k - 1), req, inputs[k - 1], sigs, clock(k - 1))
    }

    function JudgeAt(k: nat): Answer
      requires k < |inputs|
    {
      JudgeMember(env, StateAt(k), req, inputs[k], sigs, clock(k))
    }

    /** `k` is the first label that ends the loop, or their number if none does. */
    ghost predicate StopsAt(k: nat) {
      && k <= |inputs|
      && (forall j :: 0 <= j < k ==> !EndsLoop(JudgeAt(j)))
      && (k < |inputs| ==> EndsLoop(JudgeAt(k)))
    }

    ghost predicate FirstInvalid(i: nat) {
      && i < |inputs| && IsInvalid(JudgeAt(i))
      && forall j :: 0 <= j < i ==> !IsInvalid(JudgeAt(j))
    }

    /** What is reported when the loop ends at `k`: the label that ended it; failing that the first
        INVALID label; failing that the first label; failing that a refusal. */
    ghost predicate Preferred(k: nat, answer: Answer)
      requires k <= |inputs|
    {
      if k < |inputs| then answer == JudgeAt(k)
      else if exists i: nat :: FirstInvalid(i) then exists i: nat :: FirstInvalid(i) && answer == JudgeAt(i)
      else if |inputs| > 0 then answer == JudgeAt(0)
      else answer == Result(Refusal(NoUsableSignature))
    }

    ghost predicate EndsWith(k: nat, answer: Answer, after: State) {
      && StopsAt(k)
      && after == StateAt(if k < |inputs| then k + 1 else k)
      && Preferred(k, answer)
    }

    /** What the loop must answer, and the state it must leave. */
    ghost predicate Answers(answer: Answer, after: State) {
      exists k: nat :: EndsWith(k, answer, after)
    }

    /** What `best` holds after `k` labels. */
    ghost predicate Best(k: nat, best: Option<Answer>)
      requires k <= |inputs|
    {
      match best
      case None => k == 0
      case Some(a) => k > 0 && if IsInvalid(a) then exists i: nat :: FirstInvalid(i) && a == JudgeAt(i)
                               else a == JudgeAt(0) && forall j :: 0 <= j < k ==> !IsInvalid(JudgeAt(j))
    }

    /** Each label judged makes at most one directory fetch. */
    lemma {:induction false} FetchesPerLabel(k: nat)
      requires k <= |inputs|
      ensures |StateAt(k).keys.fetches| <= |start.keys.fetches| + k
    {
      if k > 0 {
        FetchesPerLabel(k - 1);
        OneFetch(env, StateAt(k - 1), req, inputs[k - 1], sigs, clock(k - 1));
      }
    }

    /** Verifying registers and forgets no key. */
    lemma {:induction false} StaticsStay(k: nat)
      requires k <= |inputs|
      ensures StateAt(k).keys.statics == start.keys.statics
    {
      hide AfterMember;
      if k > 0 {
        StaticsStay(k - 1);
        LabelKeepsStatics(env, StateAt(k - 1), req, inputs[k - 1], sigs, clock(k - 1));
      }
    }

    /** An honest cache stays honest. */
    lemma {:induction false} StaysHonest(k: nat, now: int)
      requires k <= |inputs| && TicksForward(now, clock)
      requires Keys.Honest(env.keyLib, env.keyCfg, env.world, start.keys, now)
      ensures Keys.Honest(env.keyLib, env.keyCfg, env.world, StateAt(k).keys,
                          if k == 0 then now else clock(k - 1).keys.use)
    {
      hide Keys.Honest, AfterMember;
      if k > 0 {
        StaysHonest(k - 1, now);
        var before := if k == 1 then now else clock(k - 2).keys.use;
        assert k > 1 ==> clock(k - 2).keys.use <= clock(k - 2 + 1).keys.check;
        LabelKeepsHonest(env, StateAt(k - 1), req, inputs[k - 1], sigs, clock(k - 1), before);
      }
    }

    lemma StopIsUnique(j: nat, k: nat)
      requires StopsAt(j) && StopsAt(k)
      ensures j == k
    {
      hide JudgeAt, EndsLoop;
    }

    lemma EndsHere(k: nat)
      requires k < |inputs| && StopsAt(k)
      ensures Answers(JudgeAt(k), StateAt(k + 1))
    {
      hide JudgeAt, StateAt, StopsAt;
      assert EndsWith(k, JudgeAt(k), StateAt(k + 1));
    }

    lemma BestStep(k: nat, best: Option<Answer>, more: Option<Answer>)
      requires k < |inputs| && Best(k, best)
      requires var a := JudgeAt(k);
               more == if best.None? || (!IsInvalid(best.value) && IsInvalid(a)) then Some(a) else best
      ensures Best(k + 1, more)
    {
      hide JudgeAt, IsInvalid;
      if IsInvalid(JudgeAt(k)) && (best.None? || !IsInvalid(best.value)) {
        assert FirstInvalid(k);
      }
    }

    lemma BestIsPreferred(best: Option<Answer>)
      requires StopsAt(|inputs|) && Best(|inputs|, best)
      ensures Answers(if best.Some? then best.value else Result(Refusal(NoUsableSignature)), StateAt(|inputs|))
    {
      hide JudgeAt, IsInvalid, StateAt, EndsLoop;
      var answer := if best.Some? then best.value else Result(Refusal(NoUsableSignature));
      assert EndsWith(|inputs|, answer, StateAt(|inputs|));
    }

    /** With one label the answer is the judgement of that label. */
    lemma OneLabel(answer: Answer, after: State)
      requires |inputs| == 1
      ensures Answers(answer, after) <==> answer == JudgeAt(0) && after == StateAt(1)
    {
      hide JudgeAt, EndsLoop, IsInvalid, Answers;
      var k := if EndsLoop(JudgeAt(0)) then 0 else 1;
      OneLabelEnds(k);
      assert Answers(JudgeAt(0), StateAt(1)) by { Ends(k, JudgeAt(0), StateAt(1)); }
      if Answers(answer, after) {
        AnswerIsUnique(answer, after, JudgeAt(0), StateAt(1));
      }
    }

    lemma OneLabelEnds(k: nat)
      requires |inputs| == 1 && k == if EndsLoop(JudgeAt(0)) then 0 else 1
      ensures EndsWith(k, JudgeAt(0), StateAt(1))
    {
      hide JudgeAt, EndsLoop, IsInvalid, StateAt;
      if k == 1 && IsInvalid(JudgeAt(0)) {
        assert FirstInvalid(0);
      }
    }

    lemma Ends(k: nat, answer: Answer, after: State)
      requires EndsWith(k, answer, after)
      ensures Answers(answer, after)
    {
    }

    lemma AnswerIsUnique(a: Answer, s: State, b: Answer, t: State)
      requires Answers(a, s) && Answers(b, t)
      ensures a == b && s == t
    {
      hide JudgeAt, StateAt, StopsAt, IsInvalid;
      var j: nat :| EndsWith(j, a, s);
      var k: nat :| EndsWith(k, b, t);
      StopIsUnique(j, k);
    }
  }

  // ---------- the whole request ----------

  datatype Parsed = Refused(result: VerificationResult) | Headers(inputs: seq<Labelled>, sigs: Signatures)

  function ReadHeaders(env: Env, req: Request): Parsed {
    var input, signature := Header(req, "signature-input"), Header(req, "signature");
    var commas := var a, b := Text.Count(',', input), Text.Count(',', signature); if a < b then b else a;
    if input == "" && signature == "" then Refused(Refusal(NoSignatureHeaders).(outcome := UNSIGNED))
    else if input == "" || signature == "" then Refused(Refusal(OneHeaderOnly))
    else if commas + 1 > env.cfg.maxSignatures * 4 then Refused(Refusal(TooManySignatures))
    else
      match (env.parsers.inputs(input), env.parsers.signatures(signature))
      case (Some(inputs), Some(sigs)) =>
        if |inputs| > env.cfg.maxSignatures || |sigs| > env.cfg.maxSignatures then Refused(Refusal(TooManySignatures))
        else Headers(inputs, sigs)
      case _ => Refused(Refusal(MalformedHeaders))
  }

  /** What the two headers must be taken for: no signature when neither is sent; refused when only one is, when
      there are too many commas or labels, or when a parser fails; otherwise what the parsers found. */
  ghost predicate IsParsed(env: Env, req: Request, parsed: Parsed) {
    var sent := (exists raw :: Sends(req, "signature-input", raw), exists raw :: Sends(req, "signature", raw));
    if !sent.0 && !sent.1 then Refuses(parsed, UNSIGNED, NoSignatureHeaders)
    else if !sent.0 || !sent.1 then Refuses(parsed, INVALID, OneHeaderOnly)
    else
      var input, signature, cap := req.headers["signature-input"], req.headers["signature"], env.cfg.maxSignatures;
      if Text.Count(',', input) + 1 > 4 * cap || Text.Count(',', signature) + 1 > 4 * cap then
        Refuses(parsed, INVALID, TooManySignatures)
      else if env.parsers.inputs(input) == None || env.parsers.signatures(signature) == None then
        Refuses(parsed, INVALID, MalformedHeaders)
      else
        var inputs, sigs := env.parsers.inputs(input).value, env.parsers.signatures(signature).value;
        if |inputs| > cap || |sigs| > cap then Refuses(parsed, INVALID, TooManySignatures)
        else parsed == Headers(inputs, sigs)
  }

  predicate Refuses(parsed: Parsed, outcome: Outcome, reason: Reason) {
    parsed == Refused(VerificationResult(outcome, reason, None, None, None, None, []))
  }

  lemma HeadersAre(env: Env, req: Request, parsed: Parsed)
    ensures ReadHeaders(env, req) == parsed <==> IsParsed(env, req, parsed)
  {
    hide Text.Count;
    SendsIff(req, "signature-input");
    SendsIff(req, "signature");
    hide Sends;
  }

  lemma SendsIff(req: Request, name: string)
    ensures (exists raw :: Sends(req, name, raw)) <==> Header(req, name) != ""
  {
    if Header(req, name) != "" {
      assert Sends(req, name, Header(req, name));
    }
  }

  /** The headers that are refused without being parsed. */
  predicate RefusedUnparsed(cfg: Config, input: string, signature: string) {
    || input == "" || signature == ""
    || Text.Count(',', input) + 1 > cfg.maxSignatures * 4 || Text.Count(',', signature) + 1 > cfg.maxSignatures * 4
  }

  /** Exactly when the parsers are not asked: what becomes of a request is the same for all parsers if and
      only if a header is empty or has more commas than four times the cap allows. */
  lemma ParsersIgnoredIffRefusedUnparsed(env: Env, req: Request)
    ensures (forall p: Parsers :: ReadHeaders(env.(parsers := p), req) == ReadHeaders(env, req))
       <==> RefusedUnparsed(env.cfg, Header(req, "signature-input"), Header(req, "signature"))
  {
    hide Text.Count;
    var input, signature := Header(req, "signature-input"), Header(req, "signature");
    if !RefusedUnparsed(env.cfg, input, signature) {
      var none := env.parsers.(inputs := s => None);
      var empty := env.parsers.(inputs := s => Some([]), signatures := s => Some(map[]));
      assert env.cfg.maxSignatures >= 1;
      assert ReadHeaders(env.(parsers := none), req) == Refused(Refusal(MalformedHeaders));
      assert ReadHeaders(env.(parsers := empty), req) == Headers([], map[]);
    }
  }

  /** The members of a header: one or more texts without commas. */
  ghost predicate AreMembers(header: string, members: seq<string>) {
    header == Text.Join(',', members) && header != "" && members != [] && forall m :: m in members ==> Text.Free(',', m)
  }

  /** So the cap itself is applied after parsing: more labels than the cap, up to four times as many, reach
      the parsers, and are refused for their number only if they parse. */
  lemma LabelsOverTheCapAreParsed(env: Env, req: Request, labels: seq<string>, signatures: seq<string>)
    requires AreMembers(Header(req, "signature-input"), labels) && AreMembers(Header(req, "signature"), signatures)
    requires env.cfg.maxSignatures < |labels| <= 4 * env.cfg.maxSignatures
    requires |signatures| <= 4 * env.cfg.maxSignatures
    ensures match (env.parsers.inputs(Header(req, "signature-input")), env.parsers.signatures(Header(req, "signature")))
            case (Some(inputs), Some(_)) =>
              |inputs| == |labels| ==> ReadHeaders(env, req) == Refused(Refusal(TooManySignatures))
            case _ => ReadHeaders(env, req) == Refused(Refusal(MalformedHeaders))
  {
    Text.CountJoin(',', labels);
    Text.CountJoin(',', signatures);
    hide Text.Count, Text.Join;
  }

  ghost predicate IsAnswer(env: Env, st: State, req: Request, clock: Clock, answer: Answer, after: State) {
    match ReadHeaders(env, req)
    case Refused(result) => answer == Result(result) && after == st
    case Headers(inputs, sigs) => Job(env, st, req, inputs, sigs, clock).Answers(answer, after)
  }

  /** One request makes at most `max_signatures` directory fetches; refused early it makes none, and changes
      nothing. */
  lemma FetchesPerRequest(env: Env, st: State, req: Request, clock: Clock, answer: Answer, after: State)
    requires IsAnswer(env, st, req, clock, answer, after)
    ensures ReadHeaders(env, req).Refused? ==> after == st
    ensures ReadHeaders(env, req).Headers? ==> |after.keys.fetches| <= |st.keys.fetches| + env.cfg.maxSignatures
  {
    match ReadHeaders(env, req)
    case Refused(_) =>
    case Headers(inputs, sigs) =>
      assert |inputs| <= env.cfg.maxSignatures;
      hide ReadHeaders, JudgeMember, AfterMember;
      var job := Job(env, st, req, inputs, sigs, clock);
      var k: nat :| job.EndsWith(k, answer, after);
      job.FetchesPerLabel(if k < |inputs| then k + 1 else k);
  }

  /** An answer is that of some label, or says that there was none to answer for. */
  lemma AnswerIsOfLabel(env: Env, st: State, req: Request, clock: Clock, answer: Answer, after: State)
    requires IsAnswer(env, st, req, clock, answer, after)
    ensures match ReadHeaders(env, req)
            case Refused(result) => answer == Result(result)
            case Headers(inputs, sigs) =>
              || answer == Result(Refusal(NoUsableSignature))
              || exists k: nat :: k < |inputs| && answer == Job(env, st, req, inputs, sigs, clock).JudgeAt(k)
  {
    hide ReadHeaders, JudgeMember, AfterMember;
    match ReadHeaders(env, req)
    case Refused(_) =>
    case Headers(inputs, sigs) =>
      var job := Job(env, st, req, inputs, sigs, clock);
      var k: nat :| job.EndsWith(k, answer, after);
  }

  /** UNSIGNED is answered exactly when neither header is sent; and every operator that is answered is the source
      of a registered key or a URL that an agent in a header leads to. */
  lemma AnswerMeans(env: Env, st: State, req: Request, clock: Clock, answer: Answer, after: State)
    requires IsAnswer(env, st, req, clock, answer, after) && answer.Result?
    ensures answer.result.outcome == UNSIGNED
       <==> !(exists raw :: Sends(req, "signature-input", raw)) && !(exists raw :: Sends(req, "signature", raw))
    ensures answer.result.operator.Some? ==> IsSource(env, st.keys.statics, answer.result.operator.value)
    ensures answer.result.outcome == VERIFIED ==> answer.result.operator.Some?
  {
    AnswerIsOfLabel(env, st, req, clock, answer, after);
    HeadersAre(env, req, ReadHeaders(env, req));
    hide ReadHeaders, IsAnswer, Sends, IsSource, Text.Count;
    if ReadHeaders(env, req).Headers? {
      var inputs, sigs := ReadHeaders(env, req).inputs, ReadHeaders(env, req).sigs;
      var job := Job(env, st, req, inputs, sigs, clock);
      hide Judge, IsParsed, job.StateAt;
      if k: nat :| k < |inputs| && answer == job.JudgeAt(k) {
        job.StaticsStay(k);
        UnverifiedIffUndecided(env, job.StateAt(k), req, inputs[k].lab, inputs[k].inner, sigs, clock(k));
        OperatorIsSource(env, job.StateAt(k), req, inputs[k].lab, inputs[k].inner, sigs, clock(k));
      }
    }
  }

  /** Label `k` is VERIFIED, by this key. */
  ghost predicate VerifiedBy(job: Job, k: nat, after: State, key: Keys.ResolvedKey) {
    && k < |job.inputs| && job.inputs[k].Labelled?
    && Proves(job.env, job.StateAt(k), job.req, job.inputs[k].lab, job.inputs[k].inner, job.sigs, job.clock(k), key)
    && Attested(job.env, job.start, after, job.inputs[k].inner, job.clock(k), key)
  }

  /** What a VERIFIED answer of `verify` says: one of the labels was signed over the base of the request by a key
      that was registered or published under the label's key id, and the operator is the source of that key. */
  lemma VerifiedAnswer(env: Env, st: State, req: Request, clock: Clock, answer: Answer, after: State, now: int)
    requires IsAnswer(env, st, req, clock, answer, after) && IsVerified(answer)
    requires Keys.Honest(env.keyLib, env.keyCfg, env.world, st.keys, now) && TicksForward(now, clock)
    ensures ReadHeaders(env, req).Headers?
    ensures var job := Job(env, st, req, ReadHeaders(env, req).inputs, ReadHeaders(env, req).sigs, clock);
            exists k: nat, key :: VerifiedBy(job, k, after, key) && answer.result.operator == Some(key.source)
  {
    HeadersAre(env, req, ReadHeaders(env, req));
    hide ReadHeaders, Keys.Honest, Judge, After, Proves, Text.Count;
    var inputs, sigs := ReadHeaders(env, req).inputs, ReadHeaders(env, req).sigs;
    var job := Job(env, st, req, inputs, sigs, clock);
    var k := LabelOf(job, answer, after);
    hide IsAnswer;
    job.StaticsStay(k);
    job.StaysHonest(k, now);
    var before := if k == 0 then now else clock(k - 1).keys.use;
    assert k > 0 ==> clock(k - 1).keys.use <= clock(k - 1 + 1).keys.check;
    var lab, l := inputs[k].lab, inputs[k].inner;
    VerifiedOperator(env, job.StateAt(k), req, lab, l, sigs, clock(k), before);
    var at := job.StateAt(k);
    var key :| && Proves(env, at, req, lab, l, sigs, clock(k), key)
               && Attested(env, at, After(env, at, req, lab, l, sigs, clock(k)), l, clock(k), key)
               && Judge(env, at, req, lab, l, sigs, clock(k)).result.operator == Some(key.source);
    SameStatics(env, at, st, after, l, clock(k), key);
    assert VerifiedBy(job, k, after, key);
  }

  lemma SameStatics(env: Env, s: State, st: State, after: State, l: InnerList, tick: Tick, key: Keys.ResolvedKey)
    requires Attested(env, s, after, l, tick, key) && s.keys.statics == st.keys.statics
    ensures Attested(env, st, after, l, tick, key)
  {
    hide Keys.Vouches, Lookup;
  }

  /** The label a VERIFIED answer is about. */
  lemma LabelOf(job: Job, answer: Answer, after: State) returns (k: nat)
    requires job.Answers(answer, after) && IsVerified(answer)
    ensures k < |job.inputs| && job.inputs[k].Labelled? && after == job.StateAt(k + 1)
    ensures answer == Judge(job.env, job.StateAt(k), job.req, job.inputs[k].lab, job.inputs[k].inner, job.sigs,
                            job.clock(k))
  {
    hide Judge, After;
    k :| job.EndsWith(k, answer, after);
    if k == |job.inputs| {
      LoopVerifiesNothing(job, answer);
    }
  }

  /** Without a label that ends the loop nothing is VERIFIED. */
  lemma LoopVerifiesNothing(job: Job, answer: Answer)
    requires job.StopsAt(|job.inputs|) && job.Preferred(|job.inputs|, answer)
    ensures !IsVerified(answer)
  {
    hide JudgeMember, AfterMember;
  }

  lemma AnswerKeepsStatics(env: Env, st: State, req: Request, clock: Clock, answer: Answer, after: State)
    requires IsAnswer(env, st, req, clock, answer, after)
    ensures after.keys.statics == st.keys.statics
  {
    hide ReadHeaders, JudgeMember, AfterMember;
    match ReadHeaders(env, req)
    case Refused(_) =>
    case Headers(inputs, sigs) =>
      var job := Job(env, st, req, inputs, sigs, clock);
      var k: nat :| job.EndsWith(k, answer, after);
      job.StaticsStay(if k < |inputs| then k + 1 else k);
  }

  /** The specification determines the answer and the state. */
  lemma AnswerIsUnique(env: Env, st: State, req: Request, clock: Clock, a: Answer, s: State, b: Answer, t: State)
    requires IsAnswer(env, st, req, clock, a, s) && IsAnswer(env, st, req, clock, b, t)
    ensures a == b && s == t
  {
    hide ReadHeaders;
    match ReadHeaders(env, req)
    case Refused(_) =>
    case Headers(inputs, sigs) =>
      Job(env, st, req, inputs, sigs, clock).AnswerIsUnique(a, s, b, t);
  }

  /** A request with one label is answered by the judgement of that label. */
  lemma OneLabelAnswer(env: Env, st: State, req: Request, m: Labelled, sigs: Signatures, clock: Clock,
                       answer: Answer, after: State)
    requires ReadHeaders(env, req) == Headers([m], sigs) && IsAnswer(env, st, req, clock, answer, after)
    ensures answer == JudgeMember(env, st, req, m, sigs, clock(0))
    ensures after == AfterMember(env, st, req, m, sigs, clock(0))
  {
    hide ReadHeaders, JudgeMember, AfterMember;
    var job := Job(env, st, req, [m], sigs, clock);
    job.OneLabel(answer, after);
    assert job.StateAt(0) == st;
  }

  /** Judging the member raises: it is an item, or it passes the gates and either the key lookup or, the key
      being found, checking the signature raises. */
  predicate MemberRaises(env: Env, st: State, req: Request, m: Labelled, sigs: Signatures, tick: Tick) {
    match m
    case Flat(_) => true
    case Labelled(lab, l) =>
      && Gates(env, req, l, tick.now).Pass?
      && (|| Resolution(env, st, req, l, tick).Raised?
          || (Resolution(env, st, req, l, tick).Resolved? && CheckRaises(env, req, lab, l, sigs)))
  }

  lemma MemberEscapesIff(env: Env, st: State, req: Request, m: Labelled, sigs: Signatures, tick: Tick)
    ensures JudgeMember(env, st, req, m, sigs, tick) == Escaped <==> MemberRaises(env, st, req, m, sigs, tick)
  {
    hide Gates, Resolution, Judge, SignatureBaseOf;
    if m.Labelled? {
      UnverifiedIffUndecided(env, st, req, m.lab, m.inner, sigs, tick);
    }
  }

  /** Label `k` of the job raises, and no label before it was VERIFIED or raised. */
  ghost predicate RaisesAtLabel(job: Job, k: nat) {
    && job.StopsAt(k) && k < |job.inputs|
    && MemberRaises(job.env, job.StateAt(k), job.req, job.inputs[k], job.sigs, job.clock(k))
  }

  /** Exactly when a request gets no answer: it is not refused early, and some label raises before one is
      VERIFIED. */
  lemma EscapesIff(env: Env, st: State, req: Request, clock: Clock, answer: Answer, after: State)
    requires IsAnswer(env, st, req, clock, answer, after)
    ensures answer == Escaped <==>
              match ReadHeaders(env, req)
              case Refused(_) => false
              case Headers(inputs, sigs) => exists k: nat :: RaisesAtLabel(Job(env, st, req, inputs, sigs, clock), k)
  {
    hide ReadHeaders, MemberRaises, JudgeMember, AfterMember;
    match ReadHeaders(env, req)
    case Refused(_) =>
    case Headers(inputs, sigs) =>
      var job := Job(env, st, req, inputs, sigs, clock);
      var k: nat :| job.EndsWith(k, answer, after);
      if k < |inputs| {
        MemberEscapesIff(env, job.StateAt(k), req, inputs[k], sigs, clock(k));
        assert answer == Escaped ==> RaisesAtLabel(job, k);
      }
      if j: nat :| RaisesAtLabel(job, j) {
        job.StopIsUnique(j, k);
      }
  }

  /** Inputs that show it, each a request with one label that passes the gates. Its agent is text that
      `urlsplit` rejects, such as `https://[x`, and its key is not registered. No valid signature is needed. */
  lemma MalformedAgentEscapes(env: Env, st: State, req: Request, lab: string, l: InnerList,
                              sigs: Signatures, clock: Clock, agentUrl: string, kind: string,
                              answer: Answer, after: State)
    requires ReadHeaders(env, req) == Headers([Labelled(lab, l)], sigs)
    requires Gates(env, req, l, clock(0).now) == Pass(Some(Str(agentUrl)), kind)
    requires agentUrl != "" && env.keyLib.split(agentUrl) == None
    requires Keys.Discovers(env.keyCfg, st.keys, TextParam(l.params, "keyid"))
    requires IsAnswer(env, st, req, clock, answer, after)
    ensures answer == Escaped
  {
    hide ReadHeaders, Gates, Keys.Resolve, TextParam, Keys.Discovers, IsAnswer;
    Keys.MalformedAgentRaises(env.keyLib, env.keyCfg, env.world, st.keys, TextParam(l.params, "keyid"), agentUrl, kind,
                              clock(0).keys);
    OneLabelAnswer(env, st, req, Labelled(lab, l), sigs, clock, answer, after);
    MemberEscapesIff(env, st, req, Labelled(lab, l), sigs, clock(0));
  }

  /** Its key is one a directory lists as X25519. */
  lemma X25519KeyEscapes(env: Env, st: State, req: Request, lab: string, l: InnerList, sigs: Signatures,
                         clock: Clock, agentUrl: string, kind: string, x: string, cacheControl: string,
                         answer: Answer, after: State)
    requires ReadHeaders(env, req) == Headers([Labelled(lab, l)], sigs)
    requires Gates(env, req, l, clock(0).now) == Pass(Some(Str(agentUrl)), kind) && agentUrl != ""
    requires Keys.FetchUrl(env.keyLib, env.keyCfg, agentUrl, kind).Url? && env.keyCfg.maxKeys >= 1
    requires var url, t := Keys.FetchUrl(env.keyLib, env.keyCfg, agentUrl, kind).url, clock(0).keys;
             !Keys.Cached(st.keys, url, t.check)
             && env.world(url, t.fetched) == Keys.Directory([Keys.X25519(x)], cacheControl)
    requires var kid := Keys.Thumbprint(env.keyLib, Keys.X25519(x)).value;
             TextParam(l.params, "keyid") == kid != Keys.TEST_KEYID && kid !in st.keys.statics
    requires IsAnswer(env, st, req, clock, answer, after)
    ensures answer == Escaped
  {
    hide ReadHeaders, Gates, Keys.FetchUrl, Keys.Resolve, Keys.Thumbprint, TextParam, Keys.X25519, IsAnswer;
    Keys.X25519KeyRaises(env.keyLib, env.keyCfg, env.world, st.keys, agentUrl, kind, clock(0).keys, x, cacheControl);
    OneLabelAnswer(env, st, req, Labelled(lab, l), sigs, clock, answer, after);
    MemberEscapesIff(env, st, req, Labelled(lab, l), sigs, clock(0));
  }

  /** Its key is one a directory lists with an integer for `nbf` that is too large for a float. */
  lemma HugeDateEscapes(env: Env, st: State, req: Request, lab: string, l: InnerList, sigs: Signatures,
                        clock: Clock, agentUrl: string, kind: string, jwk: Keys.Jwk, cacheControl: string,
                        answer: Answer, after: State)
    requires ReadHeaders(env, req) == Headers([Labelled(lab, l)], sigs)
    requires Gates(env, req, l, clock(0).now) == Pass(Some(Str(agentUrl)), kind) && agentUrl != ""
    requires Keys.FetchUrl(env.keyLib, env.keyCfg, agentUrl, kind).Url? && env.keyCfg.maxKeys >= 1
    requires var url, t := Keys.FetchUrl(env.keyLib, env.keyCfg, agentUrl, kind).url, clock(0).keys;
             !Keys.Cached(st.keys, url, t.check) && env.world(url, t.fetched) == Keys.Directory([jwk], cacheControl)
    requires Keys.HasHugeNbf(jwk) && Keys.Thumbprint(env.keyLib, jwk) == Some(TextParam(l.params, "keyid"))
    requires Keys.Discovers(env.keyCfg, st.keys, TextParam(l.params, "keyid"))
    requires IsAnswer(env, st, req, clock, answer, after)
    ensures answer == Escaped
  {
    hide ReadHeaders, Gates, Keys.FetchUrl, Keys.Resolve, Keys.Thumbprint, TextParam, Keys.HasHugeNbf, IsAnswer;
    hide Keys.Discovers;
    Keys.HugeDateRaises(env.keyLib, env.keyCfg, env.world, st.keys, agentUrl, kind, clock(0).keys, jwk, cacheControl,
                        TextParam(l.params, "keyid"));
    OneLabelAnswer(env, st, req, Labelled(lab, l), sigs, clock, answer, after);
    MemberEscapesIff(env, st, req, Labelled(lab, l), sigs, clock(0));
  }

  /** Its member of Signature is an inner list, such as `sig1=()`, and its key is found. No valid signature is
      needed. */
  lemma InnerListSignatureEscapes(env: Env, st: State, req: Request, lab: string, l: InnerList, sigs: Signatures,
                                  clock: Clock, answer: Answer, after: State)
    requires ReadHeaders(env, req) == Headers([Labelled(lab, l)], sigs) && ListForSignature(lab, sigs)
    requires Gates(env, req, l, clock(0).now).Pass? && Resolution(env, st, req, l, clock(0)).Resolved?
    requires IsAnswer(env, st, req, clock, answer, after)
    ensures answer == Escaped
  {
    hide ReadHeaders, Gates, Resolution, IsAnswer, SignatureBaseOf;
    OneLabelAnswer(env, st, req, Labelled(lab, l), sigs, clock, answer, after);
    MemberEscapesIff(env, st, req, Labelled(lab, l), sigs, clock(0));
  }

  /** It covers `@path` first, the request's own URL is one `urlsplit` rejects, and its key is found. */
  lemma MalformedRequestUrlEscapes(env: Env, st: State, req: Request, lab: string, l: InnerList,
                                   sigs: Signatures, clock: Clock, answer: Answer, after: State)
    requires ReadHeaders(env, req) == Headers([Labelled(lab, l)], sigs)
    requires Gates(env, req, l, clock(0).now).Pass? && Resolution(env, st, req, l, clock(0)).Resolved?
    requires BaseIsBuilt(lab, sigs) && l.items != [] && l.items[0].value == Str("@path")
    requires env.lib.split(req.url) == None
    requires IsAnswer(env, st, req, clock, answer, after)
    ensures answer == Escaped
  {
    hide ReadHeaders, Gates, Resolution, IsAnswer, SignatureBaseOf, ComponentValue;
    RaisesIffRaisesAt(env.lib, req, l.items[0]);
    assert FailsAt(env.lib, req, l.items, 0);
    BaseRaisesIff(env.lib, req, l);
    OneLabelAnswer(env, st, req, Labelled(lab, l), sigs, clock, answer, after);
    MemberEscapesIff(env, st, req, Labelled(lab, l), sigs, clock(0));
  }

  // ---------- the verifier ----------

  class Verifier {
    const env: Env
    const resolver: Keys.KeyResolver
    const nonces: Store

    ghost predicate Ready()
      reads nonces, nonces.heap, nonces.heap.a
    {
      nonces.Valid() && resolver.lib == env.keyLib && resolver.cfg == env.keyCfg
    }

    ghost function Now(): State
      reads resolver, nonces
    {
      State(resolver.Now(), nonces.seen)
    }

    constructor (env: Env, resolver: Keys.KeyResolver)
      requires resolver.lib == env.keyLib && resolver.cfg == env.keyCfg
      ensures this.env == env && this.resolver == resolver
      ensures Ready() && fresh(nonces.Repr())
      ensures nonces.seen == map[]
    {
      this.env, this.resolver := env, resolver;
      nonces := new Store();
    }

    /** The loop over parameter types at lines 128 to 131. */
    method FirstWrongType(params: seq<Param>) returns (bad: Option<string>)
      ensures bad == WrongTyped(params)
    {
      hide HasType;
      var i := 0;
      while i < |TYPED_PARAMS|
        invariant i <= |TYPED_PARAMS| && WrongTyped(params, i) == WrongTyped(params)
      {
        var (name, isInt) := TYPED_PARAMS[i];
        if !HasType(params, name, isInt) {
          return Some(name);
        }
        i := i + 1;
      }
      return None;
    }

    method VerifyLabel(req: Request, lab: string, l: InnerList, sigs: Signatures,
                       tick: Tick) returns (answer: Answer)
      requires Ready()
      modifies resolver`cache, resolver`fetches, nonces.Repr()
      ensures Ready() && fresh(nonces.Repr() - old(nonces.Repr()))
      ensures answer == Judge(env, old(Now()), req, lab, l, sigs, tick)
      ensures Now() == After(env, old(Now()), req, lab, l, sigs, tick)
      ensures IsJudged(env, old(Now()), req, lab, l, sigs, tick, answer)
    {
      JudgeIs(env, Now(), req, lab, l, sigs, tick, Judge(env, Now(), req, lab, l, sigs, tick));
      hide IsJudged, Lookup, SignatureBaseOf, Staleness, AgentOf, WrongTyped, Fresh, AfterCall;
      hide Keys.Resolve, Keys.AfterResolve;
      var p := l.params;
      var base := Blank(lab, l);
      var bad := FirstWrongType(p);
      if bad.Some? {
        base := Fail(base, INVALID, WrongType(bad.value));
        return Result(base);
      }
      if !TagAccepted(env.cfg, p) {
        base := Fail(base, UNVERIFIED, TagNotAccepted);
        return Result(base);
      }
      var missing := MissingParam(p);
      if missing.Some? {
        base := Fail(base, INVALID, Missing(missing.value));
        return Result(base);
      }
      if AlgOf(p) != "ed25519" {
        base := Fail(base, if "hmac" <= AlgOf(p) then INVALID else UNVERIFIED, AlgNotAccepted);
        return Result(base);
      }
      if !Covers(l, "@authority") && !Covers(l, "@target-uri") {
        base := Fail(base, INVALID, AuthorityNotCovered);
        return Result(base);
      }
      var expires := IntParam(p, "expires");
      var stale := Staleness(env.cfg, IntParam(p, "created"), expires, tick.now);
      if stale.Some? {
        base := Fail(base, INVALID, stale.value);
        return Result(base);
      }
      var nonce := TextParam(p, "nonce");
      if env.cfg.requireNonce && nonce == "" {
        base := Fail(base, INVALID, NonceRequired);
        return Result(base);
      }
      var agent := AgentOf(env.parsers, req, l);
      if agent.NotSigned? {
        base := Fail(base, INVALID, AgentNotSigned);
        return Result(base);
      }
      if agent.Malformed? {
        base := Fail(base, INVALID, AgentMalformed);
        return Result(base);
      }
      assert Gates(env, req, l, tick.now) == Pass(agent.url, agent.kind);
      answer := FinishLabel(req, lab, l, sigs, tick, base, agent.url, agent.kind);
    }

    /** From the key lookup on. */
    method FinishLabel(req: Request, lab: string, l: InnerList, sigs: Signatures, tick: Tick,
                       blank: VerificationResult, agentUrl: Keys.AgentUrl, kind: string) returns (answer: Answer)
      requires Ready() && blank == Blank(lab, l) && Gates(env, req, l, tick.now) == Pass(agentUrl, kind)
      modifies resolver`cache, resolver`fetches, nonces.Repr()
      ensures Ready() && fresh(nonces.Repr() - old(nonces.Repr()))
      ensures answer == Judge(env, old(Now()), req, lab, l, sigs, tick)
      ensures Now() == After(env, old(Now()), req, lab, l, sigs, tick)
    {
      hide Gates, Lookup, SignatureBaseOf, Keys.Resolve, Keys.AfterResolve, Keys.LooksUp, IsStatus, Fresh, AfterCall;
      var base := blank;
      var resolution := resolver.Lookup(env.world, TextParam(l.params, "keyid"), agentUrl, kind, tick.keys);
      if resolution.TestKeyRejected? {
        return Result(Fail(base, INVALID, TestKey));
      }
      if resolution.KeyNotFound? {
        return Result(Fail(base, UNVERIFIED, KeyUnavailable(resolution.why)));
      }
      if resolution.Raised? {
        return Escaped;
      }
      base := base.(operator := Some(resolution.key.source));
      var status := CheckSignature(req, lab, l, sigs, resolution.key.key);
      if status.Raising? {
        return Escaped;
      }
      if status.Faulty? {
        return Result(Fail(base, INVALID, status.reason));
      }
      var nonce := TextParam(l.params, "nonce");
      if nonce != "" {
        var ok := nonces.CheckAndAdd(nonce, IntParam(l.params, "expires"), tick.now);
        if !ok {
          return Result(Fail(base, INVALID, NonceReplayed));
        }
      }
      return Result(Fail(base, VERIFIED, Good));
    }

    method CheckSignature(req: Request, lab: string, l: InnerList, sigs: Signatures, key: Keys.PublicKey)
      returns (status: Status)
      ensures status == SignatureStatus(env, req, lab, l, sigs, key)
      ensures IsStatus(env, req, lab, l, sigs, key, status)
    {
      StatusIs(env, req, lab, l, sigs, key, SignatureStatus(env, req, lab, l, sigs, key));
      hide IsStatus;
      if lab !in sigs {
        return Faulty(NoSignatureValue);
      }
      var signature := sigs[lab];
      if signature.None? {
        return Raising;
      }
      if !signature.value.Bytes? {
        return Faulty(SignatureNotBytes);
      }
      var base := BuildSignatureBase(env.lib, req, l);
      if base.Raised? {
        return Raising;
      }
      if base.Failed? {
        return Faulty(BaseFailed(base.error));
      }
      if !env.parsers.verifies(key, signature.value.b, base.Bytes()) {
        return Faulty(SignatureMismatch);
      }
      return Correct;
    }

    method VerifyMember(req: Request, m: Labelled, sigs: Signatures, tick: Tick) returns (answer: Answer)
      requires Ready()
      modifies resolver`cache, resolver`fetches, nonces.Repr()
      ensures Ready() && fresh(nonces.Repr() - old(nonces.Repr()))
      ensures answer == JudgeMember(env, old(Now()), req, m, sigs, tick)
      ensures Now() == AfterMember(env, old(Now()), req, m, sigs, tick)
    {
      hide Judge, After, HeapQueue.IsHeap, Mirrors;
      match m
      case Flat(_) =>
        return Escaped;
      case Labelled(lab, inner) =>
        answer := VerifyLabel(req, lab, inner, sigs, tick);
    }

    /** The loop over labels. `lookups` counts the labels that were judged, each of which consults the
        resolver at most once. */
    method JudgeLabels(req: Request, inputs: seq<Labelled>, sigs: Signatures, clock: Clock)
      returns (answer: Answer, ghost lookups: nat)
      requires Ready()
      modifies resolver`cache, resolver`fetches, nonces.Repr()
      ensures Ready() && fresh(nonces.Repr() - old(nonces.Repr()))
      ensures Job(env, old(Now()), req, inputs, sigs, clock).Answers(answer, Now())
      ensures lookups <= |inputs|
    {
      hide JudgeMember, AfterMember, EndsLoop, IsInvalid, HeapQueue.IsHeap, Mirrors, Job.Answers;
      ghost var job := Job(env, Now(), req, inputs, sigs, clock);
      var best: Option<Answer> := None;
      var k := 0;
      lookups := 0;
      while k < |inputs|
        invariant k <= |inputs| && lookups == k
        invariant Ready() && fresh(nonces.Repr() - old(nonces.Repr()))
        invariant Now() == job.StateAt(k)
        invariant forall j :: 0 <= j < k ==> !EndsLoop(job.JudgeAt(j))
        invariant job.Best(k, best)
      {
        var result := VerifyMember(req, inputs[k], sigs, clock(k));
        lookups := lookups + 1;
        assert result == job.JudgeAt(k) && Now() == job.StateAt(k + 1);
        if EndsLoop(result) {
          job.EndsHere(k);
          return result, lookups;
        }
        ghost var before := best;
        if best.None? || (!IsInvalid(best.value) && IsInvalid(result)) {
          best := Some(result);
        }
        job.BestStep(k, before, best);
        k := k + 1;
      }
      job.BestIsPreferred(best);
      return if best.Some? then best.value else Result(Refusal(NoUsableSignature)), lookups;
    }

    /** `verify`. */
    method Verify(req: Request, clock: Clock) returns (answer: Answer, ghost lookups: nat)
      requires Ready()
      modifies resolver`cache, resolver`fetches, nonces.Repr()
      ensures Ready() && fresh(nonces.Repr() - old(nonces.Repr()))
      ensures IsAnswer(env, old(Now()), req, clock, answer, Now())
      ensures lookups == 0 || lookups <= env.cfg.maxSignatures
    {
      hide HeapQueue.IsHeap, Mirrors;
      var parsed := ReadHeaders(env, req);
      match parsed
      case Refused(result) =>
        return Result(result), 0;
      case Headers(inputs, sigs) =>
        assert |inputs| <= env.cfg.maxSignatures;
        hide ReadHeaders;
        answer, lookups := JudgeLabels(req, inputs, sigs, clock);
    }
  }
}
