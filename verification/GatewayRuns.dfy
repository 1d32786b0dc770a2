/** Whole runs of the gateway: the log it leaves, the decisions it makes, and what it accepts. */
module GatewayRuns {
  import opened Wrappers
  import opened Outcomes
  import opened Gateway
  import Audit
  import Keys
  import Policy
  import Replay
  import StructuredFields
  import Text
  import Verifier

  /** The requests, their replies and results, and the states between them. */
  datatype Trace = Trace(ins: seq<Incoming>, replies: seq<Reply>, results: seq<VerificationResult>, states: seq<State>)

  ghost predicate Run(g: Setup, t: Trace) {
    && |t.replies| == |t.results| == |t.ins| && |t.states| == |t.ins| + 1
    && forall k :: 0 <= k < |t.ins| ==> StepAt(g, t, k)
  }

  ghost predicate StepAt(g: Setup, t: Trace, k: nat)
    requires k < |t.ins| == |t.replies| == |t.results| && |t.states| == |t.ins| + 1
  {
    Step(g, t.states[k], t.ins[k], t.replies[k], t.results[k], t.states[k + 1])
  }

  // ---------- the log ----------

  /** What a request adds to the log. */
  function Logged(g: Setup, i: Incoming, reply: Reply, res: VerificationResult): seq<Audit.Entry> {
    if reply.Handled? && EntryOf(g.lib, g.logOnly, i.h, res, reply.decision).Some?
    then [StampedEntry(g.lib, g.logOnly, i.h, res, reply.decision, i.appendAt)] else []
  }

  /** The entries of the first `k` requests. */
  ghost function Entries(g: Setup, t: Trace, k: nat): seq<Audit.Entry>
    requires k <= |t.ins| == |t.replies| == |t.results|
  {
    if k == 0 then [] else Entries(g, t, k - 1) + Logged(g, t.ins[k - 1], t.replies[k - 1], t.results[k - 1])
  }

  /** The log is the one it began with and the entries appended one after another. */
  lemma {:induction false} LogOfRun(g: Setup, t: Trace, k: nat)
    requires Run(g, t) && k <= |t.ins|
    ensures t.states[k].table
         == Audit.AppendAll(g.hashing, t.states[0].table, t.states[0].nextId, Entries(g, t, k))
    ensures t.states[k].nextId == t.states[0].nextId + |Entries(g, t, k)|
  {
    hide Audit.AppendAll, Audit.NewRow, Policy.Decide, Policy.AfterDecide, Verifier.IsAnswer, EntryOf;
    if k == 0 {
      NothingAppended(g.hashing, t.states[0].table, t.states[0].nextId);
    } else {
      LogOfRun(g, t, k - 1);
      assert StepAt(g, t, k - 1);
      var more := Logged(g, t.ins[k - 1], t.replies[k - 1], t.results[k - 1]);
      var before := Entries(g, t, k - 1);
      if more != [] {
        Audit.AppendAllLast(g.hashing, t.states[0].table, t.states[0].nextId, before, more[0]);
      } else {
        assert before + more == before;
      }
    }
  }

  lemma NothingAppended(h: Audit.Hashing, rows: seq<Audit.Row>, id: int)
    ensures Audit.AppendAll(h, rows, id, []) == rows
  {
  }

  /** A run from an intact log breaks it exactly at the row of the first request whose entry is not storable,
      unless the two payloads of that entry collide; so the log stays intact if and only if all are. */
  lemma RunBreaksAtFirstUnstorable(g: Setup, t: Trace, k: nat)
    requires Run(g, t) && Audit.Sound(g.hashing) && Audit.Chain(g.hashing, t.states[0].table)
    requires var entries := Entries(g, t, |t.ins|);
             && Audit.FirstUnstorable(entries, k)
             && (k < |entries| ==>
                   var rows := Audit.AppendAll(g.hashing, t.states[0].table, t.states[0].nextId, entries[..k]);
                   Audit.CollisionFree(g.hashing, Audit.AppendInputs(g.hashing, rows, entries[k])))
    ensures var last := t.states[|t.ins|].table;
            && Audit.BreaksAt(g.hashing, last, |t.states[0].table| + k)
            && (Audit.Chain(g.hashing, last) <==> k == |Entries(g, t, |t.ins|)|)
  {
    hide Audit.AppendAll, Audit.Chain, Audit.BreaksAt, Audit.Sound, Audit.CollisionFree, Audit.AppendInputs;
    hide Audit.FirstUnstorable, StepAt, Entries;
    LogOfRun(g, t, |t.ins|);
    Audit.AppendAllBreaksAtFirst(g.hashing, t.states[0].table, t.states[0].nextId, Entries(g, t, |t.ins|), k);
  }

  /** An entry is storable exactly when its request's key id and tag are logged as text or nothing. */
  lemma LoggedStorableIff(g: Setup, i: Incoming, reply: Reply, res: VerificationResult)
    requires Logged(g, i, reply, res) != []
    ensures Audit.Storable(Logged(g, i, reply, res)[0]) <==> ParamsStorable(g.lib, res)
  {
    hide OutcomeValue, ActionName;
  }

  // ---------- the decisions ----------

  /** What a request asks of the policy, if it gets that far. */
  function Asked(i: Incoming, reply: Reply, res: VerificationResult): seq<Policy.Call> {
    if reply.AdminPage? || reply.RaisedEarly? then [] else [CallOf(i.h, res, i.decideAt)]
  }

  ghost function Calls(t: Trace, k: nat): seq<Policy.Call>
    requires k <= |t.ins| == |t.replies| == |t.results|
  {
    if k == 0 then [] else Calls(t, k - 1) + Asked(t.ins[k - 1], t.replies[k - 1], t.results[k - 1])
  }

  /** The deques are those of the policy engine run on the requests that reached it, so every result about such
      runs holds of the gateway. */
  lemma {:induction false} HitsOfRun(g: Setup, t: Trace, k: nat)
    requires Run(g, t) && k <= |t.ins| && t.states[0].hits == map[]
    ensures t.states[k].hits == Policy.HitsAfter(g.policyLib, g.rules, Calls(t, k))
  {
    hide Policy.Decide, Policy.AfterDecide, Verifier.IsAnswer, EntryOf, Audit.NewRow;
    if k > 0 {
      HitsOfRun(g, t, k - 1);
      assert StepAt(g, t, k - 1);
      var before, more := Calls(t, k - 1), Asked(t.ins[k - 1], t.replies[k - 1], t.results[k - 1]);
      if more != [] {
        assert (before + more)[..|before + more| - 1] == before && (before + more)[|before + more| - 1] == more[0];
      } else {
        assert before + more == before;
      }
    }
  }

  // ---------- what the policy is asked about ----------

  /** How `urlsplit` reads an absolute web URL at a host: a scheme, a colon, two slashes, and an authority that
      names a host and ends where the path, query or fragment begins. */
  ghost predicate IsSplit(text: string, p: Keys.UrlParts) {
    && Policy.NamesHost(p.netloc) && Policy.Netloc(p.netloc) == p.netloc
    && exists scheme, rest :: && Policy.IsScheme(scheme) && text == scheme + "://" + p.netloc + rest
                              && Policy.Netloc(rest) == ""
  }

  /** `urlsplit` reads printable texts so, and `urlunsplit` writes what `urlsplit` reads. */
  ghost predicate SplitsUrls(lib: Keys.Library) {
    && (forall text, p :: lib.split(text) == Some(p) && Keys.IsWeb(p) && StructuredFields.Printable(text)
                          ==> IsSplit(text, p))
    && forall scheme, netloc, path :: (scheme == "http" || scheme == "https") && path != "" && path[0] == '/'
                                      ==> lib.unsplit(scheme, netloc, path) == scheme + "://" + netloc + path
  }

  /** Agents come from structured fields, whose strings are printable. */
  ghost predicate PrintableAgents(parsers: Verifier.Parsers) {
    forall agent :: Verifier.FromHeader(parsers, agent) ==> StructuredFields.ValidBare(agent)
  }

  /** A text of a scheme, an authority that names a host, and what ends it, is a URL of the gateway. */
  lemma WrittenIsUrl(scheme: string, netloc: string, rest: string)
    requires Policy.IsScheme(scheme) && Policy.NamesHost(netloc) && Policy.Netloc(netloc) == netloc
    requires Policy.Netloc(rest) == ""
    ensures Policy.IsUrl(scheme + "://" + netloc + rest)
  {
    hide Policy.IsScheme, Policy.NamesHost, Policy.Netloc;
    var text := scheme + "://" + netloc + rest;
    assert text == scheme + "://" + (netloc + rest);
    assert text[|scheme| + 3..] == netloc + rest;
    Policy.NetlocGoesOn(netloc, rest);
    assert netloc + "" == netloc;
    assert Policy.BeginsUrl(scheme, text);
  }

  lemma WebSchemes()
    ensures Policy.IsScheme("http") && Policy.IsScheme("https")
  {
  }

  lemma PathEndsNetloc(path: string)
    requires path != "" && path[0] == '/'
    ensures Policy.Netloc(path) == ""
  {
  }

  lemma WellKnownIsPath()
    ensures Keys.WELL_KNOWN != "" && Keys.WELL_KNOWN[0] == '/'
  {
    assert "/.well-known"[0] == '/';
  }

  /** A URL an agent leads to begins like one. */
  lemma LeadIsUrl(lib: Keys.Library, cfg: Keys.Config, agent: StructuredFields.BareItem, kind: string, url: string)
    requires SplitsUrls(lib) && StructuredFields.ValidBare(agent)
    requires Keys.AgentLeadsTo(lib, cfg, Some(agent), kind, url)
    ensures Policy.IsUrl(url)
  {
    hide Keys.Admitted, Policy.IsScheme, Policy.NamesHost, Policy.Netloc, Policy.IsUrl;
    var text := agent.s;
    var p := lib.split(text).value;
    assert IsSplit(text, p);
    var scheme, rest :| && Policy.IsScheme(scheme) && text == scheme + "://" + p.netloc + rest
                        && Policy.Netloc(rest) == "";
    if kind == "jwks_uri" {
      WrittenIsUrl(scheme, p.netloc, rest);
    } else {
      WebSchemes();
      WellKnownIsPath();
      PathEndsNetloc(Keys.WELL_KNOWN);
      WrittenIsUrl(p.scheme, p.netloc, Keys.WELL_KNOWN);
    }
  }

  /** The operator of an answer is a registered name or such a URL. */
  lemma OperatorOfAnswer(env: Verifier.Env, st: Verifier.State, i: Incoming, answer: Verifier.Answer,
                         after: Verifier.State)
    requires Verifier.IsAnswer(env, st, i.h.request, i.clock, answer, after) && answer.Result?
    requires Keys.Named(st.keys.statics) && SplitsUrls(env.keyLib) && PrintableAgents(env.parsers)
    ensures var o := answer.result.operator; o.Some? ==> "static:" <= o.value || Policy.IsUrl(o.value)
  {
    hide Verifier.IsAnswer, SplitsUrls, Keys.AgentLeadsTo, Verifier.FromHeader, StructuredFields.ValidBare;
    Verifier.AnswerMeans(env, st, i.h.request, i.clock, answer, after);
    hide Policy.IsUrl;
    if answer.result.operator.Some? {
      var o := answer.result.operator.value;
      if agent, kind :| && Verifier.FromHeader(env.parsers, agent)
                        && Keys.AgentLeadsTo(env.keyLib, env.keyCfg, Some(agent), kind, o) {
        LeadIsUrl(env.keyLib, env.keyCfg, agent, kind, o);
      }
    }
  }

  lemma {:induction false} StaticsOfRun(g: Setup, t: Trace, k: nat)
    requires Run(g, t) && k <= |t.ins|
    ensures t.states[k].verifier.keys.statics == t.states[0].verifier.keys.statics
  {
    hide Verifier.IsAnswer, Policy.Decide, Policy.AfterDecide, EntryOf, Audit.NewRow;
    if k > 0 {
      StaticsOfRun(g, t, k - 1);
      assert StepAt(g, t, k - 1);
      var i := t.ins[k - 1];
      if !t.replies[k - 1].AdminPage? {
        Verifier.AnswerKeepsStatics(g.env, t.states[k - 1].verifier, i.h.request, i.clock,
                                    AnswerFor(t.replies[k - 1], t.results[k - 1]), t.states[k].verifier);
      }
    }
  }

  /** A client key is missing or a hexadecimal digest: not empty and without colons. */
  predicate PlainClients(ins: seq<Incoming>) {
    forall n :: 0 <= n < |ins| && ins[n].h.clientKey.Some? ==>
      ins[n].h.clientKey.value != "" && Text.Free(':', ins[n].h.clientKey.value)
  }

  /** What is assumed of the libraries, and of what the gateway starts with. */
  ghost predicate Wellborn(g: Setup, t: Trace) {
    && WellShaped(t) && Keys.Named(t.states[0].verifier.keys.statics) && PlainClients(t.ins)
    && SplitsUrls(g.env.keyLib) && PrintableAgents(g.env.parsers)
  }

  /** Every call that reaches the policy has an operator that is a registered name or a URL, and a plain client
      key. */
  lemma {:induction false} EveryCallIsFromGateway(g: Setup, t: Trace, k: nat, c: Policy.Call)
    requires Run(g, t) && Wellborn(g, t) && k <= |t.ins| && c in Calls(t, k)
    ensures Policy.FromGateway(c)
  {
    hide Policy.IsUrl, SplitsUrls, PrintableAgents, Keys.Named, StepAt;
    if c in Calls(t, k - 1) {
      EveryCallIsFromGateway(g, t, k - 1, c);
    } else {
      var i := t.ins[k - 1];
      StaticsOfRun(g, t, k - 1);
      VerifiedStep(g, t, k - 1);
      OperatorOfAnswer(g.env, t.states[k - 1].verifier, i, AnswerFor(t.replies[k - 1], t.results[k - 1]),
                       t.states[k].verifier);
    }
  }

  /** So in a run of the gateway rules of different names share a bucket only if one name is the other and the
      beginning of a source. */
  lemma BucketsOfRun(g: Setup, t: Trace, c: Policy.Call, d: Policy.Call, a: string, b: string)
    requires Run(g, t) && Wellborn(g, t) && c in Calls(t, |t.ins|) && d in Calls(t, |t.ins|) && a != b
    requires Policy.Key(a, Policy.BucketId(c)) == Policy.Key(b, Policy.BucketId(d))
    ensures Policy.ExtendsWithSource(a, b) || Policy.ExtendsWithSource(b, a)
  {
    hide Wellborn, Calls, Policy.FromGateway, Policy.ExtendsWithSource, Policy.Key, Policy.BucketId, StepAt;
    EveryCallIsFromGateway(g, t, |t.ins|, c);
    EveryCallIsFromGateway(g, t, |t.ins|, d);
    Policy.ShareAGatewayBucketIff(a, b);
  }

  // ---------- the run of `verify` inside a run of the gateway ----------

  /** The requests among the first `k` that are verified, in order: all but those for admin pages. */
  ghost function Verified(t: Trace, k: nat): (kept: seq<nat>)
    requires k <= |t.ins| == |t.replies|
    ensures forall n :: 0 <= n < |kept| ==> kept[n] < k && !t.replies[kept[n]].AdminPage?
    ensures forall m, n :: 0 <= m < n < |kept| ==> kept[m] < kept[n]
    ensures forall i :: 0 <= i < k && !t.replies[i].AdminPage? ==> i in kept
  {
    if k == 0 then [] else Verified(t, k - 1) + (if t.replies[k - 1].AdminPage? then [] else [k - 1])
  }

  function CallFor(i: Incoming): Replay.Call {
    Replay.Call.Call(i.h.request, i.clock)
  }

  function AnswerFor(reply: Reply, res: VerificationResult): Verifier.Answer {
    if reply.RaisedEarly? then Verifier.Escaped else Verifier.Result(res)
  }

  ghost predicate WellShaped(t: Trace) {
    |t.replies| == |t.results| == |t.ins| && |t.states| == |t.ins| + 1
  }

  ghost function VerifyCalls(t: Trace): seq<Replay.Call>
    requires WellShaped(t)
  {
    var kept := Verified(t, |t.ins|);
    seq(|kept|, n requires 0 <= n < |kept| => CallFor(t.ins[kept[n]]))
  }

  ghost function VerifyAnswers(t: Trace): seq<Verifier.Answer>
    requires WellShaped(t)
  {
    var kept := Verified(t, |t.ins|);
    seq(|kept|, n requires 0 <= n < |kept| => AnswerFor(t.replies[kept[n]], t.results[kept[n]]))
  }

  ghost function VerifyStates(t: Trace): seq<Verifier.State>
    requires WellShaped(t)
  {
    var kept := Verified(t, |t.ins|);
    seq(|kept| + 1, n requires 0 <= n <= |kept| => t.states[if n < |kept| then kept[n] else |t.ins|].verifier)
  }

  /** Admin pages leave the verifier alone. */
  lemma {:induction false} OnlyAdminPages(g: Setup, t: Trace, i: nat, j: nat)
    requires Run(g, t) && i <= j <= |t.ins| && forall m :: i <= m < j ==> t.replies[m].AdminPage?
    ensures t.states[i].verifier == t.states[j].verifier
    decreases j - i
  {
    hide Verifier.IsAnswer, Policy.Decide, Policy.AfterDecide, EntryOf, Audit.NewRow;
    if i < j {
      assert StepAt(g, t, i);
      OnlyAdminPages(g, t, i + 1, j);
    }
  }

  /** A verified request is not between two neighbouring ones. */
  lemma NotBetween(t: Trace, n: nat, m: nat)
    requires WellShaped(t) && n < |Verified(t, |t.ins|)| && m < |t.ins| && !t.replies[m].AdminPage?
    ensures var kept := Verified(t, |t.ins|); m <= kept[n] || (n + 1 < |kept| && kept[n + 1] <= m)
  {
    var kept := Verified(t, |t.ins|);
    var l :| 0 <= l < |kept| && kept[l] == m;
    hide Verified;
  }

  /** Every run of the gateway is, without its admin pages, a run of `verify`; so every result about such runs
      holds of the gateway. */
  lemma VerifyRun(g: Setup, t: Trace)
    requires Run(g, t)
    ensures Replay.Run(g.env, VerifyCalls(t), VerifyStates(t), VerifyAnswers(t))
  {
    hide StepAt, Verifier.IsAnswer;
    var kept := Verified(t, |t.ins|);
    var calls, states, answers := VerifyCalls(t), VerifyStates(t), VerifyAnswers(t);
    forall n | 0 <= n < |kept|
      ensures Replay.CallStep(g.env, calls, states, answers, n)
    {
      var i, next := kept[n], if n + 1 < |kept| then kept[n + 1] else |t.ins|;
      forall m | i < m < next
        ensures t.replies[m].AdminPage?
      {
        if !t.replies[m].AdminPage? {
          NotBetween(t, n, m);
        }
      }
      OnlyAdminPages(g, t, i + 1, next);
      VerifiedStep(g, t, i);
    }
  }

  lemma VerifiedStep(g: Setup, t: Trace, i: nat)
    requires Run(g, t) && i < |t.ins| && !t.replies[i].AdminPage?
    ensures Verifier.IsAnswer(g.env, t.states[i].verifier, t.ins[i].h.request, t.ins[i].clock,
                              AnswerFor(t.replies[i], t.results[i]), t.states[i + 1].verifier)
  {
    hide Verifier.IsAnswer, Policy.Decide, Policy.AfterDecide, EntryOf, Audit.NewRow;
    assert StepAt(g, t, i);
  }

  // ---------- what is accepted ----------

  /** Request `k` is VERIFIED, as `a`. */
  ghost predicate AcceptsAt(g: Setup, t: Trace, k: nat, a: Replay.Acceptance)
    requires Run(g, t) && k < |t.ins|
  {
    !t.replies[k].AdminPage? && Replay.Accepts(g.env, t.states[k].verifier, CallFor(t.ins[k]), a)
  }

  /** Time does not go back, neither within a request nor from one to a later one. */
  ghost predicate ClockForward(ins: seq<Incoming>) {
    && (forall i, k: nat, l: nat :: 0 <= i < |ins| && k <= l ==> ins[i].clock(k).now <= ins[i].clock(l).now)
    && (forall i, j, k: nat, l: nat :: 0 <= i < j < |ins| ==> ins[i].clock(k).now <= ins[j].clock(l).now)
  }

  lemma VerifyClockForward(t: Trace)
    requires WellShaped(t) && ClockForward(t.ins)
    ensures Replay.ClockForward(VerifyCalls(t))
  {
    var kept := Verified(t, |t.ins|);
    assert forall n :: 0 <= n < |kept| ==> VerifyCalls(t)[n].clock == t.ins[kept[n]].clock;
    hide VerifyCalls;
  }

  /** Where an accepted request stands in the run of `verify`. */
  lemma PlaceOf(g: Setup, t: Trace, i: nat, a: Replay.Acceptance) returns (n: nat)
    requires Run(g, t) && i < |t.ins| && AcceptsAt(g, t, i, a)
    ensures n < |VerifyCalls(t)| == |Verified(t, |t.ins|)| && |VerifyStates(t)| == |VerifyCalls(t)| + 1
    ensures Verified(t, |t.ins|)[n] == i
    ensures Replay.Accepts(g.env, VerifyStates(t)[n], VerifyCalls(t)[n], a)
  {
    hide Replay.Accepts, StepAt;
    var kept := Verified(t, |t.ins|);
    n :| 0 <= n < |kept| && kept[n] == i;
  }

  /** Replay safety of the gateway: once a request is VERIFIED with a nonce that expires at e, no later request
      is VERIFIED with that nonce at any time up to e, whatever admin pages, refusals and exceptions come
      between. */
  lemma NoReplayThroughTheGateway(g: Setup, t: Trace, i: nat, j: nat, a: Replay.Acceptance, b: Replay.Acceptance)
    requires Run(g, t) && ClockForward(t.ins) && i < j < |t.ins|
    requires AcceptsAt(g, t, i, a) && AcceptsAt(g, t, j, b) && a.Nonce() == b.Nonce() != ""
    ensures b.now > a.Expires()
  {
    hide StepAt, ClockForward, Replay.Run, Replay.ClockForward, Replay.Accepts, VerifyCalls, VerifyStates, AcceptsAt;
    hide Verifier.TextParam, Verifier.IntParam;
    VerifyRun(g, t);
    VerifyClockForward(t);
    var m := PlaceOf(g, t, i, a);
    var n := PlaceOf(g, t, j, b);
    PlacesInOrder(t, m, n);
    Replay.NoReplayBeforeExpiry(g.env, VerifyCalls(t), VerifyStates(t), VerifyAnswers(t), m, n, a, b);
  }

  lemma PlacesInOrder(t: Trace, m: nat, n: nat)
    requires WellShaped(t) && m < |Verified(t, |t.ins|)| && n < |Verified(t, |t.ins|)|
    ensures m < n <==> Verified(t, |t.ins|)[m] < Verified(t, |t.ins|)[n]
  {
  }

  /** Without clock skew the gateway accepts one signed parameter set with a nonce at most once in a whole
      run. */
  lemma AtMostOnceThroughTheGateway(g: Setup, t: Trace, i: nat, j: nat, a: Replay.Acceptance, b: Replay.Acceptance)
    requires Run(g, t) && ClockForward(t.ins) && i < |t.ins| && j < |t.ins| && g.env.cfg.skew <= 0
    requires AcceptsAt(g, t, i, a) && AcceptsAt(g, t, j, b) && a.params == b.params && a.Nonce() != ""
    ensures i == j
  {
    hide StepAt, ClockForward, Replay.Run, Replay.ClockForward, Replay.Accepts, VerifyCalls, VerifyStates, AcceptsAt;
    hide Verifier.TextParam, Verifier.IntParam;
    VerifyRun(g, t);
    VerifyClockForward(t);
    var m := PlaceOf(g, t, i, a);
    var n := PlaceOf(g, t, j, b);
    Replay.AtMostOnceWithoutSkew(g.env, VerifyCalls(t), VerifyStates(t), VerifyAnswers(t), m, n, a, b);
  }
}
