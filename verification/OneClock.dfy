/** How often a signature can be used when the verifier and the resolver read one clock, as they do by
    default. The readings within one label are taken as equal. */
module OneClock {
  import opened Wrappers
  import opened StructuredFields
  import opened SignatureBase
  import opened NonceStore
  import opened Verifier
  import opened Replay
  import Keys

  /** All clocks read `now`. */
  function At(now: int): Tick {
    Tick(now, Keys.Ticks(now, now, now))
  }

  // ---------- where a key comes from ----------

  /** A key is registered, or a directory keeps listing it. */
  datatype Supply = Registered | Listed(url: string, jwk: Keys.Jwk)

  /** The entry lists the key under the key id. */
  predicate Lists(entry: Keys.CacheEntry, keyid: string, jwk: Keys.Jwk) {
    && (entry.error == None || entry.error == Some(""))
    && keyid in entry.keys && entry.keys[keyid] == jwk
  }

  /** Every fetch of the URL yields an entry that lists the key. */
  ghost predicate AlwaysLists(env: Env, url: string, keyid: string, jwk: Keys.Jwk) {
    forall time :: !env.world(url, time).Uncaught?
      && Lists(Keys.EntryOf(env.keyLib, env.keyCfg, env.world(url, time), time), keyid, jwk)
  }

  /** The resolver finds `key` under the key id as long as it is in force: it is registered, or the directory
      lists it whenever it is fetched and in the entry already cached. */
  ghost predicate Supplies(env: Env, keys: Keys.State, keyid: string, key: Keys.PublicKey, supply: Supply) {
    && (keyid == Keys.TEST_KEYID ==> env.keyCfg.devMode)
    && match supply
       case Registered => keyid in keys.statics && keys.statics[keyid].key == key
       case Listed(url, jwk) =>
         && keyid !in keys.statics && AlwaysLists(env, url, keyid, jwk)
         && (url in keys.cache ==> Lists(keys.cache[url], keyid, jwk))
         && Keys.ToPublicKey(jwk) == Some(key) && !Keys.BadStamp(jwk.nbf) && !Keys.BadStamp(jwk.exp)
  }

  predicate InForce(supply: Supply, now: int) {
    supply.Listed? ==> Keys.InForce(supply.jwk, now)
  }

  /** The agent leads to the directory that lists the key. */
  predicate LeadsTo(env: Env, supply: Supply, agentUrl: Keys.AgentUrl, kind: string) {
    supply.Listed? ==> Keys.Target(env.keyLib, env.keyCfg, agentUrl, kind) == Keys.Url(supply.url)
  }

  /** The key resolves exactly while it is in force. */
  lemma ResolvesWhileInForce(env: Env, keys: Keys.State, keyid: string, key: Keys.PublicKey, supply: Supply,
                             agentUrl: Keys.AgentUrl, kind: string, t: Keys.Ticks)
    requires Supplies(env, keys, keyid, key, supply) && LeadsTo(env, supply, agentUrl, kind)
    ensures var r := Keys.Resolve(env.keyLib, env.keyCfg, env.world, keys, keyid, agentUrl, kind, t);
            && (r.Resolved? <==> InForce(supply, t.use)) && (r.Resolved? ==> r.key.key == key)
  {
    hide Keys.Target, Keys.EntryOf, Keys.ToPublicKey, Keys.Stamp, Keys.Before, Keys.After;
  }

  /** No lookup of any key changes that. */
  lemma SuppliesStays(env: Env, keys: Keys.State, keyid: string, key: Keys.PublicKey, supply: Supply,
                      other: string, agentUrl: Keys.AgentUrl, kind: string, t: Keys.Ticks)
    requires Supplies(env, keys, keyid, key, supply)
    ensures Supplies(env, Keys.AfterResolve(env.keyLib, env.keyCfg, env.world, keys, other, agentUrl, kind, t),
                     keyid, key, supply)
  {
    hide Keys.Target, Keys.EntryOf, Keys.ToPublicKey, Keys.Stamp, Lists;
  }

  lemma SuppliesAfterMember(env: Env, st: State, req: Request, m: Labelled, sigs: Signatures, tick: Tick,
                            keyid: string, key: Keys.PublicKey, supply: Supply)
    requires Supplies(env, st.keys, keyid, key, supply)
    ensures Supplies(env, AfterMember(env, st, req, m, sigs, tick).keys, keyid, key, supply)
  {
    hide Gates, Genuine, AfterCall, Supplies, Keys.AfterResolve, TextParam, IntParam;
    if m.Labelled? && Gates(env, req, m.inner, tick.now).Pass? {
      var g := Gates(env, req, m.inner, tick.now);
      SuppliesStays(env, st.keys, keyid, key, supply, TextParam(m.inner.params, "keyid"), g.agentUrl, g.kind,
                    tick.keys);
    }
  }

  lemma {:induction false} SuppliesInJob(job: Job, k: nat, keyid: string, key: Keys.PublicKey, supply: Supply)
    requires k <= |job.inputs| && Supplies(job.env, job.start.keys, keyid, key, supply)
    ensures Supplies(job.env, job.StateAt(k).keys, keyid, key, supply)
  {
    hide AfterMember, Supplies;
    if k > 0 {
      SuppliesInJob(job, k - 1, keyid, key, supply);
      SuppliesAfterMember(job.env, job.StateAt(k - 1), job.req, job.inputs[k - 1], job.sigs, job.clock(k - 1),
                          keyid, key, supply);
    }
  }

  lemma {:induction false} SuppliesInRun(env: Env, calls: seq<Replay.Call>, states: seq<State>, answers: seq<Answer>,
                                         i: nat, keyid: string, key: Keys.PublicKey, supply: Supply)
    requires Run(env, calls, states, answers) && i <= |calls| && Supplies(env, states[0].keys, keyid, key, supply)
    ensures Supplies(env, states[i].keys, keyid, key, supply)
  {
    hide IsAnswer, Supplies;
    if i > 0 {
      SuppliesInRun(env, calls, states, answers, i - 1, keyid, key, supply);
      assert CallStep(env, calls, states, answers, i - 1);
      SuppliesInCall(env, states[i - 1], calls[i - 1], answers[i - 1], states[i], keyid, key, supply);
    }
  }

  lemma SuppliesInCall(env: Env, st: State, call: Replay.Call, answer: Answer, after: State,
                       keyid: string, key: Keys.PublicKey, supply: Supply)
    requires IsAnswer(env, st, call.req, call.clock, answer, after) && Supplies(env, st.keys, keyid, key, supply)
    ensures Supplies(env, after.keys, keyid, key, supply)
  {
    hide ReadHeaders, Supplies, AfterMember, JudgeMember;
    match ReadHeaders(env, call.req)
    case Refused(_) =>
    case Headers(inputs, sigs) =>
      var job := Job(env, st, call.req, inputs, sigs, call.clock);
      var k: nat :| job.EndsWith(k, answer, after);
      SuppliesInJob(job, if k < |inputs| then k + 1 else k, keyid, key, supply);
  }

  // ---------- one label ----------

  /** The label is genuine at `t`, and its key is supplied. */
  ghost predicate Presentable(env: Env, st: State, req: Request, lab: string, l: InnerList,
                              sigs: Signatures, supply: Supply, t: int) {
    && Genuine(env, st, req, lab, l, sigs, At(t))
    && Supplies(env, st.keys, TextParam(l.params, "keyid"), Resolution(env, st, req, l, At(t)).key.key, supply)
    && LeadsTo(env, supply, Gates(env, req, l, t).agentUrl, Gates(env, req, l, t).kind)
  }

  /** The second after `expires` is one at which the clock skew still admits the label and its key, if a
      directory lists it, has not expired. */
  predicate TailOpen(env: Env, l: InnerList, supply: Supply) {
    env.cfg.skew > 0 && (supply.Listed? ==> !Keys.NoLonger(supply.jwk, IntParam(l.params, "expires") + 1))
  }

  lemma DatesAreOrdered(jwk: Keys.Jwk, early: int, late: int)
    requires early <= late
    ensures Keys.NoLonger(jwk, early) ==> Keys.NoLonger(jwk, late)
    ensures Keys.NotYet(jwk, late) ==> Keys.NotYet(jwk, early)
  {
  }

  /** Elsewhere and at another time the label is genuine exactly when its gates pass and its key is in force. */
  lemma GenuineIff(env: Env, st: State, s: State, req: Request, lab: string, l: InnerList,
                   sigs: Signatures, supply: Supply, t: int, now: int)
    requires Presentable(env, st, req, lab, l, sigs, supply, t)
    requires Supplies(env, s.keys, TextParam(l.params, "keyid"), Resolution(env, st, req, l, At(t)).key.key, supply)
    ensures Genuine(env, s, req, lab, l, sigs, At(now)) <==> Gates(env, req, l, now).Pass? && InForce(supply, now)
  {
    hide Gates, Keys.Resolve, TextParam, SignatureStatus, Supplies, InForce, LeadsTo;
    if Gates(env, req, l, now).Pass? {
      SamePass(env, req, l, t, now);
      var g := Gates(env, req, l, now);
      var key := Resolution(env, st, req, l, At(t)).key.key;
      ResolvesWhileInForce(env, s.keys, TextParam(l.params, "keyid"), key, supply, g.agentUrl, g.kind, At(now).keys);
    }
  }

  /** An open tail has a moment at which the label is genuine. */
  lemma TailMoment(env: Env, st: State, req: Request, lab: string, l: InnerList, sigs: Signatures,
                   supply: Supply, t: int) returns (late: int)
    requires Presentable(env, st, req, lab, l, sigs, supply, t) && TailOpen(env, l, supply)
    ensures IntParam(l.params, "expires") < late && Genuine(env, st, req, lab, l, sigs, At(late))
  {
    var expires := IntParam(l.params, "expires");
    late := if t > expires then t else expires + 1;
    GatesPassIff(env, req, l, t);
    GatesPassIff(env, req, l, late);
    GenuineIff(env, st, st, req, lab, l, sigs, supply, t, t);
    GenuineIff(env, st, st, req, lab, l, sigs, supply, t, late);
    hide Gates, Genuine, Supplies, WrongTyped, TagAccepted, MissingParam, AgentOf, AlgOf, TextParam, IntParam;
    if supply.Listed? {
      DatesAreOrdered(supply.jwk, t, late);
    }
  }

  /** A genuine moment past `expires` shows that the tail is open. */
  lemma OpenIfGenuine(env: Env, st: State, s: State, req: Request, lab: string, l: InnerList,
                      sigs: Signatures, supply: Supply, t: int, late: int)
    requires Presentable(env, st, req, lab, l, sigs, supply, t)
    requires Supplies(env, s.keys, TextParam(l.params, "keyid"), Resolution(env, st, req, l, At(t)).key.key, supply)
    requires IntParam(l.params, "expires") < late && Genuine(env, s, req, lab, l, sigs, At(late))
    ensures TailOpen(env, l, supply)
  {
    GenuineIff(env, st, s, req, lab, l, sigs, supply, t, late);
    GatesPassIff(env, req, l, late);
    hide Gates, Genuine, Supplies, WrongTyped, TagAccepted, MissingParam, AgentOf, AlgOf, TextParam, IntParam;
    if supply.Listed? {
      DatesAreOrdered(supply.jwk, IntParam(l.params, "expires") + 1, late);
    }
  }

  /** Two presentations of the label, in the order of the clock, are both VERIFIED. */
  ghost predicate VerifiedTwice(env: Env, st: State, req: Request, lab: string, l: InnerList,
                                sigs: Signatures) {
    exists first: int, second: int :: first <= second && BothVerified(env, st, req, lab, l, sigs, first, second)
  }

  ghost predicate BothVerified(env: Env, st: State, req: Request, lab: string, l: InnerList,
                               sigs: Signatures, first: int, second: int) {
    && IsVerified(Judge(env, st, req, lab, l, sigs, At(first)))
    && IsVerified(Judge(env, After(env, st, req, lab, l, sigs, At(first)), req, lab, l, sigs, At(second)))
  }

  /** A moment at which the label is VERIFIED twice. */
  lemma VerifiedTwiceAt(env: Env, st: State, req: Request, lab: string, l: InnerList, sigs: Signatures,
                        supply: Supply, t: int) returns (now: int)
    requires Presentable(env, st, req, lab, l, sigs, supply, t) && TextParam(l.params, "nonce") !in st.seen
    requires TextParam(l.params, "nonce") == "" || TailOpen(env, l, supply)
    ensures BothVerified(env, st, req, lab, l, sigs, now, now)
  {
    hide Genuine, TextParam, IntParam, TailOpen, Judge, After;
    now := t;
    if TextParam(l.params, "nonce") != "" {
      now := TailMoment(env, st, req, lab, l, sigs, supply, t);
    }
    GenuineIsVerifiedTwice(env, st, req, lab, l, sigs, At(now));
  }

  /** Exactly when a signed label can be used twice under one clock: take any label that is genuine at some
      moment, whose nonce is not stored, and whose key is registered or kept in its directory. It can be
      VERIFIED twice if and only if it has no nonce, or the clock skew is positive and the directory, if
      there is one, does not end the key with the label's `expires`. */
  lemma UsableTwiceIffTailOpen(env: Env, st: State, req: Request, lab: string, l: InnerList,
                               sigs: Signatures, supply: Supply, t: int)
    requires Presentable(env, st, req, lab, l, sigs, supply, t) && TextParam(l.params, "nonce") !in st.seen
    ensures VerifiedTwice(env, st, req, lab, l, sigs)
       <==> TextParam(l.params, "nonce") == "" || TailOpen(env, l, supply)
  {
    hide Presentable, TextParam, IntParam, TailOpen, BothVerified;
    if TextParam(l.params, "nonce") == "" || TailOpen(env, l, supply) {
      var now := VerifiedTwiceAt(env, st, req, lab, l, sigs, supply, t);
    } else if VerifiedTwice(env, st, req, lab, l, sigs) {
      var first, second :| first <= second && BothVerified(env, st, req, lab, l, sigs, first, second);
      SecondMeansOpen(env, st, req, lab, l, sigs, supply, t, first, second);
    }
  }

  lemma SecondMeansOpen(env: Env, st: State, req: Request, lab: string, l: InnerList, sigs: Signatures,
                        supply: Supply, t: int, first: int, second: int)
    requires Presentable(env, st, req, lab, l, sigs, supply, t) && TextParam(l.params, "nonce") != ""
    requires BothVerified(env, st, req, lab, l, sigs, first, second)
    ensures TailOpen(env, l, supply)
  {
    hide Judge, TextParam, IntParam, TailOpen, Supplies, LeadsTo, Keys.Resolve, Gates, SignatureStatus;
    SecondUseIffPastExpiry(env, st, req, lab, l, sigs, At(first), At(second));
    var s := After(env, st, req, lab, l, sigs, At(first));
    SuppliesAfterMember(env, st, req, Labelled(lab, l), sigs, At(first), TextParam(l.params, "keyid"),
                        Resolution(env, st, req, l, At(t)).key.key, supply);
    OpenIfGenuine(env, st, s, req, lab, l, sigs, supply, t, second);
  }

  // ---------- whole calls ----------

  /** All the clocks of the calls are one. */
  ghost predicate OneClockCalls(calls: seq<Replay.Call>) {
    forall i, k: nat :: 0 <= i < |calls| ==> calls[i].clock(k) == At(calls[i].clock(k).now)
  }

  /** Some run from `st` under one clock that does not go back accepts the request twice. */
  ghost predicate AcceptedTwiceFrom(env: Env, st: State, req: Request) {
    exists calls, states, answers ::
      AcceptsTwice(env, calls, states, answers, req) && states != [] && states[0] == st && OneClockCalls(calls)
  }

  /** The same of whole calls of `verify`, whatever else is called between: for a request with one such label,
      some run accepts it twice if and only if the label has no nonce or its tail is open. */
  lemma AcceptedTwiceIffTailOpen(env: Env, st: State, req: Request, lab: string, l: InnerList,
                                 sigs: Signatures, supply: Supply, t: int)
    requires ReadHeaders(env, req) == Headers([Labelled(lab, l)], sigs)
    requires Presentable(env, st, req, lab, l, sigs, supply, t) && TextParam(l.params, "nonce") !in st.seen
    ensures AcceptedTwiceFrom(env, st, req) <==> TextParam(l.params, "nonce") == "" || TailOpen(env, l, supply)
  {
    hide Presentable, ReadHeaders, TextParam, AcceptsTwice, Judge, After, TailOpen;
    if TextParam(l.params, "nonce") == "" || TailOpen(env, l, supply) {
      var now := VerifiedTwiceAt(env, st, req, lab, l, sigs, supply, t);
      var calls, states, answers := TwoCalls(env, st, req, lab, l, sigs, At(now));
      assert OneClockCalls(calls);
    }
    if calls, states, answers :|
      AcceptsTwice(env, calls, states, answers, req) && states != [] && states[0] == st && OneClockCalls(calls)
    {
      OnlyWithOpenTail(env, st, calls, states, answers, req, lab, l, sigs, supply, t);
    }
  }

  lemma OnlyWithOpenTail(env: Env, st: State, calls: seq<Replay.Call>, states: seq<State>, answers: seq<Answer>,
                         req: Request, lab: string, l: InnerList, sigs: Signatures, supply: Supply, t: int)
    requires ReadHeaders(env, req) == Headers([Labelled(lab, l)], sigs)
    requires Presentable(env, st, req, lab, l, sigs, supply, t)
    requires AcceptsTwice(env, calls, states, answers, req) && states != [] && states[0] == st && OneClockCalls(calls)
    ensures TextParam(l.params, "nonce") == "" || TailOpen(env, l, supply)
  {
    hide ReadHeaders, TextParam, IntParam, Accepts, ClockForward, Run, Supplies, Keys.Resolve, Gates, SignatureStatus;
    hide LeadsTo, TailOpen;
    var i: nat, j: nat, a, b :| BothAccept(env, calls, states, answers, req, i, j, a, b);
    RunLengths(env, calls, states, answers);
    AcceptedIsTheLabel(env, states[i], calls[i], a, lab, l, sigs);
    AcceptedIsTheLabel(env, states[j], calls[j], b, lab, l, sigs);
    if TextParam(l.params, "nonce") != "" {
      NoReplayBeforeExpiry(env, calls, states, answers, i, j, a, b);
      SuppliesInRun(env, calls, states, answers, j, TextParam(l.params, "keyid"),
                    Resolution(env, st, req, l, At(t)).key.key, supply);
      assert calls[j].clock(0) == At(b.now);
      OpenIfGenuine(env, st, states[j], req, lab, l, sigs, supply, t, b.now);
    }
  }
}
