/** Whole-run safety of the verifier: what any sequence of `verify` calls can accept. */
module Replay {
  import opened StructuredFields
  import opened SignatureBase
  import opened NonceStore
  import opened Verifier
  import Keys
  import Text

  datatype Call = Call(req: Request, clock: Clock)

  /** A signed parameter set and the time it was VERIFIED. */
  datatype Acceptance = Acceptance(params: seq<Param>, now: int) {
    function Nonce(): string {
      TextParam(params, "nonce")
    }

    function Created(): int {
      IntParam(params, "created")
    }

    function Expires(): int {
      IntParam(params, "expires")
    }
  }

  /** The calls, their answers, and the states between them, as the contract of `verify` links them; the first
      state is free. */
  ghost predicate Run(env: Env, calls: seq<Call>, states: seq<State>, answers: seq<Answer>) {
    && |states| == |calls| + 1 && |answers| == |calls|
    && forall i :: 0 <= i < |calls| ==> CallStep(env, calls, states, answers, i)
  }

  ghost predicate CallStep(env: Env, calls: seq<Call>, states: seq<State>, answers: seq<Answer>, i: nat)
    requires i < |calls| == |answers| && |states| == |calls| + 1
  {
    IsAnswer(env, states[i], calls[i].req, calls[i].clock, answers[i], states[i + 1])
  }

  ghost predicate ClockForward(calls: seq<Call>) {
    && (forall i, k: nat, l: nat :: 0 <= i < |calls| && k <= l ==> calls[i].clock(k).now <= calls[i].clock(l).now)
    && (forall i, j, k: nat, l: nat :: 0 <= i < j < |calls| ==> calls[i].clock(k).now <= calls[j].clock(l).now)
  }

  /** Label `k` of a call's job is the one VERIFIED, as `a`. */
  ghost predicate AcceptsAt(job: Job, k: nat, a: Acceptance) {
    && job.StopsAt(k) && k < |job.inputs| && IsVerified(job.JudgeAt(k)) && job.inputs[k].Labelled?
    && a == Acceptance(job.inputs[k].inner.params, job.clock(k).now)
  }

  /** A call made in state `st` is VERIFIED, as `a`. */
  ghost predicate Accepts(env: Env, st: State, call: Call, a: Acceptance) {
    match ReadHeaders(env, call.req)
    case Refused(_) => false
    case Headers(inputs, sigs) => exists k: nat :: AcceptsAt(Job(env, st, call.req, inputs, sigs, call.clock), k, a)
  }

  ghost predicate Holds(seen: Nonces, nonce: string, expires: int) {
    nonce in seen && seen[nonce] == expires
  }

  // ---------- one label ----------

  /** Until it expires, a stored nonce is neither evicted nor replaced. */
  lemma EntryStays(env: Env, st: State, req: Request, lab: string, l: InnerList, sigs: Signatures,
                   tick: Tick,
                   nonce: string, expires: int)
    requires Holds(st.seen, nonce, expires) && tick.now <= expires
    ensures Holds(After(env, st, req, lab, l, sigs, tick).seen, nonce, expires)
  {
    hide Gates, Genuine, Keys.AfterResolve;
  }

  /** A label that is not VERIFIED adds no nonce. */
  lemma NothingAdded(env: Env, st: State, req: Request, lab: string, l: InnerList, sigs: Signatures,
                     tick: Tick,
                     nonce: string, expires: int)
    requires !IsVerified(Judge(env, st, req, lab, l, sigs, tick))
    requires Holds(After(env, st, req, lab, l, sigs, tick).seen, nonce, expires)
    ensures Holds(st.seen, nonce, expires)
  {
    VerifiedIffAcceptable(env, st, req, lab, l, sigs, tick);
    hide Gates, Genuine, Judge, Keys.AfterResolve, TextParam, IntParam;
  }

  /** A VERIFIED label stores its nonce, if it has one, until its `expires`, and adds no other. */
  lemma AcceptedIsStored(env: Env, st: State, req: Request, lab: string, l: InnerList, sigs: Signatures,
                         tick: Tick,
                         nonce: string, expires: int)
    requires IsVerified(Judge(env, st, req, lab, l, sigs, tick))
    ensures var own := TextParam(l.params, "nonce");
            && (own != "" ==> Holds(After(env, st, req, lab, l, sigs, tick).seen, own, IntParam(l.params, "expires")))
            && (Holds(After(env, st, req, lab, l, sigs, tick).seen, nonce, expires)
                ==> Holds(st.seen, nonce, expires) || (nonce == own != "" && expires == IntParam(l.params, "expires")))
  {
    VerifiedIffAcceptable(env, st, req, lab, l, sigs, tick);
    hide Judge, Keys.AfterResolve, TextParam, IntParam, Resolution, SignatureStatus;
    assert Gates(env, req, l, tick.now).Pass?;
    hide Gates;
  }

  // ---------- one call ----------

  lemma {:induction false} EntryStaysInJob(job: Job, k: nat, nonce: string, expires: int)
    requires k <= |job.inputs| && Holds(job.start.seen, nonce, expires)
    requires forall m: nat :: m < k ==> job.clock(m).now <= expires
    ensures Holds(job.StateAt(k).seen, nonce, expires)
  {
    hide After, Holds;
    if k > 0 {
      EntryStaysInJob(job, k - 1, nonce, expires);
      var m := job.inputs[k - 1];
      if m.Labelled? {
        EntryStays(job.env, job.StateAt(k - 1), job.req, m.lab, m.inner, job.sigs, job.clock(k - 1), nonce, expires);
      }
    }
  }

  lemma {:induction false} EntriesOfJob(job: Job, k: nat, nonce: string, expires: int)
    requires k <= |job.inputs| && (forall j :: 0 <= j < k ==> !EndsLoop(job.JudgeAt(j)))
    requires Holds(job.StateAt(k).seen, nonce, expires)
    ensures Holds(job.start.seen, nonce, expires)
  {
    hide After, Judge, Holds;
    if k > 0 {
      assert !EndsLoop(job.JudgeAt(k - 1));
      NothingAdded(job.env, job.StateAt(k - 1), job.req, job.inputs[k - 1].lab, job.inputs[k - 1].inner, job.sigs,
                   job.clock(k - 1), nonce, expires);
      EntriesOfJob(job, k - 1, nonce, expires);
    }
  }

  /** What one call does to a stored nonce that has not expired by the end of the call. */
  lemma EntryStaysInCall(env: Env, st: State, call: Call, answer: Answer, after: State, nonce: string, expires: int)
    requires IsAnswer(env, st, call.req, call.clock, answer, after)
    requires Holds(st.seen, nonce, expires) && forall k: nat :: call.clock(k).now <= expires
    ensures Holds(after.seen, nonce, expires)
  {
    hide ReadHeaders, Holds;
    match ReadHeaders(env, call.req)
    case Refused(_) =>
    case Headers(inputs, sigs) =>
      var job := Job(env, st, call.req, inputs, sigs, call.clock);
      var k: nat :| job.EndsWith(k, answer, after);
      EntryStaysInJob(job, if k < |inputs| then k + 1 else k, nonce, expires);
  }

  /** After a call that accepts `a`, the nonce of `a` is stored until its expiry. */
  lemma CallStores(env: Env, st: State, call: Call, answer: Answer, after: State, a: Acceptance)
    requires IsAnswer(env, st, call.req, call.clock, answer, after) && Accepts(env, st, call, a) && a.Nonce() != ""
    ensures Holds(after.seen, a.Nonce(), a.Expires())
  {
    hide ReadHeaders, Judge, After, Holds, TextParam, IntParam;
    var inputs, sigs := ReadHeaders(env, call.req).inputs, ReadHeaders(env, call.req).sigs;
    var job := Job(env, st, call.req, inputs, sigs, call.clock);
    var k: nat :| AcceptsAt(job, k, a);
    var j: nat :| job.EndsWith(j, answer, after);
    job.StopIsUnique(j, k);
    AcceptedIsStored(env, job.StateAt(k), call.req, inputs[k].lab, inputs[k].inner, sigs, call.clock(k),
                     a.Nonce(), a.Expires());
  }

  /** A nonce stored after a call was stored before it, or is the accepted one. */
  lemma EntriesOfCall(env: Env, st: State, call: Call, answer: Answer, after: State, nonce: string, expires: int)
    requires IsAnswer(env, st, call.req, call.clock, answer, after) && Holds(after.seen, nonce, expires)
    ensures Holds(st.seen, nonce, expires)
         || exists a :: Accepts(env, st, call, a) && a.Nonce() == nonce != "" && a.Expires() == expires
  {
    hide ReadHeaders, Judge, After, Holds, TextParam, IntParam;
    match ReadHeaders(env, call.req)
    case Refused(_) =>
    case Headers(inputs, sigs) =>
      var job := Job(env, st, call.req, inputs, sigs, call.clock);
      var k: nat :| job.EndsWith(k, answer, after);
      if k < |inputs| {
        EntriesOfLast(job, k, nonce, expires);
      } else {
        EntriesOfJob(job, k, nonce, expires);
      }
  }

  lemma {:induction false} LiveInJob(job: Job, k: nat, t: int)
    requires k <= |job.inputs| && (forall j :: 0 <= j < k ==> !EndsLoop(job.JudgeAt(j)))
    requires forall m: nat :: m < k ==> job.clock(m).now <= t
    ensures Live(job.StateAt(k).seen, t) == Live(job.start.seen, t)
  {
    hide After, Judge, Live;
    if k > 0 {
      assert !EndsLoop(job.JudgeAt(k - 1));
      LiveInJob(job, k - 1, t);
      UnexpiredNoncesAfterLabel(job.env, job.StateAt(k - 1), job.req, job.inputs[k - 1].lab, job.inputs[k - 1].inner,
                                job.sigs, job.clock(k - 1), t);
    }
  }

  /** The unexpired nonces after an acceptance: the accepted one joins them, if there is one and it is
      unexpired. */
  function WithNonce(live: Nonces, a: Acceptance, t: int): Nonces {
    if a.Nonce() != "" && a.Expires() >= t then live[a.Nonce() := a.Expires()] else live
  }

  lemma LiveAfterLast(job: Job, k: nat, t: int)
    requires job.StopsAt(k) && k < |job.inputs| && forall m: nat :: job.clock(m).now <= t
    ensures !IsVerified(job.JudgeAt(k)) ==> Live(job.StateAt(k + 1).seen, t) == Live(job.start.seen, t)
    ensures IsVerified(job.JudgeAt(k)) ==>
              var a := Acceptance(job.inputs[k].inner.params, job.clock(k).now);
              AcceptsAt(job, k, a) && Live(job.StateAt(k + 1).seen, t) == WithNonce(Live(job.start.seen, t), a, t)
  {
    hide After, Judge, Live, TextParam, IntParam;
    LiveInJob(job, k, t);
    var m := job.inputs[k];
    if m.Labelled? {
      UnexpiredNoncesAfterLabel(job.env, job.StateAt(k), job.req, m.lab, m.inner, job.sigs, job.clock(k), t);
    }
  }

  /** What one call of `verify` does to the nonces that are unexpired at its end or later: nothing unless it
      answers VERIFIED, and then exactly the accepted nonce joins them. */
  lemma UnexpiredNoncesChangeOnlyOnAcceptance(env: Env, st: State, call: Call, answer: Answer, after: State, t: int)
    requires IsAnswer(env, st, call.req, call.clock, answer, after)
    requires forall k: nat :: call.clock(k).now <= t
    ensures !IsVerified(answer) ==> Live(after.seen, t) == Live(st.seen, t)
    ensures IsVerified(answer) ==>
              exists a :: Accepts(env, st, call, a) && Live(after.seen, t) == WithNonce(Live(st.seen, t), a, t)
  {
    hide ReadHeaders, Judge, After, Live, WithNonce;
    match ReadHeaders(env, call.req)
    case Refused(result) =>
      EarlyIsNotVerified(env, call.req);
    case Headers(inputs, sigs) =>
      var job := Job(env, st, call.req, inputs, sigs, call.clock);
      var k: nat :| job.EndsWith(k, answer, after);
      if k < |inputs| {
        LiveAfterLast(job, k, t);
        if IsVerified(answer) {
          var a := Acceptance(inputs[k].inner.params, call.clock(k).now);
          assert AcceptsAt(job, k, a);
        }
      } else {
        LiveInJob(job, k, t);
        NoneVerified(job, answer);
      }
  }

  lemma EarlyIsNotVerified(env: Env, req: Request)
    ensures ReadHeaders(env, req).Refused? ==> !IsVerified(Result(ReadHeaders(env, req).result))
  {
    hide Text.Count;
  }

  lemma NoneVerified(job: Job, answer: Answer)
    requires job.StopsAt(|job.inputs|) && job.Preferred(|job.inputs|, answer)
    ensures !IsVerified(answer)
  {
    hide Judge, After;
  }

  lemma EntriesOfLast(job: Job, k: nat, nonce: string, expires: int)
    requires job.StopsAt(k) && k < |job.inputs| && Holds(job.StateAt(k + 1).seen, nonce, expires)
    ensures Holds(job.start.seen, nonce, expires)
         || exists a :: AcceptsAt(job, k, a) && a.Nonce() == nonce != "" && a.Expires() == expires
  {
    hide Judge, After, Holds, TextParam, IntParam, ReadHeaders;
    var m := job.inputs[k];
    if IsVerified(job.JudgeAt(k)) {
      AcceptedIsStored(job.env, job.StateAt(k), job.req, m.lab, m.inner, job.sigs, job.clock(k), nonce, expires);
      assert AcceptsAt(job, k, Acceptance(m.inner.params, job.clock(k).now));
    } else if m.Labelled? {
      NothingAdded(job.env, job.StateAt(k), job.req, m.lab, m.inner, job.sigs, job.clock(k), nonce, expires);
    }
    if Holds(job.StateAt(k).seen, nonce, expires) {
      EntriesOfJob(job, k, nonce, expires);
    }
  }

  /** A call does not accept a nonce that is stored past the time of the acceptance. */
  lemma StoredIsRefused(env: Env, st: State, call: Call, a: Acceptance, nonce: string, expires: int)
    requires Accepts(env, st, call, a) && a.Nonce() == nonce != "" && Holds(st.seen, nonce, expires)
    requires forall k: nat, l: nat :: k <= l ==> call.clock(k).now <= call.clock(l).now
    ensures a.now > expires
  {
    hide ReadHeaders, Judge, After, TextParam, IntParam;
    var inputs, sigs := ReadHeaders(env, call.req).inputs, ReadHeaders(env, call.req).sigs;
    var job := Job(env, st, call.req, inputs, sigs, call.clock);
    var k: nat :| AcceptsAt(job, k, a);
    if a.now <= expires {
      EntryStaysInJob(job, k, nonce, expires);
      VerifiedIffAcceptable(env, job.StateAt(k), call.req, inputs[k].lab, inputs[k].inner, sigs, call.clock(k));
      hide Genuine;
      assert false;
    }
  }

  // ---------- whole runs ----------

  /** A run is determined by its calls and the state it starts in. */
  lemma {:induction false} RunIsDetermined(env: Env, calls: seq<Call>, states: seq<State>, answers: seq<Answer>,
                                           states': seq<State>, answers': seq<Answer>, k: nat)
    requires Run(env, calls, states, answers) && Run(env, calls, states', answers') && states[0] == states'[0]
    requires k <= |calls|
    ensures states[..k + 1] == states'[..k + 1] && answers[..k] == answers'[..k]
  {
    hide IsAnswer;
    if k > 0 {
      RunIsDetermined(env, calls, states, answers, states', answers', k - 1);
      assert states[k - 1] == states[..k][k - 1] == states'[..k][k - 1] == states'[k - 1];
      assert CallStep(env, calls, states, answers, k - 1) && CallStep(env, calls, states', answers', k - 1);
      AnswerIsUnique(env, states[k - 1], calls[k - 1].req, calls[k - 1].clock,
                     answers[k - 1], states[k], answers'[k - 1], states'[k]);
    }
  }

  lemma {:induction false} EntryStaysInRun(env: Env, calls: seq<Call>, states: seq<State>, answers: seq<Answer>,
                                           i: nat, j: nat, nonce: string, expires: int)
    requires Run(env, calls, states, answers) && i <= j <= |calls| && Holds(states[i].seen, nonce, expires)
    requires forall m, k: nat :: i <= m < j ==> calls[m].clock(k).now <= expires
    ensures Holds(states[j].seen, nonce, expires)
    decreases j - i
  {
    hide IsAnswer, Holds;
    if i < j {
      assert CallStep(env, calls, states, answers, i);
      EntryStaysInCall(env, states[i], calls[i], answers[i], states[i + 1], nonce, expires);
      EntryStaysInRun(env, calls, states, answers, i + 1, j, nonce, expires);
    }
  }

  /** Replay safety: once a non-empty nonce is VERIFIED with expiry e, no later call is VERIFIED with
      that nonce at any time up to e. */
  lemma NoReplayBeforeExpiry(env: Env, calls: seq<Call>, states: seq<State>, answers: seq<Answer>,
                             i: nat, j: nat, a: Acceptance, b: Acceptance)
    requires Run(env, calls, states, answers) && ClockForward(calls) && i < j < |calls|
    requires Accepts(env, states[i], calls[i], a) && Accepts(env, states[j], calls[j], b)
    requires a.Nonce() == b.Nonce() != ""
    ensures b.now > a.Expires()
  {
    hide IsAnswer, Holds, TextParam, IntParam, Accepts, ClockForward;
    if b.now <= a.Expires() {
      AcceptedInCall(env, states[j], calls[j], b);
      var l: nat :| b.now == calls[j].clock(l).now;
      assert CallStep(env, calls, states, answers, i);
      CallStores(env, states[i], calls[i], answers[i], states[i + 1], a);
      ClockBefore(calls, j, l);
      EntryStaysInRun(env, calls, states, answers, i + 1, j, a.Nonce(), a.Expires());
      StoredIsRefused(env, states[j], calls[j], b, a.Nonce(), a.Expires());
    }
  }

  lemma ClockBefore(calls: seq<Call>, j: nat, l: nat)
    requires ClockForward(calls) && j < |calls|
    ensures forall m, k: nat :: 0 <= m < j ==> calls[m].clock(k).now <= calls[j].clock(l).now
    ensures forall k: nat, k': nat :: k <= k' ==> calls[j].clock(k).now <= calls[j].clock(k').now
  {
  }

  lemma AcceptedInCall(env: Env, st: State, call: Call, a: Acceptance)
    requires Accepts(env, st, call, a)
    ensures exists l: nat :: a.now == call.clock(l).now
  {
    hide ReadHeaders, Judge;
    var inputs, sigs := ReadHeaders(env, call.req).inputs, ReadHeaders(env, call.req).sigs;
    var k: nat :| AcceptsAt(Job(env, st, call.req, inputs, sigs, call.clock), k, a);
    assert a.now == call.clock(k).now;
  }

  /** The freshness window of everything accepted. */
  lemma AcceptedIsFresh(env: Env, st: State, call: Call, a: Acceptance)
    requires Accepts(env, st, call, a)
    ensures a.Created() - env.cfg.skew <= a.now <= a.Expires() + env.cfg.skew
    ensures a.Expires() - a.Created() <= env.cfg.maxValidity
  {
    hide ReadHeaders, Judge, After, TextParam, IntParam;
    var inputs, sigs := ReadHeaders(env, call.req).inputs, ReadHeaders(env, call.req).sigs;
    var job := Job(env, st, call.req, inputs, sigs, call.clock);
    var k: nat :| AcceptsAt(job, k, a);
    VerifiedIffAcceptable(env, job.StateAt(k), call.req, inputs[k].lab, inputs[k].inner, sigs, call.clock(k));
    GatesPassIff(env, call.req, inputs[k].inner, call.clock(k).now);
    hide Gates, Resolution, SignatureStatus;
  }

  /** All times at which one signed parameter set is accepted lie within the validity cap plus twice
      the clock skew. */
  lemma AcceptanceTimesAreClose(env: Env, st: State, call: Call, a: Acceptance, st': State, call': Call, b: Acceptance)
    requires Accepts(env, st, call, a) && Accepts(env, st', call', b) && a.params == b.params
    ensures b.now - a.now <= env.cfg.maxValidity + 2 * env.cfg.skew
  {
    hide Accepts;
    AcceptedIsFresh(env, st, call, a);
    AcceptedIsFresh(env, st', call', b);
  }

  /** Without clock skew a signed parameter set with a nonce is VERIFIED at most once in a whole run. */
  lemma AtMostOnceWithoutSkew(env: Env, calls: seq<Call>, states: seq<State>, answers: seq<Answer>,
                              i: nat, j: nat, a: Acceptance, b: Acceptance)
    requires Run(env, calls, states, answers) && ClockForward(calls) && i < |calls| && j < |calls|
    requires Accepts(env, states[i], calls[i], a) && Accepts(env, states[j], calls[j], b)
    requires a.params == b.params && a.Nonce() != "" && env.cfg.skew <= 0
    ensures i == j
  {
    hide Accepts, CallStep, ClockForward;
    if i < j {
      AcceptedIsFresh(env, states[j], calls[j], b);
      NoReplayBeforeExpiry(env, calls, states, answers, i, j, a, b);
    } else if j < i {
      AcceptedIsFresh(env, states[i], calls[i], a);
      NoReplayBeforeExpiry(env, calls, states, answers, j, i, b, a);
    }
  }

  /** Every stored nonce was put there by an acceptance. */
  lemma {:induction false} StoredWasAccepted(env: Env, calls: seq<Call>, states: seq<State>, answers: seq<Answer>,
                                             i: nat, nonce: string)
    requires Run(env, calls, states, answers) && i <= |calls| && nonce in states[i].seen && states[0].seen == map[]
    ensures exists m, a :: 0 <= m < i && Accepts(env, states[m], calls[m], a)
                        && a.Nonce() == nonce && a.Expires() == states[i].seen[nonce]
  {
    hide IsAnswer, Accepts;
    if i > 0 {
      assert CallStep(env, calls, states, answers, i - 1);
      var e := states[i].seen[nonce];
      EntriesOfCall(env, states[i - 1], calls[i - 1], answers[i - 1], states[i], nonce, e);
      if Holds(states[i - 1].seen, nonce, e) {
        StoredWasAccepted(env, calls, states, answers, i - 1, nonce);
      }
    }
  }

  /** A nonce that survives eviction at `t` was accepted no earlier than the validity cap plus the clock
      skew before `t`, so the store holds only recent traffic. */
  lemma SurvivorsAreRecent(env: Env, calls: seq<Call>, states: seq<State>, answers: seq<Answer>, i: nat,
                           nonce: string, t: int)
    requires Run(env, calls, states, answers) && states[0].seen == map[]
    requires i <= |calls| && nonce in Live(states[i].seen, t)
    ensures exists m, a :: 0 <= m < i && Accepts(env, states[m], calls[m], a) && a.Nonce() == nonce
                        && a.now >= t - (env.cfg.maxValidity + env.cfg.skew)
  {
    hide Accepts, CallStep;
    StoredWasAccepted(env, calls, states, answers, i, nonce);
    var m, a :| 0 <= m < i && Accepts(env, states[m], calls[m], a)
      && a.Nonce() == nonce && a.Expires() == states[i].seen[nonce];
    AcceptedIsFresh(env, states[m], calls[m], a);
  }

  // ---------- the exact extent of a replay ----------

  /** Presenting an accepted label again: it is VERIFIED again exactly when it is still genuine and its
      `expires` has passed. */
  lemma SecondUseIffPastExpiry(env: Env, st: State, req: Request, lab: string, l: InnerList,
                               sigs: Signatures,
                               first: Tick, second: Tick)
    requires IsVerified(Judge(env, st, req, lab, l, sigs, first)) && TextParam(l.params, "nonce") != ""
    ensures var after := After(env, st, req, lab, l, sigs, first);
            IsVerified(Judge(env, after, req, lab, l, sigs, second))
            <==> Genuine(env, after, req, lab, l, sigs, second) && IntParam(l.params, "expires") < second.now
  {
    hide Judge, After, Genuine, TextParam, IntParam;
    var after := After(env, st, req, lab, l, sigs, first);
    VerifiedIffAcceptable(env, after, req, lab, l, sigs, second);
    AcceptedIsStored(env, st, req, lab, l, sigs, first, TextParam(l.params, "nonce"), IntParam(l.params, "expires"));
  }

  /** The clock skew opens such a moment: a label whose gates pass at all passes them at some time after
      its `expires` exactly when the skew is positive. */
  lemma TailIffPositiveSkew(env: Env, req: Request, l: InnerList, t: int)
    requires Gates(env, req, l, t).Pass?
    ensures (exists now :: Gates(env, req, l, now).Pass? && now > IntParam(l.params, "expires")) <==> env.cfg.skew > 0
  {
    hide Gates, AgentOf, WrongTyped, TagAccepted, MissingParam, AlgOf, TextParam, IntParam;
    GatesPassIff(env, req, l, t);
    var late := IntParam(l.params, "expires") + env.cfg.skew;
    GatesPassIff(env, req, l, late);
    if now :| Gates(env, req, l, now).Pass? && now > IntParam(l.params, "expires") {
      GatesPassIff(env, req, l, now);
    }
  }

  /** Asking the resolver the same again at the same time gives the same key. */
  lemma ResolveAgain(env: Env, s: Keys.State, keyid: string, agentUrl: Keys.AgentUrl, kind: string, t: Keys.Ticks)
    ensures var s' := Keys.AfterResolve(env.keyLib, env.keyCfg, env.world, s, keyid, agentUrl, kind, t);
            Keys.Resolve(env.keyLib, env.keyCfg, env.world, s', keyid, agentUrl, kind, t)
            == Keys.Resolve(env.keyLib, env.keyCfg, env.world, s, keyid, agentUrl, kind, t)
  {
    hide Keys.EntryOf, Keys.FetchUrl, Keys.FromEntry;
  }

  /** So with a positive skew at most once fails: a label accepted after its `expires` is accepted again
      at the very same moment. */
  lemma AcceptedTwiceInTail(env: Env, st: State, req: Request, lab: string, l: InnerList,
                            sigs: Signatures, tick: Tick)
    requires IsVerified(Judge(env, st, req, lab, l, sigs, tick)) && TextParam(l.params, "nonce") != ""
    requires IntParam(l.params, "expires") < tick.now
    ensures IsVerified(Judge(env, After(env, st, req, lab, l, sigs, tick), req, lab, l, sigs, tick))
  {
    hide Judge, Gates, Keys.Resolve, Keys.AfterResolve, AfterCall, TextParam, IntParam, SignatureStatus;
    VerifiedIffAcceptable(env, st, req, lab, l, sigs, tick);
    SecondUseIffPastExpiry(env, st, req, lab, l, sigs, tick, tick);
    var g := Gates(env, req, l, tick.now);
    ResolveAgain(env, st.keys, TextParam(l.params, "keyid"), g.agentUrl, g.kind, tick.keys);
  }

  /** Some two presentations of the label, in the order of the clock, are both VERIFIED. */
  ghost predicate TwiceVerified(env: Env, st: State, req: Request, lab: string, l: InnerList,
                                sigs: Signatures) {
    exists first: Tick, second: Tick :: first.now <= second.now
      && IsVerified(Judge(env, st, req, lab, l, sigs, first))
      && IsVerified(Judge(env, After(env, st, req, lab, l, sigs, first), req, lab, l, sigs, second))
  }

  /** What passing the gates yields does not depend on the time. */
  lemma SamePass(env: Env, req: Request, l: InnerList, s: int, t: int)
    requires Gates(env, req, l, s).Pass? && Gates(env, req, l, t).Pass?
    ensures Gates(env, req, l, s) == Gates(env, req, l, t)
  {
    hide AgentOf, WrongTyped, TagAccepted, MissingParam, AlgOf, TextParam, IntParam, Staleness;
  }

  /** A label without a nonce that is VERIFIED is VERIFIED again at the very same moment. */
  lemma AcceptedTwiceWithoutNonce(env: Env, st: State, req: Request, lab: string, l: InnerList,
                                  sigs: Signatures, tick: Tick)
    requires IsVerified(Judge(env, st, req, lab, l, sigs, tick)) && TextParam(l.params, "nonce") == ""
    ensures IsVerified(Judge(env, After(env, st, req, lab, l, sigs, tick), req, lab, l, sigs, tick))
  {
    hide Judge, Gates, Keys.Resolve, Keys.AfterResolve, AfterCall, TextParam, IntParam, SignatureStatus;
    var after := After(env, st, req, lab, l, sigs, tick);
    VerifiedIffAcceptable(env, st, req, lab, l, sigs, tick);
    VerifiedIffAcceptable(env, after, req, lab, l, sigs, tick);
    var g := Gates(env, req, l, tick.now);
    ResolveAgain(env, st.keys, TextParam(l.params, "keyid"), g.agentUrl, g.kind, tick.keys);
  }

  /** A genuine label with no nonce, or with a new one and past its `expires`, is VERIFIED twice at one
      moment. */
  lemma GenuineIsVerifiedTwice(env: Env, st: State, req: Request, lab: string, l: InnerList,
                               sigs: Signatures, tick: Tick)
    requires Genuine(env, st, req, lab, l, sigs, tick) && TextParam(l.params, "nonce") !in st.seen
    requires TextParam(l.params, "nonce") == "" || IntParam(l.params, "expires") < tick.now
    ensures IsVerified(Judge(env, st, req, lab, l, sigs, tick))
    ensures IsVerified(Judge(env, After(env, st, req, lab, l, sigs, tick), req, lab, l, sigs, tick))
  {
    hide Judge, After, Genuine, TextParam, IntParam;
    VerifiedIffAcceptable(env, st, req, lab, l, sigs, tick);
    if TextParam(l.params, "nonce") == "" {
      AcceptedTwiceWithoutNonce(env, st, req, lab, l, sigs, tick);
    } else {
      AcceptedTwiceInTail(env, st, req, lab, l, sigs, tick);
    }
  }

  /** A moment at which a genuine label is VERIFIED twice; `kt` is what the resolver's clock reads. */
  lemma VerifiedTwiceLate(env: Env, st: State, req: Request, lab: string, l: InnerList, sigs: Signatures,
                          t: int, kt: Keys.Ticks) returns (late: Tick)
    requires Genuine(env, st, req, lab, l, sigs, Tick(t, kt)) && TextParam(l.params, "nonce") !in st.seen
    requires TextParam(l.params, "nonce") == "" || env.cfg.skew > 0
    ensures IsVerified(Judge(env, st, req, lab, l, sigs, late))
    ensures IsVerified(Judge(env, After(env, st, req, lab, l, sigs, late), req, lab, l, sigs, late))
  {
    hide Judge, Gates, Keys.Resolve, TextParam, IntParam, SignatureStatus, After;
    late := Tick(t, kt);
    if TextParam(l.params, "nonce") != "" {
      TailIffPositiveSkew(env, req, l, t);
      var now :| Gates(env, req, l, now).Pass? && now > IntParam(l.params, "expires");
      SamePass(env, req, l, t, now);
      late := Tick(now, kt);
    }
    GenuineIsVerifiedTwice(env, st, req, lab, l, sigs, late);
  }

  /** Exactly when a signed label can be used twice, the verifier's clock and the resolver's being read
      independently (the verifier's is a parameter of its constructor): take any label that is genuine at some
      moment, `kt` being what the resolver's clock reads then, and whose nonce is not stored. It can be
      VERIFIED twice if and only if it has no nonce or the configured clock skew is positive. */
  lemma UsableTwiceIffPositiveSkew(env: Env, st: State, req: Request, lab: string, l: InnerList,
                                   sigs: Signatures, t: int, kt: Keys.Ticks)
    requires Genuine(env, st, req, lab, l, sigs, Tick(t, kt)) && TextParam(l.params, "nonce") !in st.seen
    ensures TwiceVerified(env, st, req, lab, l, sigs) <==> TextParam(l.params, "nonce") == "" || env.cfg.skew > 0
  {
    hide Judge, Gates, Keys.AfterResolve, TextParam, IntParam, SignatureStatus, After, Resolution;
    TailIffPositiveSkew(env, req, l, t);
    if TextParam(l.params, "nonce") == "" || env.cfg.skew > 0 {
      var late := VerifiedTwiceLate(env, st, req, lab, l, sigs, t, kt);
    } else if TwiceVerified(env, st, req, lab, l, sigs) {
      var first: Tick, second: Tick :| first.now <= second.now
        && IsVerified(Judge(env, st, req, lab, l, sigs, first))
        && IsVerified(Judge(env, After(env, st, req, lab, l, sigs, first), req, lab, l, sigs, second));
      SecondUseIffPastExpiry(env, st, req, lab, l, sigs, first, second);
    }
  }

  /** Calls `i` and `j` of the run present the request and are VERIFIED, as `a` and `b`. */
  ghost predicate BothAccept(env: Env, calls: seq<Call>, states: seq<State>, answers: seq<Answer>, req: Request,
                             i: nat, j: nat, a: Acceptance, b: Acceptance) {
    && Run(env, calls, states, answers) && ClockForward(calls)
    && i < j < |calls| && calls[i].req == calls[j].req == req
    && Accepts(env, states[i], calls[i], a) && Accepts(env, states[j], calls[j], b)
  }

  /** Two different calls of the run present the request and are VERIFIED. */
  ghost predicate AcceptsTwice(env: Env, calls: seq<Call>, states: seq<State>, answers: seq<Answer>, req: Request) {
    exists i: nat, j: nat, a, b :: BothAccept(env, calls, states, answers, req, i, j, a, b)
  }

  /** Some run from `st`, with a clock that does not go back, accepts the request twice. */
  ghost predicate AcceptedTwiceFrom(env: Env, st: State, req: Request) {
    exists calls, states, answers :: AcceptsTwice(env, calls, states, answers, req) && states != [] && states[0] == st
  }

  /** The same of whole calls of `verify`: for a request with one genuine label, some run accepts it twice if
      and only if the label has no nonce or the clock skew is positive. */
  lemma AcceptedTwiceIffPositiveSkew(env: Env, st: State, req: Request, lab: string, l: InnerList,
                                     sigs: Signatures, t: int, kt: Keys.Ticks)
    requires ReadHeaders(env, req) == Headers([Labelled(lab, l)], sigs)
    requires Genuine(env, st, req, lab, l, sigs, Tick(t, kt)) && TextParam(l.params, "nonce") !in st.seen
    ensures AcceptedTwiceFrom(env, st, req) <==> TextParam(l.params, "nonce") == "" || env.cfg.skew > 0
  {
    hide Genuine, ReadHeaders, TextParam, AcceptsTwice, Judge, After;
    if TextParam(l.params, "nonce") == "" || env.cfg.skew > 0 {
      var late := VerifiedTwiceLate(env, st, req, lab, l, sigs, t, kt);
      var calls, states, answers := TwoCalls(env, st, req, lab, l, sigs, late);
    }
    if calls, states, answers :| AcceptsTwice(env, calls, states, answers, req) && states != [] && states[0] == st {
      OnlyWithSkew(env, calls, states, answers, req, lab, l, sigs);
    }
  }

  lemma OnlyWithSkew(env: Env, calls: seq<Call>, states: seq<State>, answers: seq<Answer>, req: Request,
                     lab: string, l: InnerList, sigs: Signatures)
    requires ReadHeaders(env, req) == Headers([Labelled(lab, l)], sigs)
    requires AcceptsTwice(env, calls, states, answers, req)
    ensures TextParam(l.params, "nonce") == "" || env.cfg.skew > 0
  {
    hide ReadHeaders, TextParam, Accepts, ClockForward, Run;
    var i: nat, j: nat, a, b :| BothAccept(env, calls, states, answers, req, i, j, a, b);
    RunLengths(env, calls, states, answers);
    AcceptedIsTheLabel(env, states[i], calls[i], a, lab, l, sigs);
    AcceptedIsTheLabel(env, states[j], calls[j], b, lab, l, sigs);
    if TextParam(l.params, "nonce") != "" && env.cfg.skew <= 0 {
      AtMostOnceWithoutSkew(env, calls, states, answers, i, j, a, b);
    }
  }

  lemma RunLengths(env: Env, calls: seq<Call>, states: seq<State>, answers: seq<Answer>)
    requires Run(env, calls, states, answers)
    ensures |states| == |calls| + 1
  {
  }

  /** What accepting a request with one label means. */
  lemma AcceptedIsTheLabel(env: Env, st: State, call: Call, a: Acceptance, lab: string, l: InnerList,
                           sigs: Signatures)
    requires ReadHeaders(env, call.req) == Headers([Labelled(lab, l)], sigs) && Accepts(env, st, call, a)
    ensures a == Acceptance(l.params, call.clock(0).now)
    ensures Genuine(env, st, call.req, lab, l, sigs, call.clock(0))
  {
    hide ReadHeaders, Judge, After, Genuine;
    var job := Job(env, st, call.req, [Labelled(lab, l)], sigs, call.clock);
    var k: nat :| AcceptsAt(job, k, a);
    assert k == 0 && job.StateAt(0) == st;
    VerifiedIffAcceptable(env, st, call.req, lab, l, sigs, call.clock(0));
  }

  /** The run that presents the request twice at one moment. */
  lemma TwoCalls(env: Env, st: State, req: Request, lab: string, l: InnerList, sigs: Signatures, tick: Tick)
    returns (calls: seq<Call>, states: seq<State>, answers: seq<Answer>)
    requires ReadHeaders(env, req) == Headers([Labelled(lab, l)], sigs)
    requires IsVerified(Judge(env, st, req, lab, l, sigs, tick))
    requires IsVerified(Judge(env, After(env, st, req, lab, l, sigs, tick), req, lab, l, sigs, tick))
    ensures AcceptsTwice(env, calls, states, answers, req) && states != [] && states[0] == st
    ensures forall i, k: nat :: 0 <= i < |calls| ==> calls[i].clock(k) == tick
  {
    hide ReadHeaders, Judge, After;
    var call := Call.Call(req, k => tick);
    var mid := After(env, st, req, lab, l, sigs, tick);
    var first, second := Judge(env, st, req, lab, l, sigs, tick), Judge(env, mid, req, lab, l, sigs, tick);
    OneVerifiedCall(env, st, call, lab, l, sigs, tick);
    OneVerifiedCall(env, mid, call, lab, l, sigs, tick);
    calls := [call, call];
    states := [st, mid, After(env, mid, req, lab, l, sigs, tick)];
    answers := [first, second];
    hide IsAnswer, Accepts;
    assert CallStep(env, calls, states, answers, 0) && CallStep(env, calls, states, answers, 1);
    var a := Acceptance(l.params, tick.now);
    assert BothAccept(env, calls, states, answers, req, 0, 1, a, a);
  }

  /** A call whose one label is VERIFIED. */
  lemma OneVerifiedCall(env: Env, st: State, call: Call, lab: string, l: InnerList, sigs: Signatures,
                        tick: Tick)
    requires ReadHeaders(env, call.req) == Headers([Labelled(lab, l)], sigs) && call.clock(0) == tick
    requires IsVerified(Judge(env, st, call.req, lab, l, sigs, tick))
    ensures IsAnswer(env, st, call.req, call.clock, Judge(env, st, call.req, lab, l, sigs, tick),
                     After(env, st, call.req, lab, l, sigs, tick))
    ensures Accepts(env, st, call, Acceptance(l.params, tick.now))
  {
    hide ReadHeaders, Judge, After;
    var job := Job(env, st, call.req, [Labelled(lab, l)], sigs, call.clock);
    assert job.StateAt(0) == st;
    assert job.StateAt(1) == After(env, st, call.req, lab, l, sigs, tick);
    job.OneLabel(job.JudgeAt(0), job.StateAt(1));
    assert AcceptsAt(job, 0, Acceptance(l.params, tick.now));
  }
}
