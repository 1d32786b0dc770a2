/** One request through the gateway: verify, decide, append. */
module Gateway {
  import opened Wrappers
  import opened Outcomes
  import StructuredFields
  import SignatureBase
  import HeapQueue
  import NonceStore
  import Verifier
  import Policy
  import Audit
  import Json
  import Text

  const ADMIN_PREFIX := "/_kya"

  /** How reasons read, and how a parameter that is neither a string, an integer nor a truth value is
      written as JSON, if it can be. */
  datatype Library = Library(reason: Reason -> string, other: StructuredFields.BareItem -> Option<Json.Value>)

  datatype HttpRequest = HttpRequest(
    request: SignatureBase.Request, path: string, userAgent: string, clientKey: Option<string>)

  /** `RaisedEarly`: the key lookup raised, so there is no decision. `RaisedLate`: the entry could not be
      written as JSON, so there is a decision but no row. */
  datatype Reply = AdminPage | Handled(decision: Policy.Decision) | RaisedEarly | RaisedLate

  function ActionName(a: Policy.Action): string {
    match a
    case Allow => "allow"
    case Block => "block"
    case RateLimited => "rate_limit"
    case Charge => "charge"
  }

  /** A parameter as the log receives it. */
  function ParamCell(lib: Library, p: Option<StructuredFields.BareItem>): Option<Audit.Cell> {
    match p
    case None => Some(Json.Null)
    case Some(Str(s)) => Some(Json.String(s))
    case Some(Integer(i)) => Some(Json.Whole(i))
    case Some(Boolean(b)) => Some(Json.Flag(b))
    case Some(v) => lib.other(v)
  }

  function OptionalText(t: Option<string>): Audit.Cell {
    if t.Some? then Json.String(t.value) else Json.Null
  }

  function EntryOf(lib: Library, logOnly: bool, h: HttpRequest, res: VerificationResult,
                   d: Policy.Decision): Option<Audit.Entry> {
    var keyid :- ParamCell(lib, res.keyid);
    var tag :- ParamCell(lib, res.tag);
    Some(Audit.Entry(
      None, Json.String(h.request.verb), Json.String(h.path), Json.String(OutcomeValue(res.outcome)),
      Json.String(lib.reason(res.reason)), OptionalText(res.operator), keyid, tag,
      Json.String((if logOnly then "log-only:" else "") + ActionName(d.action)), Json.String(d.rule)))
  }

  /** What the log receives of a parameter. */
  predicate IsCell(lib: Library, p: Option<StructuredFields.BareItem>, cell: Audit.Cell) {
    match p
    case None => cell == Json.Null
    case Some(Str(s)) => cell == Json.String(s)
    case Some(Integer(i)) => cell == Json.Whole(i)
    case Some(Boolean(b)) => cell == Json.Flag(b)
    case Some(v) => lib.other(v) == Some(cell)
  }

  /** How outcomes and actions read. */
  predicate ReadsAs(o: Outcome, text: string) {
    text == match o
            case UNSIGNED => "unsigned"
            case VERIFIED => "verified"
            case INVALID => "invalid"
            case UNVERIFIED => "unverified"
  }

  predicate NamedAs(a: Policy.Action, text: string) {
    text == match a
            case Allow => "allow"
            case Block => "block"
            case RateLimited => "rate_limit"
            case Charge => "charge"
  }

  /** The row tells what was asked, how it was verified, and what was decided, marked when the gateway only
      logs. Key id and tag are what a TEXT column gives back of what the log received. */
  ghost predicate Tells(lib: Library, logOnly: bool, h: HttpRequest, res: VerificationResult, d: Policy.Decision,
                        ts: int, e: Audit.Entry) {
    && e.ts == Some(ts) && e.httpMethod == Json.String(h.request.verb) && e.path == Json.String(h.path)
    && (exists text :: ReadsAs(res.outcome, text) && e.outcome == Json.String(text))
    && e.reason == Json.String(lib.reason(res.reason))
    && (match res.operator case None => e.operator == Json.Null case Some(o) => e.operator == Json.String(o))
    && (exists cell :: IsCell(lib, res.keyid, cell) && Audit.IsStored(cell, e.keyid))
    && (exists cell :: IsCell(lib, res.tag, cell) && Audit.IsStored(cell, e.tag))
    && (exists name :: && NamedAs(d.action, name)
                       && e.decision == Json.String((if logOnly then "log-only:" else "") + name))
    && e.rule == Json.String(d.rule)
  }

  /** So text and nothing are told as they are. */
  lemma TextIsTold(lib: Library, p: Option<StructuredFields.BareItem>, stored: Audit.Cell)
    requires exists cell :: IsCell(lib, p, cell) && Audit.IsStored(cell, stored)
    ensures p == None ==> stored == Json.Null
    ensures p.Some? && p.value.Str? ==> stored == Json.String(p.value.s)
  {
  }

  lemma OutcomeNames()
    ensures "unsigned" != "verified" && "unsigned" != "invalid" && "unsigned" != "unverified"
    ensures "verified" != "invalid" && "verified" != "unverified" && "invalid" != "unverified"
  {
    assert |"unsigned"| == 8 && |"verified"| == 8 && |"invalid"| == 7 && |"unverified"| == 10;
    assert "unsigned"[0] == 'u' && "verified"[0] == 'v';
  }

  lemma ActionNames()
    ensures "allow"[0] == 'a' && "block"[0] == 'b' && "rate_limit"[0] == 'r' && "charge"[0] == 'c'
    ensures "log-only:"[0] == 'l'
  {
  }

  /** A row that tells two requests tells the same of both: verb, path, outcome, operator, action, whether the
      gateway only logged, rule, and time. */
  lemma RowDetermines(
      lib: Library, onlyA: bool, a: HttpRequest, resA: VerificationResult, dA: Policy.Decision, tsA: int,
      onlyB: bool, b: HttpRequest, resB: VerificationResult, dB: Policy.Decision, tsB: int, e: Audit.Entry)
    requires Tells(lib, onlyA, a, resA, dA, tsA, e) && Tells(lib, onlyB, b, resB, dB, tsB, e)
    ensures a.request.verb == b.request.verb && a.path == b.path && tsA == tsB
    ensures resA.outcome == resB.outcome && resA.operator == resB.operator
    ensures dA.action == dB.action && onlyA == onlyB && dA.rule == dB.rule
  {
    OutcomeNames();
    ActionNames();
    hide IsCell, Audit.IsStored;
    var x :| NamedAs(dA.action, x) && e.decision == Json.String((if onlyA then "log-only:" else "") + x);
    var y :| NamedAs(dB.action, y) && e.decision == Json.String((if onlyB then "log-only:" else "") + y);
    DecisionText(onlyA, x, onlyB, y);
  }

  lemma DecisionText(onlyA: bool, x: string, onlyB: bool, y: string)
    requires x != "" && y != "" && x[0] != 'l' && y[0] != 'l'
    requires (if onlyA then "log-only:" else "") + x == (if onlyB then "log-only:" else "") + y
    ensures onlyA == onlyB && x == y
  {
    ActionNames();
    var a, b := if onlyA then "log-only:" else "", if onlyB then "log-only:" else "";
    assert (a + x)[0] == if onlyA then 'l' else x[0];
    assert (b + y)[0] == if onlyB then 'l' else y[0];
    assert x == (a + x)[|a|..] && y == (b + y)[|b|..];
  }

  predicate AbsentOrText(p: Option<StructuredFields.BareItem>) {
    p.None? || p.value.Str?
  }

  /** The entry keeps the log intact when the request's key id and tag are absent or strings. */
  lemma EntryStorable(lib: Library, logOnly: bool, h: HttpRequest, res: VerificationResult, d: Policy.Decision)
    requires AbsentOrText(res.keyid) && AbsentOrText(res.tag)
    ensures EntryOf(lib, logOnly, h, res, d).Some? && Audit.Storable(EntryOf(lib, logOnly, h, res, d).value)
  {
  }

  /** Both of the request's parameters reach the log as text or nothing. */
  predicate ParamsStorable(lib: Library, res: VerificationResult) {
    && ParamCell(lib, res.keyid).Some? && Audit.TextOrNull(ParamCell(lib, res.keyid).value)
    && ParamCell(lib, res.tag).Some? && Audit.TextOrNull(ParamCell(lib, res.tag).value)
  }

  /** Exactly which requests leave a row that keeps an intact log intact: unless hashes collide, those whose
      key id and tag are logged as text or nothing. The row of any other is reported broken. */
  lemma RowKeepsLogIffStorable(lib: Library, logOnly: bool, h: HttpRequest, res: VerificationResult,
                               d: Policy.Decision, ts: int, hashing: Audit.Hashing, rows: seq<Audit.Row>, id: int)
    requires EntryOf(lib, logOnly, h, res, d).Some? && Audit.Sound(hashing) && Audit.Chain(hashing, rows)
    requires Audit.CollisionFree(hashing, Audit.AppendInputs(hashing, rows, StampedEntry(lib, logOnly, h, res, d, ts)))
    ensures var more := rows + [Audit.NewRow(hashing, rows, id, StampedEntry(lib, logOnly, h, res, d, ts))];
            && (Audit.Chain(hashing, more) <==> ParamsStorable(lib, res))
            && (!ParamsStorable(lib, res) ==> Audit.BreaksAt(hashing, more, |rows|))
  {
    hide Audit.Chain, Audit.BreaksAt, Audit.NewRow, Audit.HashInput, Audit.CollisionFree, Audit.Stored, Audit.Sound;
    hide Audit.AppendInputs;
    Audit.AppendKeepsIntactIffStorable(hashing, rows, id, StampedEntry(lib, logOnly, h, res, d, ts));
  }

  /** The entry as it is appended. */
  function StampedEntry(lib: Library, logOnly: bool, h: HttpRequest, res: VerificationResult, d: Policy.Decision,
                        ts: int): Audit.Entry
    requires EntryOf(lib, logOnly, h, res, d).Some?
  {
    EntryOf(lib, logOnly, h, res, d).value.(ts := Some(ts))
  }

  /** The row of a handled request tells all this. */
  lemma RowTells(lib: Library, logOnly: bool, h: HttpRequest, res: VerificationResult, d: Policy.Decision, ts: int,
                 e: Audit.Entry)
    requires EntryOf(lib, logOnly, h, res, d).Some? && e == Audit.Stored(StampedEntry(lib, logOnly, h, res, d, ts))
    ensures Tells(lib, logOnly, h, res, d, ts, e)
  {
    hide Text.Integer, Text.Thousandths;
    var given := EntryOf(lib, logOnly, h, res, d).value;
    ParamIsCell(lib, res.keyid);
    ParamIsCell(lib, res.tag);
    Audit.CellIs(given.keyid, e.keyid);
    Audit.CellIs(given.tag, e.tag);
    assert ReadsAs(res.outcome, OutcomeValue(res.outcome)) && NamedAs(d.action, ActionName(d.action));
    hide ParamCell, IsCell, Audit.IsStored, OutcomeValue, ActionName, ReadsAs, NamedAs;
  }

  lemma ParamIsCell(lib: Library, p: Option<StructuredFields.BareItem>)
    ensures ParamCell(lib, p).Some? ==> IsCell(lib, p, ParamCell(lib, p).value)
  {
  }

  /** A number or a truth value is not storable. */
  lemma NumbersAreNotStorable(lib: Library, res: VerificationResult, p: Option<StructuredFields.BareItem>)
    requires (p == res.keyid || p == res.tag) && IsNumberOrTruth(p)
    ensures !ParamsStorable(lib, res)
  {
  }

  predicate IsNumberOrTruth(p: Option<StructuredFields.BareItem>) {
    p.Some? && (p.value.Integer? || p.value.Boolean?)
  }

  /** A judged label can bring one of the two into the log: whatever its key id and tag are, they are
      reported, and only a label whose parameters have the right types is sure to be storable. */
  lemma WellTypedLabelIsStorable(env: Verifier.Env, st: Verifier.State, req: SignatureBase.Request, lab: string,
                                 l: StructuredFields.InnerList, sigs: Verifier.Signatures,
                                 tick: Verifier.Tick)
    requires Verifier.WrongTyped(l.params) == None
    requires Verifier.Judge(env, st, req, lab, l, sigs, tick).Result?
    ensures var r := Verifier.Judge(env, st, req, lab, l, sigs, tick).result;
            AbsentOrText(r.keyid) && AbsentOrText(r.tag)
  {
    Verifier.WrongTypedNone(l.params);
    hide Verifier.Gates, Verifier.Acceptable, Verifier.Resolution, Verifier.SignatureStatus, Verifier.WrongTyped;
  }

  /** So a label whose key id or tag is a number or a truth value is answered INVALID and leaves a row at
      which the log no longer verifies: the row was hashed with the value and gives back its text. */
  lemma NumericParamBreaksTheLog(
      env: Verifier.Env, st: Verifier.State, req: SignatureBase.Request, lab: string, l: StructuredFields.InnerList,
      sigs: Verifier.Signatures, tick: Verifier.Tick, lib: Library, logOnly: bool, h: HttpRequest,
      d: Policy.Decision, ts: int, hashing: Audit.Hashing, rows: seq<Audit.Row>, id: int)
    requires var keyid, tag := StructuredFields.Lookup(l.params, "keyid"), StructuredFields.Lookup(l.params, "tag");
             && (IsNumberOrTruth(keyid) || IsNumberOrTruth(tag))
             && ParamCell(lib, keyid).Some? && ParamCell(lib, tag).Some?
    requires Audit.Sound(hashing) && Audit.Chain(hashing, rows)
    ensures var a := Verifier.Judge(env, st, req, lab, l, sigs, tick);
            && a.Result? && a.result.outcome == INVALID && EntryOf(lib, logOnly, h, a.result, d).Some?
            && var e := StampedEntry(lib, logOnly, h, a.result, d, ts);
               Audit.CollisionFree(hashing, Audit.AppendInputs(hashing, rows, e))
               ==> Audit.BreaksAt(hashing, rows + [Audit.NewRow(hashing, rows, id, e)], |rows|)
  {
    hide Verifier.Judge, Audit.Chain, Audit.BreaksAt, Audit.NewRow, Audit.CollisionFree, Audit.Sound;
    hide Audit.AppendInputs, StructuredFields.Lookup;
    var keyid, tag := StructuredFields.Lookup(l.params, "keyid"), StructuredFields.Lookup(l.params, "tag");
    NumericParamIsReported(env, st, req, lab, l, sigs, tick);
    var r := Verifier.Judge(env, st, req, lab, l, sigs, tick).result;
    NumbersAreNotStorable(lib, r, if IsNumberOrTruth(keyid) then keyid else tag);
    var e := StampedEntry(lib, logOnly, h, r, d, ts);
    if Audit.CollisionFree(hashing, Audit.AppendInputs(hashing, rows, e)) {
      RowKeepsLogIffStorable(lib, logOnly, h, r, d, ts, hashing, rows, id);
    }
  }

  lemma NumericParamIsReported(env: Verifier.Env, st: Verifier.State, req: SignatureBase.Request, lab: string,
                               l: StructuredFields.InnerList, sigs: Verifier.Signatures,
                               tick: Verifier.Tick)
    requires IsNumberOrTruth(StructuredFields.Lookup(l.params, "keyid"))
          || IsNumberOrTruth(StructuredFields.Lookup(l.params, "tag"))
    ensures var a := Verifier.Judge(env, st, req, lab, l, sigs, tick);
            && a.Result? && a.result.outcome == INVALID
            && a.result.keyid == StructuredFields.Lookup(l.params, "keyid")
            && a.result.tag == StructuredFields.Lookup(l.params, "tag")
  {
    Verifier.WrongTypedNone(l.params);
    hide Verifier.WrongTyped, Verifier.Resolution, Verifier.SignatureStatus, Verifier.Acceptable;
    assert !Verifier.HasType(l.params, "keyid", false) || !Verifier.HasType(l.params, "tag", false);
    assert Verifier.Gates(env, req, l, tick.now).Stop?;
  }

  // ---------- one request, as a step ----------

  /** Everything a gateway is set up with. */
  datatype Setup = Setup(
    lib: Library, logOnly: bool, env: Verifier.Env, policyLib: Policy.Library, rules: seq<Policy.Rule>,
    default: Policy.Action, hashing: Audit.Hashing)

  /** What it changes. */
  datatype State = State(verifier: Verifier.State, hits: Policy.Hits, table: seq<Audit.Row>, nextId: int)

  /** A request, and the readings of the clocks while it is handled. */
  datatype Incoming = Incoming(h: HttpRequest, clock: Verifier.Clock, decideAt: int, appendAt: int)

  function DecisionOn(g: Setup, hits: Policy.Hits, i: Incoming, res: VerificationResult): Policy.Decision {
    Policy.Decide(g.policyLib, g.rules, g.default, hits, CallOf(i.h, res, i.decideAt))
  }

  /** What an admin page leaves alone; what an exception from `verify` leaves alone; and otherwise the
      decision, the deques after it, and the row, unless the entry cannot be written as JSON. */
  ghost predicate Step(g: Setup, s: State, i: Incoming, reply: Reply, res: VerificationResult, s': State) {
    if ADMIN_PREFIX <= i.h.path then reply == AdminPage && s' == s
    else
      && !reply.AdminPage?
      && Verifier.IsAnswer(g.env, s.verifier, i.h.request, i.clock,
                           if reply.RaisedEarly? then Verifier.Escaped else Verifier.Result(res), s'.verifier)
      && if reply.RaisedEarly? then s'.hits == s.hits && s'.table == s.table && s'.nextId == s.nextId
         else
           && s'.hits == Policy.AfterDecide(g.policyLib, g.rules, s.hits, CallOf(i.h, res, i.decideAt))
           && var d := DecisionOn(g, s.hits, i, res);
              if EntryOf(g.lib, g.logOnly, i.h, res, d).None? then
                reply == RaisedLate && s'.table == s.table && s'.nextId == s.nextId
              else
                var e := StampedEntry(g.lib, g.logOnly, i.h, res, d, i.appendAt);
                && reply == Handled(d) && s'.nextId == s.nextId + 1
                && s'.table == s.table + [Audit.NewRow(g.hashing, s.table, s.nextId, e)]
  }

  /** An intact log stays intact when key id and tag are absent or strings; and, unless hashes collide, a
      handled request keeps it intact if and only if they are logged as text or nothing. */
  ghost predicate KeepsLog(g: Setup, s: State, i: Incoming, reply: Reply, res: VerificationResult, s': State) {
    Audit.Chain(g.hashing, s.table) ==>
      && ((reply.Handled? ==> AbsentOrText(res.keyid) && AbsentOrText(res.tag)) ==> Audit.Chain(g.hashing, s'.table))
      && (reply.Handled? && EntryOf(g.lib, g.logOnly, i.h, res, reply.decision).Some? && Audit.Sound(g.hashing) ==>
            var e := StampedEntry(g.lib, g.logOnly, i.h, res, reply.decision, i.appendAt);
            Audit.CollisionFree(g.hashing, Audit.AppendInputs(g.hashing, s.table, e))
            ==> (Audit.Chain(g.hashing, s'.table) <==> ParamsStorable(g.lib, res)))
  }

  /** There is no decision exactly when `verify` raises. */
  ghost predicate RaisesWithVerify(g: Setup, s: State, i: Incoming, reply: Reply) {
    !reply.AdminPage? ==>
      (reply.RaisedEarly?
       <==> exists after :: Verifier.IsAnswer(g.env, s.verifier, i.h.request, i.clock, Verifier.Escaped, after))
  }

  lemma StepFacts(g: Setup, s: State, i: Incoming, reply: Reply, res: VerificationResult, s': State)
    requires Step(g, s, i, reply, res, s')
    ensures KeepsLog(g, s, i, reply, res, s') && RaisesWithVerify(g, s, i, reply)
  {
    hide Verifier.IsAnswer, Policy.Decide, Policy.AfterDecide, Audit.Chain, Audit.NewRow, EntryOf, Audit.Storable;
    hide Audit.Sound, Audit.CollisionFree, Audit.AppendInputs, Audit.BreaksAt, ParamsStorable, KeepsLog;
    if !reply.AdminPage? && !reply.RaisedEarly? {
      DoesNotEscape(g.env, s.verifier, i.h.request, i.clock, Verifier.Result(res), s'.verifier);
    }
    StepKeepsLog(g, s, i, reply, res, s');
  }

  lemma StepKeepsLog(g: Setup, s: State, i: Incoming, reply: Reply, res: VerificationResult, s': State)
    requires Step(g, s, i, reply, res, s')
    ensures KeepsLog(g, s, i, reply, res, s')
  {
    hide Verifier.IsAnswer, Policy.Decide, Policy.AfterDecide, Audit.Chain, Audit.NewRow, EntryOf, Audit.Storable;
    hide Audit.Sound, Audit.CollisionFree, Audit.AppendInputs, Audit.BreaksAt, ParamsStorable;
    if reply.Handled? && Audit.Chain(g.hashing, s.table) {
      var e := StampedEntry(g.lib, g.logOnly, i.h, res, reply.decision, i.appendAt);
      if AbsentOrText(res.keyid) && AbsentOrText(res.tag) {
        EntryStorable(g.lib, g.logOnly, i.h, res, reply.decision);
        TsIsFree(EntryOf(g.lib, g.logOnly, i.h, res, reply.decision).value, i.appendAt);
        StorableRowKeepsLog(g.hashing, s.table, s.nextId, e);
      }
      if Audit.Sound(g.hashing) && Audit.CollisionFree(g.hashing, Audit.AppendInputs(g.hashing, s.table, e)) {
        RowKeepsLogIffStorable(g.lib, g.logOnly, i.h, res, reply.decision, i.appendAt, g.hashing, s.table, s.nextId);
      }
    }
  }

  /** A handled request leaves a row that tells it, and a decision that obeys the rules. */
  lemma StepTells(g: Setup, s: State, i: Incoming, reply: Reply, res: VerificationResult, s': State)
    requires Step(g, s, i, reply, res, s') && reply.Handled?
    ensures |s'.table| == |s.table| + 1
    ensures Tells(g.lib, g.logOnly, i.h, res, reply.decision, i.appendAt, s'.table[|s.table|].entry)
    ensures Policy.Decides(g.policyLib, g.rules, g.default,
                           Policy.Call(res, i.h.request.verb, i.h.path, i.h.userAgent, i.h.clientKey, i.decideAt),
                           s.hits, reply.decision, s'.hits)
  {
    hide Verifier.IsAnswer, Policy.Decide, Policy.AfterDecide, Policy.Decides, EntryOf, Tells, Audit.Stored, Audit.Hash;
    Policy.DecidesIff(g.policyLib, g.rules, g.default, CallOf(i.h, res, i.decideAt), s.hits, reply.decision, s'.hits);
    RowTells(g.lib, g.logOnly, i.h, res, reply.decision, i.appendAt, s'.table[|s.table|].entry);
  }

  lemma OnlyAdminPages(g: Setup, s: State, i: Incoming, reply: Reply, res: VerificationResult, s': State)
    requires Step(g, s, i, reply, res, s')
    ensures reply.AdminPage? <==> "/_kya" <= i.h.path
  {
    hide Verifier.IsAnswer, Policy.Decide, Policy.AfterDecide, EntryOf, Audit.NewRow;
  }

  lemma StorableRowKeepsLog(hashing: Audit.Hashing, rows: seq<Audit.Row>, id: int, e: Audit.Entry)
    requires Audit.Chain(hashing, rows) && Audit.Storable(e)
    ensures Audit.Chain(hashing, rows + [Audit.NewRow(hashing, rows, id, e)])
  {
    hide Audit.LinkOk, Audit.NewRow, Audit.Storable;
    var more := rows + [Audit.NewRow(hashing, rows, id, e)];
    assert rows[..|rows|] == rows && more[..|more|] == more;
    Audit.AppendKeepsBreak(hashing, rows, id, e, |rows|);
  }

  class Middleware {
    const lib: Library
    const logOnly: bool
    const verifier: Verifier.Verifier
    const policy: Policy.PolicyEngine
    const audit: Audit.AuditLog

    constructor (lib: Library, logOnly: bool, verifier: Verifier.Verifier, policy: Policy.PolicyEngine,
                 audit: Audit.AuditLog)
      ensures this.lib == lib && this.logOnly == logOnly
      ensures this.verifier == verifier && this.policy == policy && this.audit == audit
    {
      this.lib, this.logOnly, this.verifier, this.policy, this.audit := lib, logOnly, verifier, policy, audit;
    }

    ghost function Settings(): Setup {
      Setup(lib, logOnly, verifier.env, policy.lib, policy.rules, policy.default, audit.hashing)
    }

    ghost function Now(): State
      reads verifier.resolver, verifier.nonces, policy, audit
    {
      State(verifier.Now(), policy.hits, audit.table, audit.nextId)
    }

    /** `dispatch`, up to the answer. It is one step; a row keeps an intact log intact if and only if key id
        and tag are logged as text or nothing; and it raises early if and only if `verify` does. */
    method Dispatch(i: Incoming) returns (reply: Reply, ghost res: VerificationResult)
      requires verifier.Ready() && audit.Valid()
      modifies verifier.resolver`cache, verifier.resolver`fetches, verifier.nonces.Repr(), policy`hits, audit
      ensures verifier.Ready() && audit.Valid()
      ensures Step(Settings(), old(Now()), i, reply, res, Now())
      ensures KeepsLog(Settings(), old(Now()), i, reply, res, Now())
      ensures RaisesWithVerify(Settings(), old(Now()), i, reply)
      ensures reply.AdminPage? <==> "/_kya" <= i.h.path
      ensures reply.Handled? ==>
                && |audit.table| == old(|audit.table|) + 1
                && Tells(lib, logOnly, i.h, res, reply.decision, i.appendAt, audit.table[|audit.table| - 1].entry)
                && Policy.Decides(policy.lib, policy.rules, policy.default,
                                  Policy.Call(res, i.h.request.verb, i.h.path, i.h.userAgent, i.h.clientKey,
                                              i.decideAt),
                                  old(policy.hits), reply.decision, policy.hits)
    {
      hide KeepsLog, RaisesWithVerify, Step, Tells, Policy.Decides;
      ghost var before := Now();
      reply, res := Handle(i);
      StepFacts(Settings(), before, i, reply, res, Now());
      OnlyAdminPages(Settings(), before, i, reply, res, Now());
      if reply.Handled? {
        StepTells(Settings(), before, i, reply, res, Now());
      }
    }

    method Handle(i: Incoming) returns (reply: Reply, ghost res: VerificationResult)
      requires verifier.Ready() && audit.Valid()
      modifies verifier.resolver`cache, verifier.resolver`fetches, verifier.nonces.Repr(), policy`hits, audit
      ensures verifier.Ready() && audit.Valid()
      ensures Step(Settings(), old(Now()), i, reply, res, Now())
    {
      hide Verifier.IsAnswer, Policy.Decide, Policy.AfterDecide, Audit.Chain, Audit.BreaksAt;
      hide HeapQueue.IsHeap, NonceStore.Mirrors, EntryOf, Audit.Storable, Audit.NewRow, Audit.Records, Policy.Decides;
      res := Verifier.Refusal(Good);
      if ADMIN_PREFIX <= i.h.path {
        return AdminPage, res;
      }
      var answer, _ := verifier.Verify(i.h.request, i.clock);
      if answer.Escaped? {
        return RaisedEarly, res;
      }
      res := answer.result;
      var decision := policy.Evaluate(CallOf(i.h, answer.result, i.decideAt));
      var entry := EntryOf(lib, logOnly, i.h, answer.result, decision);
      if entry.None? {
        return RaisedLate, res;
      }
      var _ := audit.Append(entry.value, false, i.appendAt);
      return Handled(decision), res;
    }
  }

  /** A request that is answered does not raise. */
  lemma DoesNotEscape(env: Verifier.Env, st: Verifier.State, req: SignatureBase.Request, clock: Verifier.Clock,
                      answer: Verifier.Answer, after: Verifier.State)
    requires Verifier.IsAnswer(env, st, req, clock, answer, after) && answer.Result?
    ensures forall s :: !Verifier.IsAnswer(env, st, req, clock, Verifier.Escaped, s)
  {
    hide Verifier.IsAnswer;
    forall s
      ensures !Verifier.IsAnswer(env, st, req, clock, Verifier.Escaped, s)
    {
      if Verifier.IsAnswer(env, st, req, clock, Verifier.Escaped, s) {
        Verifier.AnswerIsUnique(env, st, req, clock, answer, after, Verifier.Escaped, s);
      }
    }
  }

  function CallOf(h: HttpRequest, res: VerificationResult, now: int): Policy.Call {
    Policy.Call(res, h.request.verb, h.path, h.userAgent, h.clientKey, now)
  }

  lemma TsIsFree(e: Audit.Entry, ts: int)
    requires Audit.Storable(e)
    ensures Audit.Storable(e.(ts := Some(ts)))
  {
  }
}
