/** The tamper-evident audit log: rows chained by SHA-256 over a canonical payload.

    SHA-256 is a parameter. No function from all strings to 64 characters is injective, so collision
    freedom is always stated of the finitely many strings the logs at hand hash. */
module Audit {
  import opened Wrappers
  import Json
  import Text

  type Sha = string -> string

  /** What a chain is built with: a digest, and the text an entry contributes. The chain properties hold of
      any `Sound` pair; `Canonical` is the pair the gateway uses. */
  datatype Hashing = Hashing(sha: Sha, payload: Entry -> string)

  function Zeros(n: nat): (s: string)
    ensures |s| == n
  {
    if n == 0 then "" else "0" + Zeros(n - 1)
  }

  const GENESIS: string := Zeros(64)

  type Cell = Json.Value

  /** `ts` in milliseconds; the other columns are declared TEXT, but a request's `keyid` and `tag` reach
      the log as the parser left them. */
  datatype Entry = Entry(
    ts: Option<int>, httpMethod: Cell, path: Cell, outcome: Cell, reason: Cell,
    operator: Cell, keyid: Cell, tag: Cell, decision: Cell, rule: Cell)

  datatype Row = Row(id: int, entry: Entry, prevHash: string, hash: string)

  datatype Verdict = Intact(entries: nat) | BrokenAt(id: int)

  // ---------- the canonical payload ----------

  const FIELD_COUNT := 10

  /** The names of the fields, sorted as `sort_keys` does. */
  function FieldName(i: nat): string {
    match i
    case 0 => "decision"
    case 1 => "keyid"
    case 2 => "method"
    case 3 => "operator"
    case 4 => "outcome"
    case 5 => "path"
    case 6 => "reason"
    case 7 => "rule"
    case 8 => "tag"
    case _ => "ts"
  }

  lemma FieldsSorted(i: nat)
    requires i + 1 < FIELD_COUNT
    ensures Text.StringLess(FieldName(i), FieldName(i + 1))
  {
    Text.LessAt(FieldName(i), FieldName(i + 1), if i == 3 || i == 6 || i == 8 then 1 else 0);
  }

  function FieldValue(e: Entry, i: nat): Cell {
    match i
    case 0 => e.decision
    case 1 => e.keyid
    case 2 => e.httpMethod
    case 3 => e.operator
    case 4 => e.outcome
    case 5 => e.path
    case 6 => e.reason
    case 7 => e.rule
    case 8 => e.tag
    case _ => if e.ts.Some? then Json.Number(e.ts.value) else Json.Null
  }

  function Members(e: Entry, i: nat := 0): (ms: seq<Json.Member>)
    requires i <= FIELD_COUNT
    ensures |ms| == FIELD_COUNT - i
    ensures forall j :: 0 <= j < |ms| ==> ms[j] == Json.Member(FieldName(i + j), FieldValue(e, i + j))
    decreases FIELD_COUNT - i
  {
    if i == FIELD_COUNT then [] else [Json.Member(FieldName(i), FieldValue(e, i))] + Members(e, i + 1)
  }

  /** `json.dumps({k: entry.get(k) for k in FIELDS}, sort_keys=True, separators=(",", ":"))`. */
  function Payload(e: Entry): string {
    Json.EncodeObject(Members(e))
  }

  /** A member of an object as it is written. */
  function Written(name: string, c: Cell): string {
    "\"" + name + "\":" + Json.Encode(c)
  }

  /** The payload as it is written: the ten columns under their names in alphabetical order, `ts` as a number. */
  lemma PayloadIs(e: Entry)
    ensures var ts := if e.ts == None then Json.Null else Json.Number(e.ts.value);
            Payload(e) == "{" + Text.Join(',', [Written("decision", e.decision), Written("keyid", e.keyid),
                                                Written("method", e.httpMethod), Written("operator", e.operator),
                                                Written("outcome", e.outcome), Written("path", e.path),
                                                Written("reason", e.reason), Written("rule", e.rule),
                                                Written("tag", e.tag), Written("ts", ts)]) + "}"
  {
    hide Json.EncodeObject, Text.Join, Json.EncodeMember, Written, Members;
    var ts := if e.ts == None then Json.Null else Json.Number(e.ts.value);
    var texts := [Written("decision", e.decision), Written("keyid", e.keyid), Written("method", e.httpMethod),
                  Written("operator", e.operator), Written("outcome", e.outcome), Written("path", e.path),
                  Written("reason", e.reason), Written("rule", e.rule), Written("tag", e.tag), Written("ts", ts)];
    forall i | 0 <= i < 10
      ensures texts[i] == Json.EncodeMember(Members(e)[i])
    {
      MemberIsWritten(i, FieldValue(e, i));
    }
    Json.ObjectIsJoined(Members(e), texts);
  }

  lemma MemberIsWritten(i: nat, c: Cell)
    requires i < FIELD_COUNT
    ensures Json.EncodeMember(Json.Member(FieldName(i), c)) == Written(FieldName(i), c)
  {
    PlainNames(i);
    hide FieldName, Json.Encode;
    var name := FieldName(i);
    Json.PlainIsItself(name);
    hide Json.Quote;
    assert "\"" + name + "\"" + ":" == "\"" + name + "\":";
  }

  lemma PlainNames(i: nat)
    ensures forall c :: c in FieldName(i) ==> Json.IsPlain(c)
  {
  }

  function TimeOf(c: Cell): Option<int> {
    match c
    case Number(n) => Some(n)
    case _ => None
  }

  /** Reads an entry back from its payload. */
  function ParsePayload(s: string): Option<Entry> {
    var ms :- Json.ParseObject(s);
    if |ms| != FIELD_COUNT then None
    else Some(Entry(
      TimeOf(ms[9].value), ms[2].value, ms[5].value, ms[4].value, ms[6].value, ms[3].value,
      ms[1].value, ms[8].value, ms[0].value, ms[7].value))
  }

  lemma PayloadRoundTrip(e: Entry)
    ensures ParsePayload(Payload(e)) == Some(e)
  {
    hide Json.EncodeObject, Json.ParseObject, Members;
    Json.ObjectRoundTrip(Members(e));
  }

  function Canonical(sha: Sha): Hashing {
    Hashing(sha, e => Payload(e))
  }

  /** Digests have 64 characters and different entries have different payloads. */
  ghost predicate Sound(h: Hashing) {
    (forall s :: |h.sha(s)| == 64) && (forall d, e :: h.payload(d) == h.payload(e) ==> d == e)
  }

  /** All that is asked of the gateway's hashing is that SHA-256 prints 64 characters: its payload
      determines the entry. */
  lemma CanonicalIsSound(sha: Sha)
    requires forall s :: |sha(s)| == 64
    ensures Sound(Canonical(sha))
  {
    hide Payload, ParsePayload;
    var h := Canonical(sha);
    forall d, e | h.payload(d) == h.payload(e)
      ensures d == e
    {
      PayloadRoundTrip(d);
      PayloadRoundTrip(e);
    }
  }

  function HashInput(h: Hashing, prev: string, e: Entry): string {
    prev + h.payload(e)
  }

  function Hash(h: Hashing, prev: string, e: Entry): string {
    h.sha(HashInput(h, prev, e))
  }

  /** What is hashed determines the previous hash and every field, since previous hashes have 64
      characters. */
  lemma HashInputInjective(h: Hashing, p: string, d: Entry, q: string, e: Entry)
    requires Sound(h) && |p| == |q| && HashInput(h, p, d) == HashInput(h, q, e)
    ensures p == q && d == e
  {
    assert p == HashInput(h, p, d)[..|p|] && h.payload(d) == HashInput(h, p, d)[|p|..];
    assert q == HashInput(h, q, e)[..|q|] && h.payload(e) == HashInput(h, q, e)[|q|..];
  }

  // ---------- chains ----------

  /** The hash the next row must name: the last row's, or GENESIS for the empty table. */
  function Head(rows: seq<Row>): string {
    if rows == [] then GENESIS else rows[|rows| - 1].hash
  }

  predicate LinkOk(h: Hashing, rows: seq<Row>, i: nat)
    requires i < |rows|
  {
    rows[i].prevHash == Head(rows[..i]) && Hash(h, rows[i].prevHash, rows[i].entry) == rows[i].hash
  }

  predicate Chain(h: Hashing, rows: seq<Row>) {
    forall i :: 0 <= i < |rows| ==> LinkOk(h, rows, i)
  }

  /** The first `k` rows link and the row at `k`, if there is one, does not. */
  predicate BreaksAt(h: Hashing, rows: seq<Row>, k: nat) {
    k <= |rows| && Chain(h, rows[..k]) && (k < |rows| ==> !LinkOk(h, rows, k))
  }

  function VerdictAt(rows: seq<Row>, k: nat): Verdict
    requires k <= |rows|
  {
    if k == |rows| then Intact(k) else BrokenAt(rows[k].id)
  }

  lemma PrefixLinks(h: Hashing, rows: seq<Row>, k: nat)
    requires k <= |rows|
    ensures forall i :: 0 <= i < k ==> LinkOk(h, rows[..k], i) == LinkOk(h, rows, i)
    ensures Chain(h, rows) ==> Chain(h, rows[..k])
  {
    hide Hash, Head;
    forall i | 0 <= i < k
      ensures LinkOk(h, rows[..k], i) == LinkOk(h, rows, i)
    {
      assert rows[..k][..i] == rows[..i];
    }
  }

  lemma BreakIsUnique(h: Hashing, rows: seq<Row>, j: nat, k: nat)
    requires BreaksAt(h, rows, j) && BreaksAt(h, rows, k)
    ensures j == k
  {
    hide LinkOk;
    PrefixLinks(h, rows, j);
    PrefixLinks(h, rows, k);
  }

  // ---------- hypotheses on the hash ----------

  /** The strings a table claims to have hashed. */
  ghost function Inputs(h: Hashing, rows: seq<Row>): set<string> {
    set i | 0 <= i < |rows| :: HashInput(h, rows[i].prevHash, rows[i].entry)
  }

  /** No two of these strings collide and none is a preimage of GENESIS. */
  ghost predicate CollisionFree(h: Hashing, inputs: set<string>) {
    && (forall x, y :: x in inputs && y in inputs && h.sha(x) == h.sha(y) ==> x == y)
    && (forall x :: x in inputs ==> h.sha(x) != GENESIS)
  }

  /** The tables agree in everything but their ids. */
  ghost predicate SameContent(a: seq<Row>, b: seq<Row>) {
    |a| == |b| && forall i :: 0 <= i < |a| ==> a[i].(id := 0) == b[i].(id := 0)
  }

  /** Whether and where a table breaks does not depend on its ids. */
  lemma IdsAreFree(h: Hashing, a: seq<Row>, b: seq<Row>, k: nat)
    requires SameContent(a, b)
    ensures BreaksAt(h, a, k) <==> BreaksAt(h, b, k)
    ensures Chain(h, a) <==> Chain(h, b)
  {
    hide LinkOk, Chain;
    SameLinks(h, a, b);
    if k <= |a| {
      SameLinks(h, a[..k], b[..k]);
    }
  }

  lemma SameLinks(h: Hashing, a: seq<Row>, b: seq<Row>)
    requires SameContent(a, b)
    ensures forall i :: 0 <= i < |a| ==> LinkOk(h, a, i) == LinkOk(h, b, i)
    ensures Chain(h, a) <==> Chain(h, b)
  {
    hide Hash;
    forall i | 0 <= i < |a|
      ensures LinkOk(h, a, i) == LinkOk(h, b, i)
    {
      assert a[i].(id := 0) == b[i].(id := 0);
      assert Head(a[..i]) == Head(b[..i]) by {
        if i > 0 { assert a[i - 1].(id := 0) == b[i - 1].(id := 0); }
      }
    }
  }

  /** In a chain every previous hash is a digest or GENESIS, so it has 64 characters. */
  lemma PrevLength(h: Hashing, rows: seq<Row>, i: nat)
    requires Sound(h) && Chain(h, rows) && i < |rows|
    ensures |rows[i].prevHash| == 64
  {
    hide HashInput;
    assert LinkOk(h, rows, i);
    if i > 0 {
      assert LinkOk(h, rows, i - 1);
      assert Head(rows[..i]) == rows[i - 1].hash;
    }
  }

  /** Rows of two chains with equal hashes agree on what they hashed. */
  lemma EqualHashEqualRow(h: Hashing, a: seq<Row>, i: nat, b: seq<Row>, j: nat)
    requires Sound(h) && Chain(h, a) && Chain(h, b) && i < |a| && j < |b|
    requires CollisionFree(h, Inputs(h, a) + Inputs(h, b)) && a[i].hash == b[j].hash
    ensures a[i].prevHash == b[j].prevHash && a[i].entry == b[j].entry
  {
    hide HashInput, Head;
    assert LinkOk(h, a, i) && LinkOk(h, b, j);
    PrevLength(h, a, i);
    PrevLength(h, b, j);
    assert HashInput(h, a[i].prevHash, a[i].entry) in Inputs(h, a);
    assert HashInput(h, b[j].prevHash, b[j].entry) in Inputs(h, b);
    HashInputInjective(h, a[i].prevHash, a[i].entry, b[j].prevHash, b[j].entry);
  }

  lemma HashIsNotGenesis(h: Hashing, rows: seq<Row>, i: nat)
    requires Chain(h, rows) && CollisionFree(h, Inputs(h, rows)) && i < |rows|
    ensures rows[i].hash != GENESIS
  {
    hide HashInput, Head;
    assert LinkOk(h, rows, i);
    assert HashInput(h, rows[i].prevHash, rows[i].entry) in Inputs(h, rows);
  }

  // ---------- properties of chains ----------

  /** All hashes along a chain are distinct. */
  lemma {:induction false} HashesDistinct(h: Hashing, rows: seq<Row>, i: nat, j: nat)
    requires Sound(h) && Chain(h, rows) && CollisionFree(h, Inputs(h, rows))
    requires i < j < |rows|
    ensures rows[i].hash != rows[j].hash
  {
    hide CollisionFree, Inputs, Hash;
    if rows[i].hash == rows[j].hash {
      assert Inputs(h, rows) + Inputs(h, rows) == Inputs(h, rows);
      EqualHashEqualRow(h, rows, i, rows, j);
      assert LinkOk(h, rows, i) && LinkOk(h, rows, j);
      HashIsNotGenesis(h, rows, j - 1);
      if i > 0 {
        HashesDistinct(h, rows, i - 1, j - 1);
      }
      assert false;
    }
  }

  /** The head hash commits to the whole log: two intact logs with the same head are the same log,
      whatever their lengths and even if every hash of one was recomputed. */
  lemma {:induction false} SameHeadSameLog(h: Hashing, a: seq<Row>, b: seq<Row>)
    requires Sound(h) && Chain(h, a) && Chain(h, b)
    requires CollisionFree(h, Inputs(h, a) + Inputs(h, b)) && Head(a) == Head(b)
    ensures SameContent(a, b)
  {
    hide Hash, HashInput, LinkOk, Inputs, CollisionFree, Chain, Zeros;
    FewerInputs(h, Inputs(h, a), Inputs(h, a) + Inputs(h, b));
    FewerInputs(h, Inputs(h, b), Inputs(h, a) + Inputs(h, b));
    HeadIsGenesis(h, a);
    HeadIsGenesis(h, b);
    if a != [] && b != [] {
      var m, n := |a| - 1, |b| - 1;
      EqualHashEqualRow(h, a, m, b, n);
      LinkAt(h, a, m);
      LinkAt(h, b, n);
      PrefixLinks(h, a, m);
      PrefixLinks(h, b, n);
      PrefixInputs(h, a, m);
      PrefixInputs(h, b, n);
      FewerInputs(h, Inputs(h, a[..m]) + Inputs(h, b[..n]), Inputs(h, a) + Inputs(h, b));
      SameHeadSameLog(h, a[..m], b[..n]);
    }
  }

  lemma LinkAt(h: Hashing, rows: seq<Row>, i: nat)
    requires Chain(h, rows) && i < |rows|
    ensures rows[i].prevHash == Head(rows[..i])
    ensures Hash(h, rows[i].prevHash, rows[i].entry) == rows[i].hash
  {
    assert LinkOk(h, rows, i);
  }

  lemma PrefixInputs(h: Hashing, rows: seq<Row>, k: nat)
    requires k <= |rows|
    ensures Inputs(h, rows[..k]) <= Inputs(h, rows)
  {
  }

  lemma FewerInputs(h: Hashing, few: set<string>, many: set<string>)
    requires few <= many && CollisionFree(h, many)
    ensures CollisionFree(h, few)
  {
  }

  lemma HeadIsGenesis(h: Hashing, rows: seq<Row>)
    requires Chain(h, rows) && CollisionFree(h, Inputs(h, rows))
    ensures Head(rows) == GENESIS <==> rows == []
  {
    if rows != [] {
      HashIsNotGenesis(h, rows, |rows| - 1);
    }
  }

  // ---------- reordering, deleting, duplicating ----------

  /** The rows of `log` at the given positions, in that order. */
  function Draw(log: seq<Row>, picks: seq<nat>): (rows: seq<Row>)
    requires forall p :: p in picks ==> p < |log|
    ensures |rows| == |picks|
  {
    assert forall i :: 0 <= i < |picks| ==> picks[i] in picks;
    seq(|picks|, i requires 0 <= i < |picks| => log[picks[i]])
  }

  predicate FirstDeviation(picks: seq<nat>, k: nat) {
    k <= |picks| && (forall i :: 0 <= i < k ==> picks[i] == i) && (k < |picks| ==> picks[k] != k)
  }

  /** Rows drawn from an intact log in any order, with omissions and repetitions, break exactly at
      the first one that is not in its original place, whatever ids they are given. */
  lemma DrawnBreaksAtFirstDeviation(h: Hashing, log: seq<Row>, picks: seq<nat>, table: seq<Row>, k: nat)
    requires Sound(h) && Chain(h, log) && CollisionFree(h, Inputs(h, log))
    requires forall p :: p in picks ==> p < |log|
    requires SameContent(table, Draw(log, picks)) && FirstDeviation(picks, k)
    ensures BreaksAt(h, table, k)
  {
    DrawBreaks(h, log, picks, k);
    hide Draw, BreaksAt, SameContent;
    IdsAreFree(h, table, Draw(log, picks), k);
  }

  lemma DrawBreaks(h: Hashing, log: seq<Row>, picks: seq<nat>, k: nat)
    requires Sound(h) && Chain(h, log) && CollisionFree(h, Inputs(h, log))
    requires forall p :: p in picks ==> p < |log|
    requires FirstDeviation(picks, k)
    ensures BreaksAt(h, Draw(log, picks), k)
  {
    hide CollisionFree, Inputs, Hash;
    var rows := Draw(log, picks);
    assert k <= |log| by {
      if k > 0 { assert picks[k - 1] in picks; }
    }
    assert rows[..k] == log[..k];
    PrefixLinks(h, log, k);
    if k < |picks| {
      var p := picks[k];
      assert p in picks && rows[k] == log[p] && LinkOk(h, log, p);
      if LinkOk(h, rows, k) {
        assert Head(log[..p]) == Head(log[..k]);
        DistinctHeads(h, log, p, k);
        assert false;
      }
    }
  }

  /** Different prefixes of a chain have different heads. */
  lemma DistinctHeads(h: Hashing, log: seq<Row>, j: nat, k: nat)
    requires Sound(h) && Chain(h, log) && CollisionFree(h, Inputs(h, log))
    requires j <= |log| && k <= |log| && j != k
    ensures Head(log[..j]) != Head(log[..k])
  {
    hide CollisionFree, Inputs, Hash;
    var lo, hi := if j < k then j else k, if j < k then k else j;
    if lo == 0 {
      HashIsNotGenesis(h, log, hi - 1);
    } else {
      HashesDistinct(h, log, lo - 1, hi - 1);
    }
  }

  /** A drawn table, whatever ids its rows are given, is accepted exactly when it has the content of a
      prefix of the log. */
  lemma DrawnAcceptedIffPrefix(h: Hashing, log: seq<Row>, picks: seq<nat>, table: seq<Row>)
    requires Sound(h) && Chain(h, log) && CollisionFree(h, Inputs(h, log))
    requires (forall p :: p in picks ==> p < |log|) && SameContent(table, Draw(log, picks))
    ensures Chain(h, table) <==> |table| <= |log| && SameContent(table, log[..|table|])
  {
    hide CollisionFree, Inputs, LinkOk, BreaksAt, SameContent, Chain;
    assert |table| == |picks| by { SameSize(table, Draw(log, picks)); }
    var k := Deviation(picks);
    DrawnBreaksAtFirstDeviation(h, log, picks, table, k);
    ChainIffNoBreak(h, table, k);
    if k == |picks| {
      InPlace(log, picks);
    }
    if |table| <= |log| && SameContent(table, log[..|table|]) {
      PrefixLinks(h, log, |table|);
      IdsAreFree(h, table, log[..|table|], 0);
    }
  }

  lemma SameSize(a: seq<Row>, b: seq<Row>)
    requires SameContent(a, b)
    ensures |a| == |b|
  {
  }

  lemma InPlace(log: seq<Row>, picks: seq<nat>)
    requires forall p :: p in picks ==> p < |log|
    requires forall i :: 0 <= i < |picks| ==> picks[i] == i
    ensures |picks| <= |log| && Draw(log, picks) == log[..|picks|]
  {
    assert |picks| > 0 ==> picks[|picks| - 1] in picks;
  }

  lemma ChainIffNoBreak(h: Hashing, rows: seq<Row>, k: nat)
    requires BreaksAt(h, rows, k)
    ensures Chain(h, rows) <==> k == |rows|
  {
    hide LinkOk;
    assert rows[..|rows|] == rows;
  }

  ghost function Deviation(picks: seq<nat>): (k: nat)
    ensures FirstDeviation(picks, k)
  {
    DeviationFrom(picks, 0)
  }

  ghost function DeviationFrom(picks: seq<nat>, i: nat): (k: nat)
    requires i <= |picks| && forall j :: 0 <= j < i ==> picks[j] == j
    ensures FirstDeviation(picks, k)
    decreases |picks| - i
  {
    if i == |picks| || picks[i] != i then i else DeviationFrom(picks, i + 1)
  }

  /** Deleting one row is detected, at the row that followed it, unless it was the last row. */
  lemma DeletionDetectedIffNotLast(h: Hashing, log: seq<Row>, k: nat, table: seq<Row>)
    requires Sound(h) && Chain(h, log) && CollisionFree(h, Inputs(h, log)) && k < |log|
    requires SameContent(table, log[..k] + log[k + 1..])
    ensures BreaksAt(h, table, k)
    ensures Chain(h, table) <==> k == |log| - 1
  {
    hide CollisionFree, Inputs, LinkOk, BreaksAt, Chain;
    var picks: seq<nat> := seq(|log| - 1, i => if i < k then i else i + 1);
    assert Draw(log, picks) == log[..k] + log[k + 1..];
    DrawnBreaksAtFirstDeviation(h, log, picks, table, k);
    ChainIffNoBreak(h, table, k);
  }

  // ---------- editing ----------

  /** `edited` differs from `log` at most in the fields of its rows. */
  ghost predicate OnlyFieldsEdited(log: seq<Row>, edited: seq<Row>) {
    |log| == |edited| && forall i :: 0 <= i < |log| ==> edited[i].(entry := log[i].entry) == log[i]
  }

  /** The reported entry is the earliest edited one. */
  lemma EarliestEditReported(h: Hashing, log: seq<Row>, edited: seq<Row>, k: nat)
    requires Sound(h) && Chain(h, log) && OnlyFieldsEdited(log, edited)
    requires CollisionFree(h, Inputs(h, log) + Inputs(h, edited))
    requires k <= |log| && forall i :: 0 <= i < k ==> edited[i] == log[i]
    requires k < |log| ==> edited[k] != log[k]
    ensures BreaksAt(h, edited, k)
  {
    hide HashInput, Head;
    assert edited[..k] == log[..k];
    PrefixLinks(h, log, k);
    if k < |log| {
      assert LinkOk(h, log, k);
      if LinkOk(h, edited, k) {
        assert HashInput(h, log[k].prevHash, log[k].entry) in Inputs(h, log);
        assert HashInput(h, edited[k].prevHash, edited[k].entry) in Inputs(h, edited);
        HashInputInjective(h, log[k].prevHash, log[k].entry, edited[k].prevHash, edited[k].entry);
        assert false;
      }
    }
  }

  // ---------- appending ----------

  /** A TEXT column turns numbers, and the numbers truth values are stored as, into their text. */
  function StoredCell(c: Cell): Cell {
    match c
    case Flag(b) => Json.String(if b then "1" else "0")
    case Whole(i) => Json.String(Text.Integer(i))
    case Number(n) => Json.String(Text.Thousandths(n))
    case _ => c
  }

  /** What the table gives back for an inserted entry. */
  function Stored(e: Entry): Entry {
    Entry(e.ts, StoredCell(e.httpMethod), StoredCell(e.path), StoredCell(e.outcome), StoredCell(e.reason),
          StoredCell(e.operator), StoredCell(e.keyid), StoredCell(e.tag), StoredCell(e.decision), StoredCell(e.rule))
  }

  predicate TextOrNull(c: Cell) {
    c.Null? || c.String?
  }

  /** Every TEXT column holds text or nothing. */
  predicate Storable(e: Entry) {
    && TextOrNull(e.httpMethod) && TextOrNull(e.path) && TextOrNull(e.outcome) && TextOrNull(e.reason)
    && TextOrNull(e.operator) && TextOrNull(e.keyid) && TextOrNull(e.tag)
    && TextOrNull(e.decision) && TextOrNull(e.rule)
  }

  lemma StorableIffUnchanged(e: Entry)
    ensures Storable(e) <==> Stored(e) == e
  {
  }

  /** The row inserted for `e`: the hash is of the entry as given, the columns are as stored. */
  function NewRow(h: Hashing, rows: seq<Row>, id: int, e: Entry): Row {
    Row(id, Stored(e), Head(rows), Hash(h, Head(rows), e))
  }

  /** What a TEXT column gives back: text and nothing as they were, a number and a truth value as text. */
  predicate IsStored(given: Cell, stored: Cell) {
    match given
    case Null => stored == Json.Null
    case String(t) => stored == Json.String(t)
    case Whole(i) => stored == Json.String(Text.Integer(i))
    case Number(n) => stored == Json.String(Text.Thousandths(n))
    case Flag(b) => stored == Json.String(if b then "1" else "0")
  }

  /** The hash the next row must name: 64 zeros for the empty table, else the hash of the last row. */
  predicate IsHead(rows: seq<Row>, prev: string) {
    if rows == [] then |prev| == 64 && forall i :: 0 <= i < 64 ==> prev[i] == '0'
    else prev == rows[|rows| - 1].hash
  }

  /** The row that records `e` behind these rows: it names the head, its hash is the digest of that and the
      payload of `e`, and its columns hold what was given. */
  predicate Records(h: Hashing, rows: seq<Row>, id: int, e: Entry, row: Row) {
    && row.id == id && IsHead(rows, row.prevHash) && row.hash == h.sha(row.prevHash + h.payload(e))
    && var s := row.entry;
       && s.ts == e.ts && IsStored(e.httpMethod, s.httpMethod) && IsStored(e.path, s.path)
       && IsStored(e.outcome, s.outcome) && IsStored(e.reason, s.reason) && IsStored(e.operator, s.operator)
       && IsStored(e.keyid, s.keyid) && IsStored(e.tag, s.tag) && IsStored(e.decision, s.decision)
       && IsStored(e.rule, s.rule)
  }

  lemma {:induction false} ZerosAre(n: nat, s: string)
    ensures s == Zeros(n) <==> |s| == n && forall i :: 0 <= i < n ==> s[i] == '0'
  {
    if n > 0 && s != "" {
      ZerosAre(n - 1, s[1..]);
      assert s == [s[0]] + s[1..];
      assert ("0" + Zeros(n - 1))[1..] == Zeros(n - 1);
    }
  }

  lemma HeadIs(rows: seq<Row>, prev: string)
    ensures prev == Head(rows) <==> IsHead(rows, prev)
  {
    ZerosAre(64, prev);
    hide Zeros;
  }

  lemma StoredIs(e: Entry, s: Entry)
    ensures s == Stored(e) <==>
              && s.ts == e.ts && IsStored(e.httpMethod, s.httpMethod) && IsStored(e.path, s.path)
              && IsStored(e.outcome, s.outcome) && IsStored(e.reason, s.reason) && IsStored(e.operator, s.operator)
              && IsStored(e.keyid, s.keyid) && IsStored(e.tag, s.tag) && IsStored(e.decision, s.decision)
              && IsStored(e.rule, s.rule)
  {
    CellIs(e.httpMethod, s.httpMethod);
    CellIs(e.path, s.path);
    CellIs(e.outcome, s.outcome);
    CellIs(e.reason, s.reason);
    CellIs(e.operator, s.operator);
    CellIs(e.keyid, s.keyid);
    CellIs(e.tag, s.tag);
    CellIs(e.decision, s.decision);
    CellIs(e.rule, s.rule);
    hide StoredCell, IsStored;
  }

  lemma CellIs(given: Cell, stored: Cell)
    ensures stored == StoredCell(given) <==> IsStored(given, stored)
  {
    hide Text.Integer, Text.Thousandths;
  }

  /** The appended row is that row, and no other is. */
  lemma NewRowIs(h: Hashing, rows: seq<Row>, id: int, e: Entry, row: Row)
    ensures row == NewRow(h, rows, id, e) <==> Records(h, rows, id, e, row)
  {
    hide Head, IsHead, Stored, IsStored;
    HeadIs(rows, row.prevHash);
    StoredIs(e, row.entry);
  }

  /** Row `i` links: it names the hash before it, and its hash is the digest of that and its own payload. */
  predicate Links(h: Hashing, rows: seq<Row>, i: nat)
    requires i < |rows|
  {
    IsHead(rows[..i], rows[i].prevHash) && rows[i].hash == h.sha(rows[i].prevHash + h.payload(rows[i].entry))
  }

  lemma LinkIs(h: Hashing, rows: seq<Row>, i: nat)
    requires i < |rows|
    ensures LinkOk(h, rows, i) <==> Links(h, rows, i)
  {
    hide Head, IsHead;
    HeadIs(rows[..i], rows[i].prevHash);
  }

  /** What is hashed when `e` is appended, and what the check hashes for the row it finds. */
  ghost function AppendInputs(h: Hashing, rows: seq<Row>, e: Entry): set<string> {
    {HashInput(h, Head(rows), e), HashInput(h, Head(rows), Stored(e))}
  }

  /** Appending leaves a broken log broken at the same entry, and keeps an intact log intact when the
      entry is storable. */
  lemma AppendKeepsBreak(h: Hashing, rows: seq<Row>, id: int, e: Entry, k: nat)
    requires BreaksAt(h, rows, k)
    ensures k < |rows| ==> BreaksAt(h, rows + [NewRow(h, rows, id, e)], k)
    ensures k == |rows| && Storable(e) ==> BreaksAt(h, rows + [NewRow(h, rows, id, e)], k + 1)
  {
    hide Hash, Stored, Storable;
    StorableIffUnchanged(e);
    var more := rows + [NewRow(h, rows, id, e)];
    assert more[..|rows|] == rows && rows[..|rows|] == rows;
    if k < |rows| {
      assert more[..k] == rows[..k] && more[k] == rows[k];
    } else if Storable(e) {
      assert more[..k + 1] == more;
      assert LinkOk(h, more, k);
      PrefixLinks(h, more, k);
    }
  }

  /** Exactly which entries keep an intact log intact: unless the two payloads collide, those with only
      text in their TEXT columns. Any other is reported broken at its own row. */
  lemma AppendKeepsIntactIffStorable(h: Hashing, rows: seq<Row>, id: int, e: Entry)
    requires Sound(h) && Chain(h, rows)
    requires CollisionFree(h, AppendInputs(h, rows, e))
    ensures Chain(h, rows + [NewRow(h, rows, id, e)]) <==> Storable(e)
    ensures !Storable(e) ==> BreaksAt(h, rows + [NewRow(h, rows, id, e)], |rows|)
  {
    hide Stored, Storable, HashInput;
    StorableIffUnchanged(e);
    var more := rows + [NewRow(h, rows, id, e)];
    assert more[..|rows|] == rows && rows[..|rows|] == rows;
    if Storable(e) {
      AppendKeepsBreak(h, rows, id, e, |rows|);
      assert more[..|more|] == more;
    } else if LinkOk(h, more, |rows|) {
      HashInputInjective(h, Head(rows), e, Head(rows), Stored(e));
      assert false;
    }
  }

  /** The table after appending `entries` one after another, ids counting up from `id`. */
  function AppendAll(h: Hashing, rows: seq<Row>, id: int, entries: seq<Entry>): (r: seq<Row>)
    decreases |entries|
  {
    if entries == [] then rows
    else AppendAll(h, rows + [NewRow(h, rows, id, entries[0])], id + 1, entries[1..])
  }

  ghost predicate AllStorable(entries: seq<Entry>) {
    forall e :: e in entries ==> Storable(e)
  }

  lemma {:induction false} AppendAllIsChain(h: Hashing, rows: seq<Row>, id: int, entries: seq<Entry>)
    requires Chain(h, rows) && AllStorable(entries)
    ensures Chain(h, AppendAll(h, rows, id, entries))
    decreases |entries|
  {
    hide LinkOk, NewRow, Storable;
    if entries != [] {
      assert rows[..|rows|] == rows && entries[0] in entries;
      AppendKeepsBreak(h, rows, id, entries[0], |rows|);
      var more := rows + [NewRow(h, rows, id, entries[0])];
      assert more[..|more|] == more;
      AppendAllIsChain(h, more, id + 1, entries[1..]);
    }
  }

  lemma {:induction false} AppendAllKeepsBreak(h: Hashing, rows: seq<Row>, id: int, entries: seq<Entry>, k: nat)
    requires BreaksAt(h, rows, k) && k < |rows|
    ensures BreaksAt(h, AppendAll(h, rows, id, entries), k) && k < |AppendAll(h, rows, id, entries)|
    decreases |entries|
  {
    hide BreaksAt, NewRow;
    if entries != [] {
      AppendKeepsBreak(h, rows, id, entries[0], k);
      AppendAllKeepsBreak(h, rows + [NewRow(h, rows, id, entries[0])], id + 1, entries[1..], k);
    }
  }

  /** The first `k` entries are storable and the one at `k`, if there is one, is not. */
  predicate FirstUnstorable(entries: seq<Entry>, k: nat) {
    k <= |entries| && (forall j :: 0 <= j < k ==> Storable(entries[j])) && (k < |entries| ==> !Storable(entries[k]))
  }

  /** Appending a sequence to an intact log breaks it exactly at the row of the first entry that is not
      storable, unless the two payloads of that entry collide; so the log stays intact if and only if all are
      storable. */
  lemma {:induction false} AppendAllBreaksAtFirst(h: Hashing, rows: seq<Row>, id: int, entries: seq<Entry>, k: nat)
    requires Sound(h) && Chain(h, rows) && FirstUnstorable(entries, k)
    requires k < |entries| ==>
               CollisionFree(h, AppendInputs(h, AppendAll(h, rows, id, entries[..k]), entries[k]))
    ensures BreaksAt(h, AppendAll(h, rows, id, entries), |rows| + k)
    ensures |AppendAll(h, rows, id, entries)| == |rows| + |entries|
    ensures Chain(h, AppendAll(h, rows, id, entries)) <==> k == |entries|
    decreases |entries|
  {
    hide LinkOk, NewRow, Storable, CollisionFree, Sound, AppendInputs;
    if entries == [] {
      assert rows[..|rows|] == rows;
    } else {
      var more := rows + [NewRow(h, rows, id, entries[0])];
      if k == 0 {
        assert entries[..0] == [];
        AppendKeepsIntactIffStorable(h, rows, id, entries[0]);
        AppendAllKeepsBreak(h, more, id + 1, entries[1..], |rows|);
        AppendAllLength(h, more, id + 1, entries[1..]);
        ChainIffNoBreak(h, AppendAll(h, rows, id, entries), |rows|);
      } else {
        assert rows[..|rows|] == rows && more[..|more|] == more;
        AppendKeepsBreak(h, rows, id, entries[0], |rows|);
        assert k < |entries| ==> entries[..k][0] == entries[0] && entries[..k][1..] == entries[1..][..k - 1];
        AppendAllBreaksAtFirst(h, more, id + 1, entries[1..], k - 1);
      }
    }
  }

  lemma {:induction false} AppendAllLength(h: Hashing, rows: seq<Row>, id: int, entries: seq<Entry>)
    ensures |AppendAll(h, rows, id, entries)| == |rows| + |entries|
    decreases |entries|
  {
    if entries != [] {
      AppendAllLength(h, rows + [NewRow(h, rows, id, entries[0])], id + 1, entries[1..]);
    }
  }

  /** The last entry is appended last. */
  lemma {:induction false} AppendAllLast(h: Hashing, rows: seq<Row>, id: int, entries: seq<Entry>, last: Entry)
    ensures var before := AppendAll(h, rows, id, entries);
            AppendAll(h, rows, id, entries + [last]) == before + [NewRow(h, before, id + |entries|, last)]
    decreases |entries|
  {
    hide NewRow;
    if entries == [] {
      assert (entries + [last])[1..] == [];
    } else {
      assert (entries + [last])[1..] == entries[1..] + [last] && (entries + [last])[0] == entries[0];
      AppendAllLast(h, rows + [NewRow(h, rows, id, entries[0])], id + 1, entries[1..], last);
    }
  }

  // ---------- the log itself ----------

  class AuditLog {
    const hashing: Hashing
    var table: seq<Row>
    var nextId: int

    /** Ids are an autoincremented primary key. */
    ghost predicate Valid()
      reads this
    {
      && (forall i, j :: 0 <= i < j < |table| ==> table[i].id < table[j].id)
      && (forall i :: 0 <= i < |table| ==> table[i].id < nextId)
    }

    constructor (sha: Sha)
      ensures Valid() && hashing == Canonical(sha) && table == [] && nextId == 1
    {
      hashing, table, nextId := Canonical(sha), [], 1;
    }

    /** `clock` is the rounded current time, used when the caller gave no `ts`. */
    method Append(entry: Entry, tsGiven: bool, clock: int) returns (h: string)
      requires Valid()
      modifies this
      ensures Valid()
      ensures var e := if tsGiven then entry else entry.(ts := Some(clock));
              && table == old(table) + [NewRow(hashing, old(table), old(nextId), e)]
              && h == Head(table)
              && Records(hashing, old(table), old(nextId), e, table[|table| - 1]) && h == table[|table| - 1].hash
      ensures nextId == old(nextId) + 1
      ensures forall k: nat :: k < old(|table|) && BreaksAt(hashing, old(table), k) ==> BreaksAt(hashing, table, k)
      ensures Chain(hashing, old(table)) && Storable(if tsGiven then entry else entry.(ts := Some(clock)))
          ==> Chain(hashing, table)
    {
      hide Hash, LinkOk, Stored, Storable, Records;
      var stamped := if tsGiven then entry else entry.(ts := Some(clock));
      var prev := GENESIS;
      if |table| > 0 {
        prev := table[|table| - 1].hash;
      }
      h := Hash(hashing, prev, stamped);
      ghost var before := table;
      NewRowIs(hashing, table, nextId, stamped, NewRow(hashing, table, nextId, stamped));
      table := table + [Row(nextId, Stored(stamped), prev, h)];
      nextId := nextId + 1;
      forall k: nat | k < |before| && BreaksAt(hashing, before, k)
        ensures BreaksAt(hashing, table, k)
      {
        AppendKeepsBreak(hashing, before, old(nextId), stamped, k);
      }
      if Chain(hashing, before) && Storable(stamped) {
        assert before[..|before|] == before && table[..|table|] == table;
        AppendKeepsBreak(hashing, before, old(nextId), stamped, |before|);
      }
    }

    method VerifyChain() returns (v: Verdict)
      requires Valid()
      ensures exists k: nat :: BreaksAt(hashing, table, k) && v == VerdictAt(table, k)
      ensures v.Intact? <==> Chain(hashing, table)
      ensures v.Intact? <==> forall i: nat :: i < |table| ==> Links(hashing, table, i)
    {
      forall i: nat | i < |table|
        ensures LinkOk(hashing, table, i) <==> Links(hashing, table, i)
      {
        LinkIs(hashing, table, i);
      }
      hide Links;
      var prev, n := GENESIS, 0;
      assert table[..|table|] == table;
      while n < |table|
        invariant n <= |table| && prev == Head(table[..n]) && Chain(hashing, table[..n])
      {
        var e := table[n];
        if e.prevHash != prev || Hash(hashing, prev, e.entry) != e.hash {
          assert BreaksAt(hashing, table, n);
          ChainIffNoBreak(hashing, table, n);
          return BrokenAt(e.id);
        }
        assert LinkOk(hashing, table, n);
        ExtendPrefix(hashing, table, n);
        prev, n := e.hash, n + 1;
      }
      assert BreaksAt(hashing, table, n);
      return Intact(n);
    }
  }

  lemma ExtendPrefix(h: Hashing, rows: seq<Row>, n: nat)
    requires n < |rows| && Chain(h, rows[..n]) && LinkOk(h, rows, n)
    ensures Chain(h, rows[..n + 1]) && Head(rows[..n + 1]) == rows[n].hash
  {
    hide Hash;
    PrefixLinks(h, rows, n);
    PrefixLinks(h, rows, n + 1);
  }
}
