# KYA Gateway, verified

A Dafny model of the KYA Gateway, which checks the HTTP message signatures agents put on their
requests (RFC 9421, Web Bot Auth), applies first-match policy rules with rate limits, and keeps a
tamper-evident audit log. `dafny verify dfyconfig.toml` checks everything.

| file | what it models |
|---|---|
| `Audit.dfy`, `AuditThreads.dfy` | the hash chain, `append`, `verify_chain`, and threads interleaving inside `append` |
| `HeapQueue.dfy`, `NonceStore.dfy` | Python's `heapq` on a growing array, and the replay guard built on it |
| `StructuredFields.dfy`, `SignatureBase.dfy`, `LabelledLines.dfy`, `Utf8.dfy` | inner lists of RFC 8941, the signature base of section 2.5 of RFC 9421, and when its lines can be read back |
| `Keys.dfy`, `Base64.dfy`, `Json.dfy` | thumbprints, Cache-Control lifetimes, the directory cache, and their encodings |
| `Outcomes.dfy`, `Verifier.dfy`, `Replay.dfy`, `OneClock.dfy` | the gates, the label loop, safety over whole runs of `verify`, and how often a signature can be used |
| `Signer.dfy`, `RoundTrip.dfy` | `sign_request`, and signing followed by verifying |
| `RateLimit.dfy`, `Policy.dfy` | one bucket of the sliding-window limiter, and the policy engine over many |
| `Gateway.dfy`, `GatewayRuns.dfy` | one request through verify, decide, append; and whole runs of the gateway |
| `Text.dfy`, `Wrappers.dfy` | shared text and result types |

Components whose methods change fields are classes (`AuditLog`, `Queue`, `Store`, `KeyResolver`,
`Verifier`, `PolicyEngine`, `Middleware`); their methods are proved equal to specification functions,
and the lemmas are about those functions and about every run of them.

Hypotheses are explicit. SHA-256, Ed25519, clocks, random bytes and the answers of directories are
parameters. No function from all strings to 64 characters is injective, so collision freedom is stated
only of the strings the logs in question hash. Where the order of time matters, a lemma requires a clock
that does not go back. Time is in whole seconds, `ts` in milliseconds.

## Where the code and its documentation part

- `docs/ARCHITECTURE.md` says deleting any row breaks the chain. Deleting the last rows does not
  (`Audit.DrawnAcceptedIffPrefix`, `Audit.DeletionDetectedIffNotLast`).
- The replay guard is documented as preventing replay. With a positive clock skew, the default being 60 s,
  a signature can be used again between its `expires` and the end of the skew. With one clock, as by default,
  that is so exactly when the key is registered, or its directory keeps it and does not end it with the
  signature (`OneClock.UsableTwiceIffTailOpen`, and over whole runs `OneClock.AcceptedTwiceIffTailOpen`). The
  verifier's clock is a parameter apart from the resolver's; when the two are independent only the skew
  matters (`Replay.UsableTwiceIffPositiveSkew`). Labels without a nonce, which `require_nonce` admits by
  default, can always be used again.
- Malformed input is documented to give `invalid`, not an exception. Some still raises, and then there is no
  decision and no audit row: the `RaisedEarly` reply of `Gateway.Middleware.Dispatch`.
  `Verifier.EscapesIff` says exactly when, with `Verifier.MemberEscapesIff`, `Keys.RaisesIff`,
  `Keys.TargetRaisesIff` and `SignatureBase.BaseRaisesIff` for its parts. Inputs that show it: an agent such as
  `https://[x`, which `urlsplit` rejects (`Keys.MalformedAgentRaises`, `Verifier.MalformedAgentEscapes`); a port
  out of range under an allowlist (`Keys.BadPortRaises`); a key in a directory whose `nbf` is an integer of
  313 digits (`Keys.HugeDateRaises`, `Verifier.HugeDateEscapes`); a Signature member that is an inner
  list, such as `sig1=()` (`Verifier.InnerListSignatureEscapes`); a request URL that `urlsplit` rejects, when
  it is covered (`Verifier.MalformedRequestUrlEscapes`).
- `kya_gateway/keys.py:216` says unsupported key types are skipped. An OKP key that is not Ed25519 is not
  skipped: it is indexed, and `resolve` raises `ValueError` when that key is asked for
  (`Keys.X25519KeyRaises`, `Verifier.X25519KeyEscapes`).
- Section 2.5 of RFC 9421 makes the serialized component the identifier of its line. The code does not escape, so
  it writes another identifier exactly when a name or a text parameter has a quote or a backslash
  (`SignatureBase.IdIsSerializedIff`).
- Malformed parameters are documented to give `invalid` and a row. They do, but a key id or tag that is a
  number or a truth value is hashed as such and stored as text, and `verify_chain` then reports that row
  (`Gateway.NumericParamBreaksTheLog`). A row keeps the log intact if and only if key id and tag are
  logged as text or nothing (`Gateway.RowKeepsLogIffStorable`, `Gateway.Middleware.Dispatch`).
- `docs/ARCHITECTURE.md` says the label cap is applied before parsing. Before parsing only more commas than
  four times the cap allows are refused (`Verifier.ParsersIgnoredIffRefusedUnparsed`); the cap itself is
  applied after parsing and before any key lookup (`Verifier.LabelsOverTheCapAreParsed`).
- `docs/ARCHITECTURE.md` says a rate limit counts per operator or per client. Each rule counts on its own too,
  but two rules of different names can share a bucket. Were operators and client keys any text, that would be
  so exactly when one name extends the other by the beginning of an identity
  (`Policy.ShareABucketIffExtends`). The operators the resolver names are registered labels and URLs
  (`GatewayRuns.EveryCallIsFromGateway`), and client keys have no colon; then it is so exactly when one name
  extends the other by the beginning of such an operator, as `a:op:static` extends `a`
  (`Policy.ShareAGatewayBucketIff`, `GatewayRuns.BucketsOfRun`).

## Model

| member | source | states |
|---|---|---|
| Audit.PayloadRoundTrip | kya_gateway/audit.py:27-28 | The canonical payload (compact JSON, keys sorted, ASCII escapes with surrogate pairs) determines the entry: a decoder gives back every field of every entry, null or not. |
| Audit.FieldsSorted | kya_gateway/audit.py:12-28 | The names in the payload are in the strictly increasing order `sort_keys` gives the ten FIELDS. |
| Audit.PayloadIs | kya_gateway/audit.py:12-28 | The payload as it is written: the ten columns of an entry, each under its own name, between braces and commas, `ts` as a number or null. |
| Json.ObjectIsJoined | kya_gateway/audit.py:28-28 | A compact JSON object is its members between braces, joined by commas, in the given order. |
| Json.OthersAreEscaped | kya_gateway/audit.py:28-28 | What is not printable ASCII, and quotes and backslashes, are written as the short escapes or as four hexadecimal digits. |
| Json.ValuesRead | kya_gateway/audit.py:28-28 | How null, truth values, and negative and fractional numbers read in the payload. |
| Audit.CanonicalIsSound | kya_gateway/audit.py:26-29 | What the chain lemmas ask of hashing holds of the gateway's: 64-character digests and a payload that determines the entry. |
| Audit.HashInputInjective | kya_gateway/audit.py:27-29 | The hashed string determines the previous hash and every field when previous hashes have equal length. |
| Audit.PrevLength | kya_gateway/audit.py:48-57 | In every accepted chain each `prev_hash` has 64 characters, so the split of the hashed string is unique. |
| Audit.HashesDistinct | kya_gateway/audit.py:48-58 | All hashes along an accepted chain are pairwise distinct, unless SHA-256 collides on the strings the table hashes. |
| Audit.HeadIsGenesis | kya_gateway/audit.py:34-35 | The head of an accepted chain is GENESIS only for the empty table. |
| Audit.SameHeadSameLog | kya_gateway/audit.py:26-58 | Two accepted logs that end in the same hash agree row for row in all fields and both hash columns, without assuming equal lengths and even if one had every hash recomputed. |
| Audit.DrawnBreaksAtFirstDeviation | kya_gateway/audit.py:48-58 | Rows drawn from an intact log in any order, with omissions and repetitions and under any ids, are reported broken exactly at the first row that is not in its original place. |
| Audit.DrawnAcceptedIffPrefix | kya_gateway/audit.py:1-2 | A drawn table, under any ids, is accepted if and only if it has the content of a prefix of the log: the exact meaning of "detects reordering or deletion". |
| Audit.DeletionDetectedIffNotLast | kya_gateway/audit.py:1-2 | Deleting one row is reported at the row that followed it, and goes undetected exactly when the row was the last. |
| Audit.EarliestEditReported | kya_gateway/audit.py:48-58 | When any set of rows had only their fields edited, the reported entry is the earliest edited one. |
| Audit.BreakIsUnique | kya_gateway/audit.py:48-58 | The reported position is determined: a table breaks at one position only. |
| Audit.IdsAreFree | kya_gateway/audit.py:26-58 | Whether and where a table breaks does not depend on its ids, which are not hashed. |
| Audit.NewRowIs | kya_gateway/audit.py:31-41 | The row that is added is the one row that names the head, carries the digest of that and the payload, and holds what a TEXT column makes of each cell. |
| Audit.AppendKeepsBreak | kya_gateway/audit.py:31-41 | Appending leaves a broken log broken at the same entry, and keeps an intact log intact when the entry holds only text in its TEXT columns. |
| Audit.AppendKeepsIntactIffStorable | kya_gateway/audit.py:20-41 | Exactly when appending keeps an intact log intact: if and only if every TEXT column of the entry holds text or nothing; any other entry is reported broken at its own row. |
| Audit.AppendAllIsChain | kya_gateway/audit.py:31-41 | Appending any sequence of storable entries to an intact log gives an intact log, whether or not hashes collide. |
| Audit.AppendAllBreaksAtFirst | kya_gateway/audit.py:31-41 | Appending a sequence to an intact log breaks it exactly at the row of its first entry that is not storable, so it stays intact if and only if all are. |
| Audit.AuditLog.Append | kya_gateway/audit.py:31-41 | `append` adds one row: it names the hash of the last row, or 64 zeros, its hash is the digest of that and the payload, and each column holds what was given, numbers as text. It returns that hash, keeps ids increasing, keeps an intact log intact and a broken log broken where it was. |
| Audit.AuditLog.VerifyChain | kya_gateway/audit.py:48-58 | `verify_chain` answers intact if and only if every row names the hash before it, or 64 zeros, and has the digest of that and its own payload as hash; otherwise it names the first row that does not. |
| AuditThreads.StepKeepsInv | kya_gateway/audit.py:33-41 | Every step of every thread inside `append` keeps: one holder of the lock, a read head that is still the head, and a table equal to appending the inserted entries one by one. |
| AuditThreads.ThreadsActInSequence | kya_gateway/audit.py:31-41 | For any number of threads and any interleaving of the steps of `append`, the table is that of a sequential run in insertion order. |
| AuditThreads.ThreadsKeepTheChain | kya_gateway/audit.py:31-41 | For any interleaving from an intact log, with storable entries, every reachable table is an intact chain. |
| AuditThreads.ThreadsNeverFork | kya_gateway/audit.py:31-41 | In every such table no two rows share a `prev_hash`. |
| AuditThreads.WithoutLockTheChainForks | kya_gateway/audit.py:33-41 | Without the lock there is a run of two threads whose table has two rows with the same `prev_hash` and no longer verifies. |
| HeapQueue.Queue.Push | kya_gateway/verifier.py:60-60 | `heappush` on the array heap adds exactly the item, keeps the heap order, and moves the item along at most `Level(n - 1)` levels. |
| HeapQueue.Queue.Pop | kya_gateway/verifier.py:53-54 | `heappop` returns the root, removes exactly it, keeps the heap order, and moves an item down and up along at most `Level(n - 1)` levels. |
| HeapQueue.Queue.SiftDown | kya_gateway/verifier.py:60-60 | A misplaced item rises to its place: the result is a heap with the same items. |
| HeapQueue.Queue.SiftUp | kya_gateway/verifier.py:53-54 | The hole at the root falls along smaller children and the item rises from the leaf: the result is a heap with the same items. |
| HeapQueue.RootIsLeast | kya_gateway/verifier.py:53-53 | The root is no greater than any item, so looking at `_heap[0]` is enough. |
| HeapQueue.LevelIsLog | kya_gateway/verifier.py:44-44 | The level of a position is the binary logarithm of its index plus one, rounded down: the O(log n) of the comment. |
| NonceStore.MirrorSize | kya_gateway/verifier.py:46-47 | The heap and the dictionary always have the same number of entries. |
| NonceStore.Store.Size | kya_gateway/verifier.py:46-47 | The number of nonces held is the size of the dictionary and of the heap. |
| NonceStore.NothingExpired | kya_gateway/verifier.py:53-56 | If the least heap item has not expired, no entry of the dictionary has, so the eviction loop removes everything a full rebuild would. |
| NonceStore.Store.Evict | kya_gateway/verifier.py:53-56 | The eviction loop leaves exactly the entries with `expires >= now`, for any clock; the popped item is always the dictionary's own, so the test at line 55 never fails. |
| NonceStore.Store.CheckAndAdd | kya_gateway/verifier.py:49-61 | One call answers and changes the dictionary exactly as a store that drops every entry with `expires < now` first; total pops <= total pushes <= calls. |
| NonceStore.Store.Run | kya_gateway/verifier.py:39-61 | For every sequence of calls, with any clock, the answers and the dictionary are those of the rebuild-everything store. |
| NonceStore.TakenUntilExpiry | kya_gateway/verifier.py:53-61 | For the guard alone: with a non-decreasing clock a nonce taken with expiry e is refused at every later call up to e, whatever expiries those calls bring. |
| Verifier.GatesPassIff | kya_gateway/verifier.py:126-177 | A label passes the gates if and only if its parameters are well typed and present, the tag and algorithm accepted, an authority covered, now lies in [created - skew, expires + skew], the validity is within the cap, a required nonce is there, and the agent can be read. |
| Verifier.GatesAre | kya_gateway/verifier.py:116-177 | The gates report the first fault of the label in the order of the code, said of its parameters and items alone, UNVERIFIED for an unknown tag and an unsupported algorithm that is not hmac and INVALID otherwise; and they let it pass, with the agent its headers give, if and only if it has none. Nothing else meets this. |
| Verifier.AgentMeans | kya_gateway/verifier.py:157-177 | Where the key is looked for: nowhere without the header; else at the agent of the first covered `signature-agent`, which is the whole header or the member its `key` names, under the `type` that member gives or `directory`; not covered or not parsed is reported. |
| Verifier.StatusIs | kya_gateway/verifier.py:187-198 | The signature is correct if and only if the label has bytes for it that the key verifies over the UTF-8 bytes of the base of the request; each other cause has its own reason, or raises. |
| Verifier.JudgeIs | kya_gateway/verifier.py:116-203 | What one label is answered, from the request alone: its first fault, without operator; or what the key lookup gives; or, with the source of the key found as operator, the fault of its signature, a stored nonce, or VERIFIED. Label, key id, tag and covered names are the label's own. Nothing else meets this. |
| Verifier.VerifiedIffAcceptable | kya_gateway/verifier.py:116-203 | A label is VERIFIED if and only if it passes the gates, its key resolves, its signature checks, and its nonce, if any, is not live. |
| Verifier.VerifiedMeans | kya_gateway/verifier.py:116-203 | A label is VERIFIED if and only if it has no fault, a key is found for it that verifies its signature over the bytes of the base, and its nonce is not stored; and then the operator is the source of that key. |
| Verifier.VerifiedOperator | kya_gateway/verifier.py:185-203 | With an honest cache, the operator of a VERIFIED label is the source of a key that proves it: the one registered under its key id, or one that a fetch of that source published under that thumbprint, in force and within its lifetime. |
| Verifier.OperatorIsSource | kya_gateway/verifier.py:179-203 | An answer has an operator exactly when its reason is one that comes after the key was found, so every VERIFIED answer has one and no earlier answer does; and it is the source of a registered key or a URL that an agent in a header leads to. |
| Verifier.NeverVerified | kya_gateway/verifier.py:137-182 | Outside development mode the published test key is never VERIFIED, and no hmac algorithm is anywhere. |
| Verifier.UnverifiedIffUndecided | kya_gateway/verifier.py:21-25 | UNVERIFIED means exactly an unknown tag, an unsupported algorithm that is not hmac, or unobtainable key material; an exception escapes exactly when the key lookup raises, or the key is found and the Signature member is an inner list or building the base raises. |
| Verifier.UnexpiredNoncesAfterLabel | kya_gateway/verifier.py:200-203 | For one label and every later time: the nonces unexpired then change only when the label is VERIFIED, and by exactly its own nonce. |
| Verifier.WrongTypedNone | kya_gateway/verifier.py:126-131 | The type check passes if and only if each of the six parameters that is present has its type. |
| Verifier.Job.BestIsPreferred | kya_gateway/verifier.py:106-114 | When no label verifies, what the loop has kept is the first INVALID label in header order, else the first label, else a refusal. |
| Verifier.Job.AnswerIsUnique | kya_gateway/verifier.py:106-114 | The declarative specification of the label loop determines the answer and the state left behind. |
| Verifier.Job.OneLabel | kya_gateway/verifier.py:106-114 | With one label the answer is the judgement of that label, and nothing else is. |
| Verifier.AnswerIsUnique | kya_gateway/verifier.py:82-114 | The declarative specification of `verify` has one answer and one state left behind for every request. |
| Verifier.ParsersIgnoredIffRefusedUnparsed | kya_gateway/verifier.py:85-104 | What becomes of the headers is the same for all parsers if and only if a header is empty or has more commas than four times the cap allows. |
| Verifier.HeadersAre | kya_gateway/verifier.py:82-104 | What becomes of the two headers, and nothing else: UNSIGNED when neither is sent; refused when only one is, when there are too many commas or labels, or when a parser fails; else the labels and signatures found. |
| Verifier.LabelsOverTheCapAreParsed | kya_gateway/verifier.py:90-104 | More labels than the cap, up to four times as many, reach the parsers: they are refused for their number if they parse and as malformed if they do not. |
| Verifier.EscapesIff | kya_gateway/verifier.py:82-203 | Exactly when a request gets no answer: it is not refused early, and some label raises before one is VERIFIED. |
| Verifier.AnswerMeans | kya_gateway/verifier.py:82-114 | A request is answered UNSIGNED if and only if neither header is sent; every operator answered is the source of a registered key or a URL that an agent in a header leads to; VERIFIED always has one. |
| Verifier.VerifiedAnswer | kya_gateway/verifier.py:82-203 | A VERIFIED answer of `verify` means: one of the labels has no fault and was signed over the bytes of the base of this request by a key that is registered under the key id of the label or was published under that thumbprint by a fetch still in force; and the operator is the source of that key. |
| Verifier.MemberEscapesIff | kya_gateway/verifier.py:116-198 | Exactly when judging a label raises: its member is not an inner list, or it passes the gates and the key lookup raises, or the key is found and its Signature member is an inner list or building the base raises. |
| Verifier.MalformedAgentEscapes | kya_gateway/verifier.py:162-184 | A request with one label that passes the gates, whose agent `urlsplit` rejects and whose key is not registered, gets no answer; no valid signature is needed. |
| Verifier.X25519KeyEscapes | kya_gateway/verifier.py:179-185 | Nor does one that names the X25519 key its directory lists. |
| Verifier.HugeDateEscapes | kya_gateway/verifier.py:179-185 | Nor does one whose key the directory lists with an integer `nbf` too large for a float. |
| Verifier.InnerListSignatureEscapes | kya_gateway/verifier.py:187-191 | Nor does one whose Signature member is an inner list when its key is found; no valid signature is needed. |
| Verifier.MalformedRequestUrlEscapes | kya_gateway/verifier.py:192-198 | Nor does one that covers `@path` first when `urlsplit` rejects the request's own URL and its key is found. |
| Verifier.FetchesPerRequest | kya_gateway/verifier.py:76-104 | One request makes at most `max_signatures` directory fetches; one that is refused early makes none and changes nothing. |
| Verifier.Verifier.FirstWrongType | kya_gateway/verifier.py:128-131 | The loop over typed parameters finds the first one of the wrong type. |
| Verifier.Verifier.VerifyLabel | kya_gateway/verifier.py:116-203 | `_verify_label` answers what `JudgeIs` says of the request, the first fault or what follows from the key found, with the source of that key as operator, and changes cache and nonces as specified. |
| Verifier.Verifier.CheckSignature | kya_gateway/verifier.py:187-198 | The signature check answers what `StatusIs` says. |
| Verifier.Verifier.VerifyMember | kya_gateway/verifier.py:116-121 | A member of Signature-Input that is not an inner list raises before anything is looked at. |
| Verifier.Verifier.JudgeLabels | kya_gateway/verifier.py:106-114 | The loop updating `best` answers the first label that verifies, in header order; else the first INVALID one; else the first; and judges no more labels than there are. |
| Verifier.Verifier.Verify | kya_gateway/verifier.py:82-114 | `verify` of any request answers as specified and judges at most `max_signatures` labels. |
| Replay.UnexpiredNoncesChangeOnlyOnAcceptance | kya_gateway/verifier.py:82-114 | For one whole call of `verify` and every time not before its readings of the clock: the unexpired nonces stay the same unless the answer is VERIFIED, and then exactly the accepted nonce joins them. |
| Replay.RunIsDetermined | kya_gateway/verifier.py:82-114 | The calls and the first state determine every answer and every state of a run. |
| Replay.NoReplayBeforeExpiry | kya_gateway/verifier.py:53-61 | Over every run with a non-decreasing clock: once a non-empty nonce is VERIFIED with expiry e, no later call is VERIFIED with that nonce at any time up to e. |
| Replay.AtMostOnceWithoutSkew | kya_gateway/verifier.py:146-203 | With no clock skew one signed parameter set with a nonce is VERIFIED at most once in an entire run. |
| Replay.SecondUseIffPastExpiry | kya_gateway/verifier.py:53-61 | An accepted label presented again is VERIFIED again if and only if it is still genuine and its `expires` has passed. |
| Replay.TailIffPositiveSkew | kya_gateway/verifier.py:146-151 | A label that passes the gates at all passes them at some time after its `expires` if and only if the clock skew is positive. |
| Replay.AcceptedTwiceInTail | kya_gateway/verifier.py:146-203 | A label accepted after its `expires` is accepted again at the very same moment. |
| Replay.AcceptedTwiceWithoutNonce | kya_gateway/verifier.py:155-200 | A label without a nonce that is accepted is accepted again at the very same moment. |
| Replay.UsableTwiceIffPositiveSkew | kya_gateway/verifier.py:146-203 | When the verifier's clock and the resolver's are independent: a label that is genuine at some moment and whose nonce is not stored, wherever its key comes from, can be VERIFIED twice if and only if it has no nonce or `clock_skew_s` is positive. |
| Replay.AcceptedTwiceIffPositiveSkew | kya_gateway/verifier.py:82-203 | The same of runs of `verify`, the two clocks being independent: for a request with one such label, some run accepts it twice if and only if the label has no nonce or `clock_skew_s` is positive. |
| OneClock.ResolvesWhileInForce | kya_gateway/keys.py:135-159 | A key that is registered resolves always, and one that its directory keeps listing resolves exactly while it is within its dates. |
| OneClock.SuppliesInRun | kya_gateway/keys.py:135-159 | Whatever requests come between, such a key stays supplied through every run. |
| OneClock.UsableTwiceIffTailOpen | kya_gateway/verifier.py:146-203 | With one clock: a label that is genuine at some moment, whose nonce is not stored and whose key is registered or kept by its directory, can be VERIFIED twice if and only if it has no nonce, or `clock_skew_s` is positive and a key from a directory has not expired one second after the label. |
| OneClock.AcceptedTwiceIffTailOpen | kya_gateway/verifier.py:82-203 | The same of runs of `verify` under one clock that does not go back, whatever else is called between. |
| Replay.AcceptedIsFresh | kya_gateway/verifier.py:146-153 | Everything accepted was accepted within [created - skew, expires + skew] and within the validity cap. |
| Replay.AcceptanceTimesAreClose | kya_gateway/verifier.py:146-153 | All acceptance times of one signed parameter set lie within `max_validity_s + 2 * clock_skew_s` of each other. |
| Replay.StoredWasAccepted | kya_gateway/verifier.py:57-61 | Every nonce in the store was put there by an earlier acceptance with that expiry. |
| Replay.SurvivorsAreRecent | kya_gateway/verifier.py:53-61 | A nonce that survives eviction at t was accepted no earlier than t - (`max_validity_s` + `clock_skew_s`). |
| RateLimit.AdmittedIffWindowHasRoom | kya_gateway/policy.py:75-81 | With a non-decreasing clock the deque answers as a log of all admissions: admitted if and only if fewer than `limit` admissions lie in the closed window ending now. |
| RateLimit.DequeIsSortedAndShort | kya_gateway/policy.py:75-81 | With a non-decreasing clock the deque stays sorted and no longer than `limit`. |
| RateLimit.WindowBound | kya_gateway/policy.py:75-81 | With a non-decreasing clock no closed interval of length `window_s` holds more than `limit` admissions. |
| RateLimit.BoundNeedsNoClockIff | kya_gateway/policy.py:75-81 | Exactly when the bound needs no clock: it holds for all request times in any order if and only if the limit is at most one. |
| RateLimit.BackwardClockBreaksTheBound | kya_gateway/policy.py:76-81 | Times that break it for every larger limit and every window: as many at 0 as allowed, then one that evicts them, then one back in their window. |
| RateLimit.ExactWithoutClockIff | kya_gateway/policy.py:75-81 | Exactly when the answers need no clock to be those of counting: if and only if the limit admits nothing. |
| RateLimit.BackwardClockRefusesWithRoom | kya_gateway/policy.py:76-79 | For every limit and window a full deque of later times refuses a request whose window is empty. |
| Policy.KeyInjective | kya_gateway/policy.py:74-74 | For rule names of which neither extends the other the bucket string determines the rule name and the identity. |
| Policy.ShareABucketIffExtends | kya_gateway/policy.py:74-74 | Were operators and client keys any text: rules of different names can share a bucket if and only if one name is the other followed by `:op` or `:client`, or begins with the other followed by `:op:` or `:client:`. |
| Policy.ShareAGatewayBucketIff | kya_gateway/policy.py:74-74 | For registered labels and URLs at a host as operators and client keys without colons: if and only if one name is the other followed by `:op:` and the beginning of such an operator, an authority that is complete naming a host. |
| Policy.ColonFreeIsApart | kya_gateway/policy.py:74-74 | Different names without colons never extend one another. |
| Policy.BucketIsolation | kya_gateway/policy.py:72-81 | When no rate-limit name equals or extends another, in any interleaved run the answers one bucket sees are those of the limiter run alone on that bucket's calls. |
| Policy.EveryWindowIsBounded | kya_gateway/policy.py:72-81 | In every run of the engine with a non-decreasing clock and such names, each bucket admits at most `limit` calls in every closed interval of length `window_s`. |
| Policy.RefusedIffWindowIsFull | kya_gateway/policy.py:76-81 | A call on a rate-limit rule is refused if and only if at least `limit` calls of its bucket were let through in [now - window_s, now]. |
| Policy.RotatingKeyidsChangesNothing | kya_gateway/policy.py:113-119 | Rewriting the key id, label, reason and covered list of every result leaves the whole sequence of decisions and all deques unchanged. |
| Policy.UnprovenTrafficSharesABucket | kya_gateway/policy.py:113-119 | Traffic of one client that is not verified, or has no operator, shares one bucket, and verified operators never fall into it. |
| Policy.StatusFollowsAction | kya_gateway/policy.py:62-82 | The answer follows the action of the first matching rule: an allow rule allows with 200, a block rule blocks with 403, a charge rule charges with 402 and a price, a rate-limit rule allows with 200 or refuses with 429; what no rule matches is answered 200 if and only if the default is allow, else 403. Only what is allowed gets 200. |
| Policy.DecidesIff | kya_gateway/policy.py:58-82 | The decision and the deques left, from `rules[k]` for the first matching k: its name or `unnamed`; what its action says, with its message, price, limit and window or their defaults; for a rate limit, the times in the bucket that are not before the window, counted; and nothing else meets this. |
| Policy.OneHostPerRuleValue | kya_gateway/policy.py:93-110 | Operators that satisfy one rule value without equalling it all have the same host, and for a value that names an origin the same scheme, host and port, so a lookalike directory does not match. |
| Policy.OperatorMatchesIff | kya_gateway/policy.py:93-110 | A rule value is satisfied by exactly: the very same text; and, when neither is a registered label, a source of the same origin if the value contains `://`, else a source whose host is the value lower-cased without the dots it ends with. |
| Policy.MatchesIff | kya_gateway/policy.py:42-56 | A rule matches if and only if each field it has passes with one of its values: outcome text, tag, operator, path glob, user-agent part in any case, method in any case. |
| Policy.FirstMatch | kya_gateway/policy.py:62-64 | The rule that decides is the first that matches. |
| Policy.PolicyEngine.Evaluate | kya_gateway/policy.py:58-82 | `decide` does what the first matching rule says, or the default, as `DecidesIff` spells out from `rules[k].action`, and changes only the deque of a matching rate-limit rule. |
| Policy.PolicyEngine.Limit | kya_gateway/policy.py:72-81 | The rate-limit branch pops, counts and appends on the deque of the call's bucket and no other. |
| StructuredFields.RoundTrip | kya_gateway/sigbase.py:84-84 | The serialization of an inner list (section 4.1.1.1 of RFC 8941) determines it: components, parameters and their order. |
| StructuredFields.SerializePrintable | kya_gateway/sigbase.py:84-84 | A serialized inner list is printable, so the last line of the base has no line break. |
| StructuredFields.WrittenItem | kya_gateway/sigbase.py:84-84 | How an item with an escaped quote and truth-valued parameters is written. |
| StructuredFields.WrittenParams | kya_gateway/sigbase.py:84-84 | How integer and byte parameters are written. |
| StructuredFields.WrittenList | kya_gateway/sigbase.py:84-84 | An inner list puts its items between parentheses, separated by a space, and its parameters behind. |
| Text.StripIs | kya_gateway/sigbase.py:28-61 | Stripping gives the one text that remains when white space, or quotes, are taken from both ends until no more can be. |
| Text.SpacesAre | kya_gateway/sigbase.py:24-61 | White space is the characters for which `str.isspace` holds, one by one. |
| SignatureBase.BuildSignatureBase | kya_gateway/sigbase.py:76-85 | The loop returns what section 2.5 of RFC 9421 makes of the request, said from the request alone: for each component its identifier and what the component stands for, then the parameters; or the error or exception of the first component that repeats or stands for nothing. |
| SignatureBase.ValueMeans | kya_gateway/sigbase.py:24-61 | What a component stands for, by its name alone: `@path` the path of the URL or `/`; `@query` `?` and the query; `@authority` the lowered, stripped non-empty Host, else the netloc; `@method` the upper-cased verb; `@target-uri` the URL; a header its stripped value; a keyed header the text of the member. |
| SignatureBase.ErrorMeans | kya_gateway/sigbase.py:45-60 | Each error is reported of exactly the components it names: unsupported derived, missing header, not a dictionary, no such member. |
| SignatureBase.BuildComponentId | kya_gateway/sigbase.py:64-73 | The loop over parameters accumulates the component identifier. |
| SignatureBase.IdentifierGrows | kya_gateway/sigbase.py:64-73 | The identifier is the quoted name and, parameter by parameter, `;key` for true, `;key="text"` for text and `;key=` and Python's `str` otherwise. |
| SignatureBase.IdIsSerializedIff | kya_gateway/sigbase.py:64-73 | The identifier is the serialized item, as section 2.5 of RFC 9421 asks, if and only if the name and the text parameters have no quote and no backslash. |
| SignatureBase.BaseIsBase | kya_gateway/sigbase.py:76-85 | The same of the specification function, in both directions: that result and no other is a text of such lines, or the report of the first component that fails, repetition before missing value. |
| SignatureBase.BaseRaisesIff | kya_gateway/sigbase.py:18-55 | Building the base raises something uncaught if and only if the first component that fails is no repetition and its name is not text, or its value is read from a URL that `urlsplit` rejects. |
| SignatureBase.BaseDeterminesInnerList | kya_gateway/sigbase.py:76-85 | Equal bytes mean equal inner lists, whatever the covered values are. |
| SignatureBase.BaseInjective | kya_gateway/sigbase.py:76-85 | A request with the same base bytes as one whose values are not splittable has the same inner list and the same value for every covered component; nothing is asked of the other request. |
| SignatureBase.BaseAmbiguousIffSplittable | kya_gateway/sigbase.py:83-85 | The exact condition: other values give the same text if and only if the separator and identifier of some component but the first occur inside its own value or the one before. |
| SignatureBase.PlainIsNotSplittable | kya_gateway/sigbase.py:83-85 | Values without line breaks are never splittable. |
| LabelledLines.AmbiguousIffSplittable | kya_gateway/sigbase.py:83-85 | The same of any text of lines `identifier: value` that ends with a line of its own. |
| SignatureBase.LineBreaksAreAmbiguous | kya_gateway/sigbase.py:83-85 | Such values exist in requests: two concrete requests with a line break in a header share a base and differ in a value. |
| SignatureBase.SameValuesSameBase | kya_gateway/sigbase.py:76-85 | The base depends on the request only through the covered values. |
| Utf8.EncodeInjective | kya_gateway/sigbase.py:85-85 | Different texts have different bytes (section 3 of RFC 3629). |
| Utf8.FormsAre | kya_gateway/sigbase.py:85-85 | Each character has the shortest form of the table of section 3 of RFC 3629, whose payload bits are its number. |
| Base64.UrlRoundTrip | kya_gateway/keys.py:35-40 | `b64url_decode(b64url_encode(b)) = b` for every byte string: re-padding restores exactly what was stripped. |
| Base64.UrlLength | kya_gateway/keys.py:39-40 | The unpadded length is ceil(4n/3). |
| Base64.PaddedRoundTrip | kya_gateway/signer.py:33-33 | Padded base64 decodes to the bytes it encodes, in both alphabets. |
| Base64.BitsAreSpelled | kya_gateway/keys.py:39-40 | The symbols of three bytes spell their 24 bits, highest first; those of one or two bytes theirs, followed by zeros. |
| Base64.GroupsFollow | kya_gateway/keys.py:39-40 | Longer byte strings are spelled three bytes at a time, in order. |
| Base64.SymbolsAre | kya_gateway/keys.py:39-40 | The symbols are the alphabets of sections 4 and 5 of RFC 4648. |
| Base64.StrayIsSkipped | kya_gateway/keys.py:35-36 | Decoding skips a character outside the alphabet wherever it stands, as Python's decoder does, so one key has many texts. |
| Keys.CanonicalIsJson | kya_gateway/keys.py:47-48 | The text a thumbprint hashes is the JSON of `crv`, `kty` and `x` in sorted order. |
| Keys.ThumbprintIs | kya_gateway/keys.py:43-49 | A key has a thumbprint if and only if it is an OKP key with a curve and an `x`; it is the unpadded base64url text of the digest of their JSON. |
| Keys.CanonicalJwkInjective | kya_gateway/keys.py:43-49 | That text determines scalar `crv` and `x`, even among texts of keys whose members are lists or objects. |
| Keys.ThumbprintPinsKey | kya_gateway/keys.py:43-49 | Equal thumbprints mean the same key material, or that neither key is usable, whichever directories published them and whatever JSON their members are, unless the digest collides on the two keys. |
| Keys.DirectiveIsLast | kya_gateway/keys.py:78-82 | A Cache-Control directive is present when some part names it, and its value is the last one given. |
| Keys.DirectiveIs | kya_gateway/keys.py:78-82 | A part `name=rest` gives the name before its first equals sign and the rest without white space and then quotes around it; a part without one is a name with an empty value. |
| Keys.TtlBounds | kya_gateway/keys.py:69-90 | The lifetime is at most a day or the default; `no-store` or `no-cache` anywhere make it 0; without them the last `max-age` gives its value brought into [0, 86400], or 0 when it is not a number; without that too it is the default. |
| Keys.ComputeDirectoryTtl | kya_gateway/keys.py:69-90 | The loop over parts computes that lifetime. |
| Keys.IndexIsByThumbprint | kya_gateway/keys.py:211-216 | A directory is indexed exactly by the thumbprints of its keys. |
| Keys.IndexIsLast | kya_gateway/keys.py:211-216 | Under each thumbprint the index holds the last key of the directory that has it. |
| Keys.ResolveKeepsHonest | kya_gateway/keys.py:143-147 | Every call keeps: each cached entry is what some fetch of that URL made so far yielded. |
| Keys.ResolvedIsPublished | kya_gateway/keys.py:135-159 | A key resolved from a directory has the requested thumbprint, is within its validity, and was published by exactly the URL its agent leads to (the agent's own text for `jwks_uri`, the well-known path at its scheme and netloc for `directory`, admitted by the allowlist), at a fetch that is this call's own or whose lifetime, at most max(86400, default), had not run out. |
| Keys.EveryResolvedKeyWasPublished | kya_gateway/keys.py:135-159 | The same over every run from an empty cache against an arbitrary time-varying world of directories. |
| Keys.FailureReuseIsShort | kya_gateway/keys.py:123-145 | A failed fetch is reused only before its negative lifetime, never 300 s or more after it. |
| Keys.FetchesAreSpaced | kya_gateway/keys.py:143-147 | Over every run with a clock that does not go back: a URL is not fetched again before what an earlier fetch of it gave has run out, which for a directory is its lifetime and for an error the negative lifetime. |
| Keys.NoStoreIsNeverReused | kya_gateway/keys.py:83-84 | A directory marked `no-store` or `no-cache` is never reused while the clock does not go back. |
| Keys.OnListIff | kya_gateway/keys.py:174-178 | The allowlist answers as its first entry that does not differ from the URL, which may be one that cannot be compared. |
| Keys.TargetRaisesIff | kya_gateway/keys.py:61-178 | Finding the URL raises if and only if the agent is neither text nor ASCII bytes or `urlsplit` rejects it, or the deciding entry of the allowlist cannot be compared because one of the two is rejected or has a bad port. |
| Keys.RaisesIff | kya_gateway/keys.py:93-159 | `resolve` lets an exception escape if and only if, past the test key and registered keys, finding the URL raises, the fetch raises, or the directory lists under the requested thumbprint a key with a date that is not a number or is an integer too large for a float, or, within its dates, one that is not Ed25519 or whose `x` does not decode to 32 bytes. |
| Keys.MalformedAgentRaises | kya_gateway/keys.py:162-164 | A first input: an agent that `urlsplit` rejects, with any key that is not registered; no directory is consulted. |
| Keys.BadPortRaises | kya_gateway/keys.py:61-66 | A second: an agent at a port out of range, compared with another origin of the allowlist. |
| Keys.X25519KeyRaises | kya_gateway/keys.py:211-216 | A third: a directory that lists one X25519 key, asked for that key's thumbprint. |
| Keys.HugeDateRaises | kya_gateway/keys.py:52-57 | A fourth: a directory that lists one key with an integer `nbf` from (2^1024 - 2^970) * 1000 on, the exact threshold of the overflow in `ts / 1000`. |
| Keys.OnlyAllowedAreFetched | kya_gateway/keys.py:162-178 | Over every run, every URL fetched is one that the agent of some query leads to, and some entry of the allowlist, if there is one, is that URL or its origin. |
| Keys.RegisteredIsFound | kya_gateway/keys.py:129-132 | Registering the public half of a key pair makes its 32 bytes available under its thumbprint. |
| Keys.RegisteredAs | kya_gateway/keys.py:129-132 | After any registrations, each key held is the usable one registered last under its thumbprint, and its source is `static:` and the name it was given. |
| Keys.RegisteredIsNamed | kya_gateway/keys.py:129-132 | So every source of a registered key begins with `static:`, which is what the lemmas about operators ask of the registered keys. |
| Keys.KeyResolver.AddStaticJwk | kya_gateway/keys.py:129-132 | Registers a usable key under its thumbprint, with `static:` and the name as source, and changes nothing otherwise; so all sources stay names behind `static:`. |
| Keys.KeyResolver.MakeEntry | kya_gateway/keys.py:207-220 | Builds the cache entry of a reply that does not raise: the index and lifetime of a directory, or an error with the negative lifetime. |
| Keys.KeyResolver.Lookup | kya_gateway/keys.py:135-178 | `resolve` does what a lookup must do: the published test key is refused outside development mode and a registered key taken; else the agent is followed, to its own text for `jwks_uri` and to the well-known path at its scheme and netloc for `directory`. Another type, a scheme other than http and https, no host, http outside development mode and an excluded URL are answered with their `KeyNotFound`, and nothing is fetched; an admitted URL is fetched if and only if what is remembered of it has run out, what is then remembered is said from the reply, and the answer is said from that. |
| Keys.LookupIsUnique | kya_gateway/keys.py:135-178 | What a lookup must do determines what it answers and what it leaves in cache and fetch history. |
| Keys.DatesAreSeconds | kya_gateway/keys.py:52-57 | `nbf` and `exp` are seconds up to 10^11 and milliseconds beyond; a key is not yet valid strictly before `nbf` and no longer strictly after `exp`. |
| Keys.FractionalDates | kya_gateway/keys.py:52-57 | The same of dates with a fraction; a key without a date is not bound by it. |
| Keys.BadDates | kya_gateway/keys.py:52-57 | The dates that raise: null, text, lists, objects, and integers from (2^1024 - 2^970) * 1000 on. |
| Signer.TextIsSerialization | kya_gateway/signer.py:36-44 | The text the signer writes is the canonical serialization of the inner list it means, in all agent formats. |
| Signer.SignedListIs | kya_gateway/signer.py:35-44 | What is signed, item by item: the authority, the extra components in order, the agent if it is sent; and the six parameters, `expires` the lifetime after `created`. |
| Signer.KeyidIsThumbprint | kya_gateway/signer.py:17-31 | The key id that is signed is the thumbprint of the public half of the signing key. |
| Signer.HeadersAreSerialized | kya_gateway/signer.py:33-55 | The signature is sent as the byte sequence of its label, the agent as a string, in a dictionary under the label or alone; the nonce decodes to the random bytes. |
| Signer.SignRequest | kya_gateway/signer.py:24-55 | `sign_request` produces the headers of its specification. |
| RoundTrip.SignSucceeds | kya_gateway/signer.py:24-55 | For every agent format and any supported duplicate-free components signing succeeds if and only if `urlsplit` takes the URL. |
| RoundTrip.SameCoveredValues | kya_gateway/sigbase.py:34-61 | Signer and verifier compute the same value for every covered component. |
| RoundTrip.HeadersReadBack | kya_gateway/verifier.py:83-104 | The verifier parses exactly the inner list and signature that were sent and does not refuse them for their number. |
| RoundTrip.GatesOfSigned | kya_gateway/verifier.py:126-177 | A signed request passes every gate but freshness, and the verifier looks the key up where the signer pointed. |
| RoundTrip.SignatureOfSigned | kya_gateway/verifier.py:189-198 | The rebuilt base equals the signer's, so the signature checks out. |
| RoundTrip.RegisteredKeyIsHeld | kya_gateway/keys.py:129-138 | A resolver at which the public half of the signing key was registered holds the key, whatever else was registered before. |
| RoundTrip.SignThenVerify | kya_gateway/signer.py:24-55 | A signed request is VERIFIED if and only if it is fresh and its nonce is not live, hence the first time while fresh. |
| Gateway.EntryStorable | kya_gateway/middleware.py:65-68 | The row of a request whose key id and tag are absent or strings keeps the log intact. |
| Gateway.WellTypedLabelIsStorable | kya_gateway/verifier.py:119-131 | Every judged label with well-typed parameters, so every VERIFIED one, reports such a key id and tag. |
| Gateway.RowKeepsLogIffStorable | kya_gateway/middleware.py:65-68 | Unless hashes collide, the row of a request keeps an intact log intact if and only if key id and tag are logged as text or nothing; any other row is the one reported. |
| Gateway.NumericParamBreaksTheLog | kya_gateway/verifier.py:119-131 | A label whose key id or tag is a number or a truth value is answered INVALID and its row is reported broken by the chain check. |
| Gateway.Middleware.Dispatch | kya_gateway/middleware.py:56-68 | A request is one step: an admin page changes nothing; an exception from `verify`, and only that, leaves no decision; an entry that cannot be written as JSON leaves no row; otherwise there is exactly one more row, and cell by cell it holds the verb, the path, the text of the outcome, reason, operator, key id, tag, the action's name behind `log-only:` exactly when the gateway only logs, the rule and the time; and the decision is what the rules say of the result. The log stays intact if and only if key id and tag are logged as text or nothing. |
| Gateway.RowDetermines | kya_gateway/middleware.py:65-68 | A row that tells two requests tells the same of both: verb, path, outcome, operator, action, log-only, rule and time; the names of outcomes and actions are pairwise different. |
| Gateway.TextIsTold | kya_gateway/middleware.py:65-68 | A key id or tag that is text stands in the row as that text, and a missing one as null. |
| GatewayRuns.LogOfRun | kya_gateway/middleware.py:56-68 | After any run the log is the one it began with and the entries of the handled requests, in order. |
| GatewayRuns.RunBreaksAtFirstUnstorable | kya_gateway/middleware.py:56-68 | A run from an intact log breaks it exactly at the row of the first request whose entry is not storable. |
| GatewayRuns.LoggedStorableIff | kya_gateway/middleware.py:65-68 | An entry is storable if and only if its request's key id and tag are logged as text or nothing. |
| GatewayRuns.HitsOfRun | kya_gateway/middleware.py:62-64 | After any run the deques are those of the policy engine run on the requests that reached it. |
| GatewayRuns.EveryCallIsFromGateway | kya_gateway/middleware.py:60-64 | In every run, with registered sources behind `static:` and a `urlsplit` that reads URLs as their text says, every call on the policy has an operator that is a registered name or a URL at a host: what `Policy.ShareAGatewayBucketIff` assumes. |
| GatewayRuns.BucketsOfRun | kya_gateway/policy.py:74-74 | So in every run two rules of different names share a bucket only if one name is the other and the beginning of such an operator. |
| GatewayRuns.VerifyRun | kya_gateway/middleware.py:56-61 | Every run of the gateway is, without its admin pages, a run of `verify`, so every result about such runs holds of it. |
| GatewayRuns.NoReplayThroughTheGateway | kya_gateway/middleware.py:60-61 | Over every run with a non-decreasing clock, once a request is VERIFIED with a nonce that expires at e, no later one is with that nonce up to e, whatever admin pages and exceptions come between. |
| GatewayRuns.AtMostOnceThroughTheGateway | kya_gateway/middleware.py:60-61 | With no clock skew the gateway accepts one signed parameter set with a nonce at most once in an entire run. |

## Left out

- Audit.SameHeadSameLog: SHA-256 is not modelled; collision freedom on the hashed strings is a hypothesis, as in every lemma that names `CollisionFree`.
- Audit.AuditLog.Append: the SQLite file is a sequence of rows; deletion of the file, commits that fail, and writers in other processes (open defect D7) are not modelled. `ts` is a whole number of milliseconds and is written as Python writes a float of that size (no exponent).
- AuditThreads.ThreadsKeepTheChain: one process with one lock; an exception releases the lock before anything was inserted.
- Audit.AppendKeepsIntactIffStorable: of what SQLite does to a value in a TEXT column, the conversion of numbers and truth values to text is modelled.
- HeapQueue.Queue.Push: the growth of a Python list is modelled by doubling; its amortised cost is not.
- StructuredFields.RoundTrip: the `http_sfv` parser is not part of this model; the reader proved here inverts the serializer on canonical text, and `RoundTrip.ParsersInvert` is what is assumed of the library, for integers and decimals of the sizes RFC 8941 allows.
- SignatureBase.BaseInjective: header values and names are texts; values RFC 9651 adds to RFC 8941 (dates, display strings) are not modelled.
- Utf8.EncodeInjective: characters are Unicode scalar values; a URL with a lone surrogate, which raises when the base is encoded, is not modelled.
- SignatureBase.BuildSignatureBase: `urlsplit` and whether it raises, case mapping and dictionary member lookup are parameters.
- Verifier.Verifier.Verify: what `http_sfv` makes of a header is a parameter; its items are taken not to be iterable and its tokens to compare as their text.
- Keys.KeyResolver.Lookup: HTTP, DNS, address checks, redirects and size limits are not modelled; a fetch is an arbitrary function of URL and time that may also raise. Floats in JSON are taken to three decimals; NaN and infinities, on which nothing raises, are not modelled.
- Verifier.Verifier.VerifyLabel: reasons are constructors, not the message strings.
- Replay.NoReplayBeforeExpiry: one verifier in one process; the store is lost on restart as in the code.
- OneClock.UsableTwiceIffTailOpen: the readings of the clock within one label are taken as equal, and a directory that stops listing the key is not covered.
- Policy.ShareAGatewayBucketIff: which texts are URLs is stated by scheme and authority; brackets around a host are not checked, and whether a fetch of such a URL can succeed is not asked.
- GatewayRuns.EveryCallIsFromGateway: `urlsplit` and `urlunsplit` are parameters, assumed to read and write a URL as its text says; that releases which do not check bracketed hosts read `https://:[::1]/` otherwise is not modelled.
- Policy.PolicyEngine.Evaluate: `fnmatch`, substring test and origin parsing are parameters; rules come typed, so the check of unknown actions and YAML loading are not modelled.
- Gateway.Middleware.Dispatch: response headers, the dashboard, the admin token and the client key derivation are not modelled.
- demo, bench, research, interop and scripts: drivers around the modelled components.
