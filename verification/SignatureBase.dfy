/** The signature base of section 2.5 of RFC 9421, as `build_signature_base` builds it. */
module SignatureBase {
  import opened Wrappers
  import opened Text
  import opened StructuredFields
  import Base64
  import LabelledLines
  import Utf8

  datatype Request = Request(verb: string, url: string, headers: map<string, string>)

  /** What `str(d[key])` gives for a header parsed as a dictionary. */
  datatype MemberLookup = NotADictionary | NoMember | MemberText(text: string)

  /** What `urlsplit` finds in a URL. */
  datatype UrlParts = UrlParts(netloc: string, path: string, query: string)

  /** Library functions: case mapping, `urlsplit` (None is the `ValueError` it raises), dictionary parsing,
      and Python's `str` on bare items that are not strings. */
  datatype Library = Library(
    lower: string -> string,
    upper: string -> string,
    split: string -> Option<UrlParts>,
    dictMember: (string, BareItem) -> MemberLookup,
    show: BareItem -> string)

  datatype BaseError =
    | UnsupportedDerived(name: string)
    | HeaderMissing(name: string)
    | NotDictionary(name: string)
    | MemberMissing(name: string)
    | Duplicate(id: string)

  /** `Raises` is an exception that is not a `SignatureBaseError`. */
  datatype ValueResult = Value(text: string) | NoValue(error: BaseError) | Raises

  datatype BaseResult = Base(text: string) | Failed(error: BaseError) | Raised {
    /** The bytes that are signed. */
    function Bytes(): seq<Base64.Byte>
      requires Base?
    {
      Utf8.Encode(text)
    }
  }

  // ---------- components ----------

  /** `headers.get(name)`, empty when absent. */
  function Header(req: Request, name: string): string {
    if name in req.headers then req.headers[name] else ""
  }

  /** The text of a component name; None for names that are not text. */
  function NameOf(v: BareItem): Option<string> {
    match v
    case Str(s) => Some(s)
    case Token(t) => Some(t)
    case _ => None
  }

  function Authority(lib: Library, host: string): string {
    lib.lower(Strip(host))
  }

  function Path(url: UrlParts): string {
    if url.path == "" then "/" else url.path
  }

  /** Whether the value of the component is read from the request's URL by `urlsplit`. */
  predicate SplitsUrl(req: Request, name: string) {
    name == "@path" || name == "@query" || (name == "@authority" && Header(req, "host") == "")
  }

  function DerivedFromUrl(lib: Library, req: Request, name: string): ValueResult {
    match lib.split(req.url)
    case None => Raises
    case Some(url) =>
      Value(if name == "@path" then Path(url) else if name == "@query" then "?" + url.query
            else Authority(lib, url.netloc))
  }

  function ComponentValue(lib: Library, req: Request, item: Item): ValueResult {
    match NameOf(item.value)
    case None => Raises
    case Some(name) =>
      if SplitsUrl(req, name) then DerivedFromUrl(lib, req, name)
      else if name == "@authority" then Value(Authority(lib, Header(req, "host")))
      else if name == "@method" then Value(lib.upper(req.verb))
      else if name == "@target-uri" then Value(req.url)
      else if name != "" && name[0] == '@' then NoValue(UnsupportedDerived(name))
      else if name !in req.headers then NoValue(HeaderMissing(name))
      else
        match Lookup(item.params, "key")
        case None => Value(Strip(req.headers[name]))
        case Some(key) =>
          match lib.dictMember(req.headers[name], key)
          case NotADictionary => NoValue(NotDictionary(name))
          case NoMember => NoValue(MemberMissing(name))
          case MemberText(text) => Value(text)
  }

  // ---------- what a component stands for ----------

  /** The component's name, written as a string or as a token. */
  predicate Called(item: Item, name: string) {
    item.value == Str(name) || item.value == Token(name)
  }

  predicate HasHost(req: Request) {
    "host" in req.headers && req.headers["host"] != ""
  }

  /** The host a request is for: its Host header unless that is empty, else what its URL names. */
  predicate IsHost(lib: Library, req: Request, host: string) {
    if HasHost(req) then host == req.headers["host"]
    else lib.split(req.url).Some? && host == lib.split(req.url).value.netloc
  }

  /** What stands for a header: all of it without the white space around it, or one member of it. */
  predicate IsHeaderValue(lib: Library, raw: string, params: seq<Param>, text: string) {
    match Lookup(params, "key")
    case None => text == Strip(raw)
    case Some(member) => lib.dictMember(raw, member) == MemberText(text)
  }

  /** Section 2 of RFC 9421: what the request makes the value of a component. */
  ghost predicate IsValue(lib: Library, req: Request, item: Item, text: string) {
    || (Called(item, "@path") && exists url :: lib.split(req.url) == Some(url)
                                            && text == if url.path == "" then "/" else url.path)
    || (Called(item, "@query") && exists url :: lib.split(req.url) == Some(url) && text == "?" + url.query)
    || (Called(item, "@authority") && exists host :: IsHost(lib, req, host) && text == lib.lower(Strip(host)))
    || (Called(item, "@method") && text == lib.upper(req.verb))
    || (Called(item, "@target-uri") && text == req.url)
    || exists name :: && Called(item, name) && !("@" <= name) && name in req.headers
                      && IsHeaderValue(lib, req.headers[name], item.params, text)
  }

  /** The derived components that are supported. */
  const DERIVED: set<string> := {"@authority", "@method", "@path", "@query", "@target-uri"}

  /** Why a component has no value. */
  predicate IsError(lib: Library, req: Request, item: Item, error: BaseError) {
    match error
    case UnsupportedDerived(name) => Called(item, name) && "@" <= name && name !in DERIVED
    case HeaderMissing(name) => Called(item, name) && !("@" <= name) && name !in req.headers
    case NotDictionary(name) =>
      && Called(item, name) && !("@" <= name) && name in req.headers
      && Lookup(item.params, "key").Some?
      && lib.dictMember(req.headers[name], Lookup(item.params, "key").value) == NotADictionary
    case MemberMissing(name) =>
      && Called(item, name) && !("@" <= name) && name in req.headers
      && Lookup(item.params, "key").Some?
      && lib.dictMember(req.headers[name], Lookup(item.params, "key").value) == NoMember
    case Duplicate(_) => false
  }

  /** The component makes the code raise something other than a `SignatureBaseError`: its name is not text,
      or its value is read from a URL that `urlsplit` rejects. */
  predicate RaisesAt(lib: Library, req: Request, item: Item) {
    || (!item.value.Str? && !item.value.Token?)
    || (lib.split(req.url) == None
        && (Called(item, "@path") || Called(item, "@query") || (Called(item, "@authority") && !HasHost(req))))
  }

  lemma RaisesIffRaisesAt(lib: Library, req: Request, item: Item)
    ensures ComponentValue(lib, req, item) == Raises <==> RaisesAt(lib, req, item)
  {
  }

  lemma CalledByItsName(item: Item)
    ensures match NameOf(item.value)
            case None => forall n :: !Called(item, n)
            case Some(name) => forall n :: Called(item, n) <==> n == name
  {
  }

  /** The supported names differ in length. */
  lemma DerivedNames()
    ensures |"@path"| == 5 && |"@query"| == 6 && |"@method"| == 7 && |"@authority"| == 10 && |"@target-uri"| == 11
    ensures forall name :: name in DERIVED ==> "@" <= name
  {
  }

  /** The value that is computed is what the component stands for. */
  lemma ValueMeans(lib: Library, req: Request, item: Item, text: string)
    ensures ComponentValue(lib, req, item) == Value(text) <==> IsValue(lib, req, item, text)
  {
    hide Strip, Lookup, Called;
    CalledByItsName(item);
    DerivedNames();
  }

  /** And so is the error. */
  lemma ErrorMeans(lib: Library, req: Request, item: Item, error: BaseError)
    ensures ComponentValue(lib, req, item) == NoValue(error) <==> IsError(lib, req, item, error)
  {
    hide Strip, Lookup, Called;
    CalledByItsName(item);
    DerivedNames();
  }

  function IdParam(lib: Library, p: Param): string {
    if p.value == Boolean(true) then ";" + p.key
    else if p.value.Str? then ";" + p.key + "=\"" + p.value.s + "\""
    else ";" + p.key + "=" + lib.show(p.value)
  }

  function IdParams(lib: Library, ps: seq<Param>): string {
    if ps == [] then "" else IdParams(lib, ps[..|ps| - 1]) + IdParam(lib, ps[|ps| - 1])
  }

  /** Python's `str` of a component name. */
  function IdName(lib: Library, v: BareItem): string {
    match NameOf(v)
    case Some(name) => name
    case None => lib.show(v)
  }

  /** The component identifier; unlike the serializer it does not escape. */
  function ComponentId(lib: Library, item: Item): string {
    "\"" + IdName(lib, item.value) + "\"" + IdParams(lib, item.params)
  }

  /** `_component_id` accumulates its parameters in a loop. */
  method BuildComponentId(lib: Library, item: Item) returns (id: string)
    ensures id == ComponentId(lib, item)
  {
    hide IdParam, IdName;
    id := "\"" + IdName(lib, item.value) + "\"";
    assert IdParams(lib, item.params[..0]) == "";
    for i := 0 to |item.params|
      invariant id == "\"" + IdName(lib, item.value) + "\"" + IdParams(lib, item.params[..i])
    {
      assert item.params[..i + 1][..i] == item.params[..i];
      id := id + IdParam(lib, item.params[i]);
    }
    assert item.params[..|item.params|] == item.params;
  }

  /** What a parameter adds to an identifier: only texts are quoted. */
  function ParamPiece(lib: Library, p: Param): string {
    match p.value
    case Boolean(true) => ";" + p.key
    case Str(t) => ";" + p.key + "=\"" + t + "\""
    case _ => ";" + p.key + "=" + lib.show(p.value)
  }

  /** The identifier of a component, parameter by parameter. */
  lemma IdentifierGrows(lib: Library, v: BareItem, params: seq<Param>, p: Param)
    ensures v.Str? ==> ComponentId(lib, Item(v, [])) == "\"" + v.s + "\""
    ensures ComponentId(lib, Item(v, params + [p])) == ComponentId(lib, Item(v, params)) + ParamPiece(lib, p)
  {
    var all := params + [p];
    assert all[..|all| - 1] == params && all[|all| - 1] == p;
    IdParamIsPiece(lib, p);
    hide IdParam, ParamPiece;
    assert IdParams(lib, all) == IdParams(lib, params) + ParamPiece(lib, p);
    if v.Str? {
      assert "\"" + v.s + "\"" + "" == "\"" + v.s + "\"";
    }
  }

  lemma IdParamIsPiece(lib: Library, p: Param)
    ensures IdParam(lib, p) == ParamPiece(lib, p)
  {
  }

  /** The text has no character that the serializer escapes. */
  predicate Unescaped(s: string) {
    Free('"', s) && Free('\\', s)
  }

  predicate UnescapedParams(ps: seq<Param>) {
    forall p :: p in ps && p.value.Str? ==> Unescaped(p.value.s)
  }

  /** Python writes what is neither a text nor true as the serializer does; so it writes numbers. */
  ghost predicate ShowsAlike(lib: Library, ps: seq<Param>) {
    forall p :: p in ps && !p.value.Str? && p.value != Boolean(true) ==> lib.show(p.value) == Bare(p.value)
  }

  lemma {:induction false} EscapeLonger(s: string)
    ensures |Escape(s)| >= |s| && (|Escape(s)| == |s| ==> Unescaped(s)) && (Unescaped(s) ==> Escape(s) == s)
  {
    if s != "" {
      EscapeLonger(s[1..]);
      assert s == [s[0]] + s[1..];
    }
  }

  lemma OneParamLonger(lib: Library, p: Param)
    requires ShowsAlike(lib, [p])
    ensures |OneParam(p)| >= |IdParam(lib, p)| && (|OneParam(p)| == |IdParam(lib, p)| ==> UnescapedParams([p]))
    ensures UnescapedParams([p]) ==> OneParam(p) == IdParam(lib, p)
  {
    hide Escape, Unescaped;
    if p.value.Str? {
      EscapeLonger(p.value.s);
      assert p in [p];
      assert ";" + p.key + ("=" + ("\"" + p.value.s + "\"")) == ";" + p.key + "=\"" + p.value.s + "\"";
    } else if p.value != Boolean(true) {
      assert p in [p];
      assert ";" + p.key + ("=" + Bare(p.value)) == ";" + p.key + "=" + Bare(p.value);
    } else {
      assert ";" + p.key + "" == ";" + p.key;
    }
  }

  lemma {:induction false} ParamsLast(ps: seq<Param>, p: Param)
    ensures Params(ps + [p]) == Params(ps) + OneParam(p)
  {
    hide OneParam;
    if ps == [] {
      assert [p][1..] == [] && OneParam(p) + "" == "" + OneParam(p);
    } else {
      assert (ps + [p])[1..] == ps[1..] + [p];
      ParamsLast(ps[1..], p);
    }
  }

  lemma {:induction false} ParamsLonger(lib: Library, ps: seq<Param>)
    requires ShowsAlike(lib, ps)
    ensures |Params(ps)| >= |IdParams(lib, ps)| && (|Params(ps)| == |IdParams(lib, ps)| ==> UnescapedParams(ps))
    ensures UnescapedParams(ps) ==> Params(ps) == IdParams(lib, ps)
  {
    hide OneParam, IdParam, Unescaped, Bare, Params;
    if ps == [] {
      NoParams();
    } else {
      var n := |ps| - 1;
      assert ps == ps[..n] + [ps[n]];
      ParamsLonger(lib, ps[..n]);
      OneParamLonger(lib, ps[n]);
      ParamsLast(ps[..n], ps[n]);
    }
  }

  lemma NoParams()
    ensures Params([]) == ""
  {
  }

  /** Section 2.5 of RFC 9421 asks for the serialized item as identifier. Exactly when the code, which does
      not escape, writes that: when there is nothing to escape. */
  lemma IdIsSerializedIff(lib: Library, name: string, ps: seq<Param>)
    requires ShowsAlike(lib, ps)
    ensures ComponentId(lib, Item(Str(name), ps)) == OneItem(Item(Str(name), ps))
       <==> Unescaped(name) && UnescapedParams(ps)
  {
    hide Escape, Unescaped, Params, IdParams, ShowsAlike, UnescapedParams;
    EscapeLonger(name);
    ParamsLonger(lib, ps);
  }

  // ---------- the base ----------

  const SIGNATURE_PARAMS := "\"@signature-params\": "

  ghost predicate Repeats(lib: Library, items: seq<Item>, k: nat)
    requires k < |items|
  {
    exists j :: 0 <= j < k && ComponentId(lib, items[j]) == ComponentId(lib, items[k])
  }

  /** Whether component `k` can be added, given the ones before it. */
  ghost predicate Addable(lib: Library, req: Request, items: seq<Item>, k: nat)
    requires k < |items|
  {
    !Repeats(lib, items, k) && ComponentValue(lib, req, items[k]).Value?
  }

  ghost predicate AllAddable(lib: Library, req: Request, items: seq<Item>) {
    forall k :: 0 <= k < |items| ==> Addable(lib, req, items, k)
  }

  function ValueText(lib: Library, req: Request, item: Item): string {
    match ComponentValue(lib, req, item)
    case Value(text) => text
    case _ => ""
  }

  function Line(lib: Library, req: Request, item: Item): string {
    ComponentId(lib, item) + ": " + ValueText(lib, req, item)
  }

  function Lines(lib: Library, req: Request, items: seq<Item>): seq<string> {
    seq(|items|, i requires 0 <= i < |items| => Line(lib, req, items[i]))
  }

  function BaseText(lib: Library, req: Request, l: InnerList): string {
    Join('\n', Lines(lib, req, l.items) + [SIGNATURE_PARAMS + Serialize(l)])
  }

  /** What the loop of `build_signature_base` computes from component `k` on. */
  function BaseFrom(lib: Library, req: Request, l: InnerList, k: nat, seen: set<string>): BaseResult
    requires k <= |l.items|
    decreases |l.items| - k
  {
    if k == |l.items| then Base(BaseText(lib, req, l))
    else
      var id := ComponentId(lib, l.items[k]);
      if id in seen then Failed(Duplicate(id))
      else
        match ComponentValue(lib, req, l.items[k])
        case Raises => Raised
        case NoValue(error) => Failed(error)
        case Value(_) => BaseFrom(lib, req, l, k + 1, seen + {id})
  }

  function SignatureBaseOf(lib: Library, req: Request, l: InnerList): BaseResult {
    BaseFrom(lib, req, l, 0, {})
  }

  method BuildSignatureBase(lib: Library, req: Request, l: InnerList) returns (r: BaseResult)
    ensures r == SignatureBaseOf(lib, req, l)
    ensures IsBuilt(lib, req, l, r)
  {
    hide ComponentId, ComponentValue, Serialize, Join, IsBuilt;
    BaseIsBase(lib, req, l, SignatureBaseOf(lib, req, l));
    var lines: seq<string>, seen: set<string> := [], {};
    var k := 0;
    while k < |l.items|
      invariant k <= |l.items|
      invariant SignatureBaseOf(lib, req, l) == BaseFrom(lib, req, l, k, seen)
      invariant lines == Lines(lib, req, l.items[..k])
    {
      var item := l.items[k];
      var id := BuildComponentId(lib, item);
      if id in seen {
        return Failed(Duplicate(id));
      }
      var value := ComponentValue(lib, req, item);
      if value.Raises? {
        return Raised;
      }
      if value.NoValue? {
        return Failed(value.error);
      }
      seen := seen + {id};
      lines := lines + [id + ": " + value.text];
      k := k + 1;
    }
    assert l.items[..k] == l.items;
    r := Base(Join('\n', lines + [SIGNATURE_PARAMS + Serialize(l)]));
  }

  /** Component `k` is the first that cannot be added. */
  ghost predicate FailsAt(lib: Library, req: Request, items: seq<Item>, k: nat) {
    && k < |items| && !Addable(lib, req, items, k)
    && forall j :: 0 <= j < k ==> Addable(lib, req, items, j)
  }

  /** What is reported of a component that cannot be added, a repetition before a missing value. */
  ghost function Failure(lib: Library, req: Request, items: seq<Item>, k: nat): BaseResult
    requires FailsAt(lib, req, items, k)
  {
    if Repeats(lib, items, k) then Failed(Duplicate(ComponentId(lib, items[k])))
    else if RaisesAt(lib, req, items[k]) then Raised
    else RaisesIffRaisesAt(lib, req, items[k]); Failed(ComponentValue(lib, req, items[k]).error)
  }

  /** The result: the base when every component can be added, otherwise the error or exception of the first
      one that cannot. */
  ghost predicate IsBase(lib: Library, req: Request, l: InnerList, r: BaseResult) {
    if AllAddable(lib, req, l.items) then r == Base(BaseText(lib, req, l))
    else exists k: nat :: FailsAt(lib, req, l.items, k) && r == Failure(lib, req, l.items, k)
  }

  lemma {:induction false} BaseFromIsBase(lib: Library, req: Request, l: InnerList, k: nat, seen: set<string>)
    requires k <= |l.items|
    requires forall j :: 0 <= j < k ==> Addable(lib, req, l.items, j)
    requires forall id :: id in seen <==> exists j :: 0 <= j < k && ComponentId(lib, l.items[j]) == id
    ensures IsBase(lib, req, l, BaseFrom(lib, req, l, k, seen))
    decreases |l.items| - k
  {
    hide ComponentId, ComponentValue, BaseText, RaisesAt;
    if k < |l.items| {
      var id := ComponentId(lib, l.items[k]);
      if id !in seen && ComponentValue(lib, req, l.items[k]).Value? {
        assert !Repeats(lib, l.items, k);
        BaseFromIsBase(lib, req, l, k + 1, seen + {id});
      } else {
        assert Repeats(lib, l.items, k) <==> id in seen;
        RaisesIffRaisesAt(lib, req, l.items[k]);
        assert FailsAt(lib, req, l.items, k);
      }
    }
  }

  lemma BaseByComponents(lib: Library, req: Request, l: InnerList)
    ensures IsBase(lib, req, l, SignatureBaseOf(lib, req, l))
  {
    BaseFromIsBase(lib, req, l, 0, {});
  }

  /** A line of the base: the identifier of a component and what the component stands for. */
  ghost predicate IsLine(lib: Library, req: Request, item: Item, line: string) {
    exists value :: IsValue(lib, req, item, value) && line == ComponentId(lib, item) + ": " + value
  }

  ghost predicate HasLine(lib: Library, req: Request, item: Item) {
    exists line :: IsLine(lib, req, item, line)
  }

  /** The components before `k` are different and stand for something. */
  ghost predicate GoodUpTo(lib: Library, req: Request, items: seq<Item>, k: nat) {
    k <= |items| && forall j :: 0 <= j < k ==> !Repeats(lib, items, j) && HasLine(lib, req, items[j])
  }

  /** One line for each component and one for the parameters. */
  ghost predicate AreLines(lib: Library, req: Request, l: InnerList, lines: seq<string>) {
    && |lines| == |l.items| + 1 && lines[|l.items|] == "\"@signature-params\": " + Serialize(l)
    && forall k :: 0 <= k < |l.items| ==> IsLine(lib, req, l.items[k], lines[k])
  }

  /** What is reported of component `k`: that it repeats, or why it stands for nothing. */
  ghost predicate StopsWith(lib: Library, req: Request, items: seq<Item>, k: nat, r: BaseResult)
    requires k < |items|
  {
    if Repeats(lib, items, k) then r == Failed(Duplicate(ComponentId(lib, items[k])))
    else if r.Failed? then IsError(lib, req, items[k], r.error)
    else r == Raised && RaisesAt(lib, req, items[k])
  }

  /** What section 2.5 of RFC 9421 makes of a request: a text of such lines; or the error or exception of the
      first component that repeats or stands for nothing. */
  ghost predicate IsBuilt(lib: Library, req: Request, l: InnerList, r: BaseResult) {
    match r
    case Base(text) =>
      && GoodUpTo(lib, req, l.items, |l.items|)
      && exists lines :: AreLines(lib, req, l, lines) && text == Join('\n', lines)
    case _ => exists k: nat :: k < |l.items| && GoodUpTo(lib, req, l.items, k) && StopsWith(lib, req, l.items, k, r)
  }

  lemma HasLineIff(lib: Library, req: Request, item: Item)
    ensures HasLine(lib, req, item) <==> ComponentValue(lib, req, item).Value?
    ensures forall line :: IsLine(lib, req, item, line) <==>
                             ComponentValue(lib, req, item).Value? && line == Line(lib, req, item)
  {
    hide ComponentValue, IsValue, ComponentId;
    forall text
      ensures ComponentValue(lib, req, item) == Value(text) <==> IsValue(lib, req, item, text)
    {
      ValueMeans(lib, req, item, text);
    }
    if ComponentValue(lib, req, item).Value? {
      assert IsLine(lib, req, item, Line(lib, req, item));
    }
  }

  lemma GoodUpToIff(lib: Library, req: Request, items: seq<Item>, k: nat)
    ensures GoodUpTo(lib, req, items, k) <==> k <= |items| && forall j :: 0 <= j < k ==> Addable(lib, req, items, j)
  {
    hide HasLine, ComponentValue, Repeats;
    forall j | 0 <= j < |items|
      ensures Addable(lib, req, items, j) <==> !Repeats(lib, items, j) && HasLine(lib, req, items[j])
    {
      HasLineIff(lib, req, items[j]);
    }
  }

  lemma LinesAreLines(lib: Library, req: Request, l: InnerList, lines: seq<string>)
    requires AllAddable(lib, req, l.items)
    ensures AreLines(lib, req, l, lines)
       <==> lines == Lines(lib, req, l.items) + ["\"@signature-params\": " + Serialize(l)]
  {
    hide IsLine, ComponentValue, Line, Serialize, Repeats;
    forall k | 0 <= k < |l.items|
      ensures forall line :: IsLine(lib, req, l.items[k], line) <==> line == Line(lib, req, l.items[k])
    {
      assert Addable(lib, req, l.items, k);
      HasLineIff(lib, req, l.items[k]);
    }
    var all := Lines(lib, req, l.items) + ["\"@signature-params\": " + Serialize(l)];
    if AreLines(lib, req, l, lines) {
      assert forall k :: 0 <= k < |lines| ==> lines[k] == all[k];
    }
  }

  lemma StopsWithFailure(lib: Library, req: Request, items: seq<Item>, k: nat, r: BaseResult)
    requires k < |items|
    ensures Addable(lib, req, items, k) ==> !StopsWith(lib, req, items, k, r)
    ensures FailsAt(lib, req, items, k) ==> (StopsWith(lib, req, items, k, r) <==> r == Failure(lib, req, items, k))
  {
    hide Repeats, ComponentValue, IsError, RaisesAt, ComponentId, IsValue;
    RaisesIffRaisesAt(lib, req, items[k]);
    if r.Failed? {
      ErrorMeans(lib, req, items[k], r.error);
    }
  }

  lemma GoodBase(lib: Library, req: Request, l: InnerList, r: BaseResult)
    requires AllAddable(lib, req, l.items)
    ensures r == Base(BaseText(lib, req, l)) <==> IsBuilt(lib, req, l, r)
  {
    hide Addable, Serialize, Lines, AreLines, StopsWith, GoodUpTo, Join;
    GoodUpToIff(lib, req, l.items, |l.items|);
    var all := Lines(lib, req, l.items) + [SIGNATURE_PARAMS + Serialize(l)];
    forall lines
      ensures AreLines(lib, req, l, lines) <==> lines == all
    {
      LinesAreLines(lib, req, l, lines);
    }
    if k: nat :| k < |l.items| && StopsWith(lib, req, l.items, k, r) {
      StopsWithFailure(lib, req, l.items, k, r);
    }
  }

  lemma BadBase(lib: Library, req: Request, l: InnerList, k: nat, r: BaseResult)
    requires FailsAt(lib, req, l.items, k)
    ensures r == Failure(lib, req, l.items, k) <==> IsBuilt(lib, req, l, r)
  {
    hide Addable, AreLines, StopsWith, GoodUpTo, Join, Failure;
    FailureIsNoBase(lib, req, l.items, k);
    GoodUpToIff(lib, req, l.items, |l.items|);
    GoodUpToIff(lib, req, l.items, k);
    StopsWithFailure(lib, req, l.items, k, r);
    if !r.Base? && IsBuilt(lib, req, l, r) {
      var j: nat :| j < |l.items| && GoodUpTo(lib, req, l.items, j) && StopsWith(lib, req, l.items, j, r);
      GoodUpToIff(lib, req, l.items, j);
      StopsWithFailure(lib, req, l.items, j, r);
      assert j == k;
    }
  }

  lemma FailureIsNoBase(lib: Library, req: Request, items: seq<Item>, k: nat)
    requires FailsAt(lib, req, items, k)
    ensures !Failure(lib, req, items, k).Base?
  {
  }

  /** The result of building the base is this, and nothing else is. */
  lemma BaseIsBase(lib: Library, req: Request, l: InnerList, r: BaseResult)
    ensures r == SignatureBaseOf(lib, req, l) <==> IsBuilt(lib, req, l, r)
  {
    hide SignatureBaseOf, Addable, BaseText, Failure, IsBuilt, FailsAt;
    BaseByComponents(lib, req, l);
    if AllAddable(lib, req, l.items) {
      GoodBase(lib, req, l, r);
    } else {
      var k: nat :| FailsAt(lib, req, l.items, k) && SignatureBaseOf(lib, req, l) == Failure(lib, req, l.items, k);
      BadBase(lib, req, l, k, r);
    }
  }

  /** Exactly when building the base raises: the first component that cannot be added is not a repetition,
      and its name is not text or its value is read from a URL that `urlsplit` rejects. */
  lemma BaseRaisesIff(lib: Library, req: Request, l: InnerList)
    ensures SignatureBaseOf(lib, req, l) == Raised <==>
              exists k: nat :: && FailsAt(lib, req, l.items, k) && !Repeats(lib, l.items, k)
                               && RaisesAt(lib, req, l.items[k])
  {
    hide BaseFrom, SignatureBaseOf, Addable, Repeats, ComponentId, BaseText, RaisesAt;
    BaseByComponents(lib, req, l);
    if j: nat, k: nat :| FailsAt(lib, req, l.items, j) && FailsAt(lib, req, l.items, k) && j != k {
      assert false;
    }
  }

  // ---------- what the base determines ----------

  /** Python never writes a line break for a parameter value that is not a string. */
  ghost predicate ShowsOnOneLine(lib: Library) {
    forall v :: Free('\n', lib.show(v))
  }

  /** No covered value contains a line break. */
  ghost predicate PlainValues(lib: Library, req: Request, items: seq<Item>) {
    forall i :: i in items ==> Free('\n', ValueText(lib, req, i))
  }

  ghost predicate SameValues(lib: Library, p: Request, q: Request, items: seq<Item>) {
    forall i :: i in items ==> ComponentValue(lib, p, i) == ComponentValue(lib, q, i)
  }

  lemma LastLine(lib: Library, req: Request, l: InnerList)
    requires Valid(l)
    ensures AfterLast('\n', BaseText(lib, req, l)) == SIGNATURE_PARAMS + Serialize(l)
  {
    hide Serialize, Valid, Line, Join, AfterLast;
    var lines, last := Lines(lib, req, l.items), SIGNATURE_PARAMS + Serialize(l);
    SerializePrintable(l);
    assert Free('\n', last);
    JoinLast('\n', lines, last);
    if lines == [] {
      AfterLastFree(last);
    } else {
      AfterLastAppend('\n', Join('\n', lines), last);
    }
  }

  lemma AfterLastFree(s: string)
    requires Free('\n', s)
    ensures AfterLast('\n', s) == s
  {
  }

  /** The bytes determine the inner list, components and parameters, whatever the values are. */
  lemma BaseDeterminesInnerList(lib: Library, p: Request, l: InnerList, q: Request, m: InnerList)
    requires Valid(l) && Valid(m)
    requires Utf8.Encode(BaseText(lib, p, l)) == Utf8.Encode(BaseText(lib, q, m))
    ensures l == m
  {
    hide BaseText, Serialize, Parse, Valid, AfterLast, Utf8.Encode;
    Utf8.EncodeInjective(BaseText(lib, p, l), BaseText(lib, q, m));
    LastLine(lib, p, l);
    LastLine(lib, q, m);
    SamePrefix(SIGNATURE_PARAMS, Serialize(l), Serialize(m));
    RoundTrip(l);
    RoundTrip(m);
  }

  lemma SamePrefix(prefix: string, a: string, b: string)
    requires prefix + a == prefix + b
    ensures a == b
  {
    assert (prefix + a)[|prefix|..] == a && (prefix + b)[|prefix|..] == b;
  }

  lemma IdParamPlain(lib: Library, p: Param)
    requires ShowsOnOneLine(lib) && ValidParam(p)
    ensures Free('\n', IdParam(lib, p))
  {
    ClassPrintable(KeyChars, p.key);
    hide Is, All;
  }

  lemma {:induction false} IdParamsPlain(lib: Library, ps: seq<Param>)
    requires ShowsOnOneLine(lib) && ValidParams(ps)
    ensures Free('\n', IdParams(lib, ps))
  {
    hide Is, All, IdParam, ValidParam;
    if ps != [] {
      var n := |ps| - 1;
      assert ps[n] in ps && forall p :: p in ps[..n] ==> p in ps;
      IdParamPlain(lib, ps[n]);
      IdParamsPlain(lib, ps[..n]);
    }
  }

  function Ids(lib: Library, items: seq<Item>): (ids: seq<string>)
    ensures |ids| == |items|
  {
    seq(|items|, i requires 0 <= i < |items| => ComponentId(lib, items[i]))
  }

  function Values(lib: Library, req: Request, items: seq<Item>): (values: seq<string>)
    ensures |values| == |items|
  {
    seq(|items|, i requires 0 <= i < |items| => ValueText(lib, req, items[i]))
  }

  /** The base is a text of lines `id: value` that ends with the line of the parameters. */
  lemma {:induction false} BaseIsWritten(lib: Library, req: Request, items: seq<Item>, last: string)
    ensures Join('\n', Lines(lib, req, items) + [last])
         == LabelledLines.Written(Ids(lib, items), Values(lib, req, items), last)
  {
    hide ComponentId, ValueText;
    var lines := Lines(lib, req, items) + [last];
    if items != [] {
      assert lines[1..] == Lines(lib, req, items[1..]) + [last];
      assert Ids(lib, items)[1..] == Ids(lib, items[1..]);
      assert Values(lib, req, items)[1..] == Values(lib, req, items[1..]);
      BaseIsWritten(lib, req, items[1..], last);
    }
  }

  lemma IdNamePlain(lib: Library, v: BareItem)
    requires ShowsOnOneLine(lib) && ValidBare(v)
    ensures Free('\n', IdName(lib, v))
  {
    match v
    case Token(t) => ClassPrintable(TokenChars, t);
    case _ =>
  }

  lemma BaseIsOneLined(lib: Library, l: InnerList)
    requires Valid(l) && ShowsOnOneLine(lib)
    ensures LabelledLines.OneLined(Ids(lib, l.items), SIGNATURE_PARAMS + Serialize(l))
  {
    hide Serialize, IdParams, ShowsOnOneLine, IdName, ValidBare;
    SerializePrintable(l);
    forall id | id in Ids(lib, l.items)
      ensures Free('\n', id)
    {
      var k :| 0 <= k < |l.items| && id == ComponentId(lib, l.items[k]);
      assert l.items[k] in l.items && ValidItem(l.items[k]);
      IdNamePlain(lib, l.items[k].value);
      IdParamsPlain(lib, l.items[k].params);
    }
  }

  /** The separator `line break, identifier, colon, space` of some component but the first occurs inside the
      value of that component or of the one before it. */
  ghost predicate Splittable(lib: Library, req: Request, items: seq<Item>) {
    LabelledLines.Splittable(Ids(lib, items), Values(lib, req, items))
  }

  /** The values `others`, in place of the request's, give the base the same text. */
  ghost predicate SameTextFrom(lib: Library, req: Request, l: InnerList, others: seq<string>) {
    LabelledLines.Reads(Ids(lib, l.items), others, SIGNATURE_PARAMS + Serialize(l), BaseText(lib, req, l))
  }

  /** Exactly when the text of a base leaves the values open: other values give the same text if and only if
      the values are splittable. */
  lemma BaseAmbiguousIffSplittable(lib: Library, req: Request, l: InnerList)
    requires Valid(l) && ShowsOnOneLine(lib)
    ensures (exists others :: others != Values(lib, req, l.items) && SameTextFrom(lib, req, l, others))
       <==> Splittable(lib, req, l.items)
  {
    hide Serialize, Join, Valid, LabelledLines.Written, LabelledLines.Splittable, LabelledLines.OneLined, Ids, Values;
    var ids, values, last := Ids(lib, l.items), Values(lib, req, l.items), SIGNATURE_PARAMS + Serialize(l);
    BaseIsWritten(lib, req, l.items, last);
    BaseIsOneLined(lib, l);
    LabelledLines.AmbiguousIffSplittable(ids, values, last);
    assert BaseText(lib, req, l) == LabelledLines.Written(ids, values, last);
    if w :| w != values && LabelledLines.Reads(ids, w, last, LabelledLines.Written(ids, values, last)) {
      assert SameTextFrom(lib, req, l, w);
    }
  }

  /** Values without line breaks are not splittable. */
  lemma PlainIsNotSplittable(lib: Library, req: Request, items: seq<Item>)
    requires PlainValues(lib, req, items)
    ensures !Splittable(lib, req, items)
  {
    hide LabelledLines.Splittable, ValueText, ComponentId;
    forall x | x in Values(lib, req, items)
      ensures Free('\n', x)
    {
      var k :| 0 <= k < |items| && x == ValueText(lib, req, items[k]);
      assert items[k] in items;
    }
    LabelledLines.PlainIsNotSplittable(Ids(lib, items), Values(lib, req, items));
  }

  /** Two requests whose bases are the same bytes were signed over the same inner list and have the same
      value for every covered component. Only the values of one request must not be splittable; the other
      request may be anything, so it may be one that was made up to match. */
  lemma BaseInjective(lib: Library, p: Request, l: InnerList, q: Request, m: InnerList)
    requires Valid(l) && Valid(m) && ShowsOnOneLine(lib)
    requires SignatureBaseOf(lib, p, l).Base? && SignatureBaseOf(lib, q, m).Base?
    requires SignatureBaseOf(lib, p, l).Bytes() == SignatureBaseOf(lib, q, m).Bytes()
    requires !Splittable(lib, p, l.items)
    ensures l == m && SameValues(lib, p, q, l.items)
  {
    hide BaseText, Valid, ComponentValue, ComponentId, Serialize, Utf8.Encode, BaseFrom, Splittable, Join;
    BaseByComponents(lib, p, l);
    BaseByComponents(lib, q, m);
    BaseDeterminesInnerList(lib, p, l, q, m);
    Utf8.EncodeInjective(BaseText(lib, p, l), BaseText(lib, q, m));
    BaseAmbiguousIffSplittable(lib, p, l);
    BaseReads(lib, q, l);
    assert SameTextFrom(lib, p, l, Values(lib, q, l.items));
    forall i | i in l.items
      ensures ComponentValue(lib, p, i) == ComponentValue(lib, q, i)
    {
      var k :| 0 <= k < |l.items| && l.items[k] == i;
      assert Values(lib, p, l.items)[k] == Values(lib, q, l.items)[k];
      assert Addable(lib, p, l.items, k) && Addable(lib, q, l.items, k);
    }
  }

  lemma BaseReads(lib: Library, req: Request, l: InnerList)
    ensures SameTextFrom(lib, req, l, Values(lib, req, l.items))
  {
    hide Join, Serialize, LabelledLines.Written, Ids, Values;
    BaseIsWritten(lib, req, l.items, SIGNATURE_PARAMS + Serialize(l));
  }

  /** The base depends on the request only through the covered values. */
  lemma {:induction false} SameValuesSameBase(lib: Library, p: Request, q: Request, l: InnerList, k: nat,
                                              seen: set<string>)
    requires SameValues(lib, p, q, l.items) && k <= |l.items|
    ensures BaseFrom(lib, p, l, k, seen) == BaseFrom(lib, q, l, k, seen)
    decreases |l.items| - k
  {
    hide ComponentId, ComponentValue, Serialize, Join;
    if k == |l.items| {
      assert Lines(lib, p, l.items) == Lines(lib, q, l.items);
    } else {
      assert l.items[k] in l.items;
      SameValuesSameBase(lib, p, q, l, k + 1, seen + {ComponentId(lib, l.items[k])});
    }
  }

  /** Line breaks would be ambiguous: these two requests have the same base and different values. */
  lemma LineBreaksAreAmbiguous(lib: Library)
    ensures var l := InnerList([Item(Str("a"), []), Item(Str("b"), [])], []);
            var mid := "\n\"b\": ";
            var p := Request("GET", "", map["a" := "1" + mid + "2", "b" := "3"]);
            var q := Request("GET", "", map["a" := "1", "b" := "2" + mid + "3"]);
            && BaseText(lib, p, l) == BaseText(lib, q, l)
            && !SameValues(lib, p, q, l.items)
  {
    hide Serialize, Strip, IsSpace, Join, Lookup;
    var a, b, mid := Item(Str("a"), []), Item(Str("b"), []), "\n\"b\": ";
    var l := InnerList([a, b], []);
    var p := Request("GET", "", map["a" := "1" + mid + "2", "b" := "3"]);
    var q := Request("GET", "", map["a" := "1", "b" := "2" + mid + "3"]);
    PlainHeader(lib, p, "a");
    PlainHeader(lib, p, "b");
    PlainHeader(lib, q, "a");
    PlainHeader(lib, q, "b");
    hide ComponentValue, Line;
    assert "\"" + "a" + "\": " == "\"a\": " && "\"" + "b" + "\": " == "\"b\": ";
    var last := SIGNATURE_PARAMS + Serialize(l);
    assert Lines(lib, p, l.items) + [last] == ["\"a\": " + ("1" + mid + "2"), "\"b\": " + "3", last];
    assert Lines(lib, q, l.items) + [last] == ["\"a\": " + "1", "\"b\": " + ("2" + mid + "3"), last];
    Regroup("\"a\": ", "\"b\": ", "1", "2", "3", last);
    assert mid == "\n" + "\"b\": ";
    assert ComponentValue(lib, p, a) != ComponentValue(lib, q, a) && a in l.items;
  }

  /** Both groupings of the same pieces into lines give the same text. */
  lemma Regroup(a: string, b: string, x: string, y: string, z: string, last: string)
    ensures var mid := "\n" + b;
            Join('\n', [a + (x + mid + y), b + z, last]) == Join('\n', [a + x, b + (y + mid + z), last])
  {
    var mid := "\n" + b;
    JoinThree([a + (x + mid + y), b + z, last]);
    JoinThree([a + x, b + (y + mid + z), last]);
    hide Join;
    assert a + (x + mid + y) + "\n" + (b + z) == a + x + "\n" + (b + (y + mid + z));
  }

  /** A short parameterless header whose value begins and ends with a digit. */
  lemma PlainHeader(lib: Library, req: Request, name: string)
    requires (name == "a" || name == "b") && name in req.headers
    requires var v := req.headers[name]; v != "" && IsDigit(v[0]) && IsDigit(v[|v| - 1])
    ensures ComponentValue(lib, req, Item(Str(name), [])) == Value(req.headers[name])
    ensures Line(lib, req, Item(Str(name), [])) == "\"" + name + "\": " + req.headers[name]
  {
    NothingToStrip(req.headers[name]);
    assert ComponentId(lib, Item(Str(name), [])) == "\"" + name + "\"";
    assert "\"" + name + "\"" + ": " == "\"" + name + "\": ";
  }

  lemma NothingToStrip(s: string)
    requires s != "" && !IsSpace(s[0]) && !IsSpace(s[|s| - 1])
    ensures Strip(s) == s
  {
    assert Span(Spaces, s) == 0;
  }

  lemma JoinThree(parts: seq<string>)
    requires |parts| == 3
    ensures Join('\n', parts) == parts[0] + "\n" + parts[1] + "\n" + parts[2]
  {
    assert parts[1..][1..] == [parts[2]];
    assert Join('\n', parts[1..]) == parts[1] + "\n" + parts[2];
  }
}
