/** API definitions, semantic versions, and resolving a request to a declared operation. */
module Catalog {
  import opened Text
  import opened JsMap

  datatype Lifecycle = DRAFT | REVIEW | APPROVED | PUBLISHED | DEPRECATED | RETIRED

  datatype Environment = Development | Staging | Production

  datatype Authentication =
    ApiKey | ClientCredentials | AuthorizationCode | ServiceAccountJwt | Session | Unauthenticated

  datatype Classification = PUBLIC | INTERNAL | CONFIDENTIAL | RESTRICTED | HIGHLY_RESTRICTED {
    function Rank(): nat {
      match this
      case PUBLIC => 0
      case INTERNAL => 1
      case CONFIDENTIAL => 2
      case RESTRICTED => 3
      case HIGHLY_RESTRICTED => 4
    }
  }

  datatype Operation = Operation(
    operationId: string,
    verb: string,
    path: string,
    scopes: seq<string>,
    classification: Classification,
    idempotent: bool,
    deprecated: bool)

  /** A version that satisfies the schema's `major.minor.patch` pattern. */
  datatype Semver = Semver(major: nat, minor: nat, patch: nat)

  datatype Definition = Definition(
    apiId: string,
    version: Semver,
    environment: Environment,
    lifecycle: Lifecycle,
    authentication: Authentication,
    scopes: seq<string>,
    operations: seq<Operation>)

  // --- versions ---------------------------------------------------------------

  /** Negative, zero or positive, as the source's comparison returns. */
  function CompareSemver(left: Semver, right: Semver): int {
    if left.major != right.major then left.major - right.major
    else if left.minor != right.minor then left.minor - right.minor
    else left.patch - right.patch
  }

  function VersionText(v: Semver): string {
    Numeral(v.major, Decimal) + "." + Numeral(v.minor, Decimal) + "." + Numeral(v.patch, Decimal)
  }

  /** `text.split('.').map(Number)`, a missing part counting as zero. */
  function ReadVersion(text: string): Semver {
    var parts := Split(text, '.');
    Semver(ReadPart(parts, 0), ReadPart(parts, 1), ReadPart(parts, 2))
  }

  function ReadPart(parts: seq<string>, i: nat): nat {
    if i < |parts| && AllDigits(parts[i]) then Value(parts[i], Decimal) else 0
  }

  /** Splitting a version's text and reading the parts gives the version back. */
  lemma VersionRoundTrip(v: Semver)
    ensures ReadVersion(VersionText(v)) == v
  {
    var parts := [Numeral(v.major, Decimal), Numeral(v.minor, Decimal), Numeral(v.patch, Decimal)];
    forall i | 0 <= i < 3 ensures '.' !in parts[i] {
      assert AllDigits(parts[i]);
    }
    assert parts[1..][1..] == [parts[2]];
    assert Join(parts[1..], '.') == parts[1] + "." + parts[2];
    assert VersionText(v) == parts[0] + ['.'] + (parts[1] + "." + parts[2]);
    SplitJoin(parts, '.');
    NumeralValue(v.major, Decimal);
    NumeralValue(v.minor, Decimal);
    NumeralValue(v.patch, Decimal);
  }

  // --- resolving a request ----------------------------------------------------

  function NonEmpty(parts: seq<string>): (r: seq<string>)
    ensures forall i :: 0 <= i < |r| ==> r[i] != "" && r[i] in parts
  {
    if parts == [] then []
    else if parts[0] == "" then NonEmpty(parts[1..])
    else [parts[0]] + NonEmpty(parts[1..])
  }

  function Segments(path: string): seq<string> { NonEmpty(Split(path, '/')) }

  function RequestSegments(path: string): seq<string> { Segments(Split(path, '?')[0]) }

  function ToUpper(s: string): string {
    seq(|s|, i requires 0 <= i < |s| => if 'a' <= s[i] <= 'z' then 'A' + (s[i] - 'a') else s[i])
  }

  predicate SegmentMatches(declared: string, actual: string) {
    (declared != "" && declared[0] == ':') || declared == actual
  }

  /** Whether an operation answers a request: same verb, and segment by segment. */
  predicate Answers(operation: Operation, verb: string, path: string) {
    var declared, requested := Segments(operation.path), RequestSegments(path);
    && operation.verb == ToUpper(verb)
    && |declared| == |requested|
    && forall i :: 0 <= i < |declared| ==> SegmentMatches(declared[i], requested[i])
  }

  predicate Escapes(path: string) { ".." in RequestSegments(path) || "." in RequestSegments(path) }

  /** The first operation in declaration order that answers the request. */
  function FirstAnswer(operations: seq<Operation>, verb: string, path: string): (i: nat)
    ensures i <= |operations|
    ensures i < |operations| ==> Answers(operations[i], verb, path)
    ensures forall j :: 0 <= j < i ==> !Answers(operations[j], verb, path)
  {
    if operations == [] || Answers(operations[0], verb, path) then 0
    else 1 + FirstAnswer(operations[1..], verb, path)
  }

  function FindOperation(api: Definition, verb: string, path: string): Option<Operation> {
    var i := FirstAnswer(api.operations, verb, path);
    if Escapes(path) || i == |api.operations| then None else Some(api.operations[i])
  }

  /** A part of a path: not empty, and without the characters that end one. */
  predicate PathPart(part: string) { |part| > 0 && '/' !in part && '?' !in part }

  lemma {:induction false} AllNonEmpty(parts: seq<string>)
    requires forall i :: 0 <= i < |parts| ==> parts[i] != ""
    ensures NonEmpty(parts) == parts
  {
    if parts != [] { AllNonEmpty(parts[1..]); }
  }

  lemma LeadingEmpty(parts: seq<string>)
    ensures NonEmpty([""] + parts) == NonEmpty(parts)
  {
    assert ([""] + parts)[1..] == parts;
  }

  /** A path is cut into the parts it was made of. */
  lemma SegmentsOf(parts: seq<string>)
    requires parts != [] && forall i :: 0 <= i < |parts| ==> PathPart(parts[i])
    ensures Segments("/" + Join(parts, '/')) == parts
  {
    SplitJoin(parts, '/');
    SplitAtFirst("", Join(parts, '/'), '/');
    assert "" + ['/'] + Join(parts, '/') == "/" + Join(parts, '/');
    AllNonEmpty(parts);
    hide Split, Join;
    LeadingEmpty(parts);
  }

  lemma RequestSegmentsOf(parts: seq<string>, query: string)
    requires parts != [] && forall i :: 0 <= i < |parts| ==> PathPart(parts[i])
    ensures RequestSegments("/" + Join(parts, '/')) == parts && RequestSegments("/" + Join(parts, '/') + "?" + query) == parts
  {
    JoinChars(parts, '/');
    SplitAtFirst("/" + Join(parts, '/'), query, '?');
    SegmentsOf(parts);
  }

  lemma ToUpperMeans(verb: string, upper: string)
    ensures ToUpper(verb) == upper <==>
              |verb| == |upper| && forall i :: 0 <= i < |verb| ==> upper[i] == if 'a' <= verb[i] <= 'z' then (verb[i] as int - 32) as char else verb[i]
  {
  }

  /**
   * An operation answers a request whose verb is its own in either letter case and whose path has as many
   * parts, each the declared one or in place of a parameter; a query does not matter.
   */
  lemma AnswersExactly(operation: Operation, declared: seq<string>, verb: string, parts: seq<string>, query: string)
    requires declared != [] && forall i :: 0 <= i < |declared| ==> PathPart(declared[i])
    requires parts != [] && forall i :: 0 <= i < |parts| ==> PathPart(parts[i])
    requires operation.path == "/" + Join(declared, '/')
    ensures var path := "/" + Join(parts, '/');
            && Answers(operation, verb, path) == Answers(operation, verb, path + "?" + query)
            && (Answers(operation, verb, path) <==>
                  && |verb| == |operation.verb|
                  && (forall i :: 0 <= i < |verb| ==> operation.verb[i] == if 'a' <= verb[i] <= 'z' then (verb[i] as int - 32) as char else verb[i])
                  && |parts| == |declared| && forall i :: 0 <= i < |parts| ==> (declared[i] != "" && declared[i][0] == ':') || declared[i] == parts[i])
            && (Escapes(path) <==> "." in parts || ".." in parts)
  {
    SegmentsOf(declared);
    RequestSegmentsOf(parts, query);
    ToUpperMeans(verb, operation.verb);
    hide Segments, RequestSegments, ToUpper, Join;
  }

  /** The root path has no segments. */
  lemma RootPath()
    ensures Segments("/") == [] && RequestSegments("/") == [] && !Escapes("/")
  {
    SplitAtFirst("", "", '/');
    assert "" + ['/'] + "" == "/";
    SplitAtFirst("/", "", '?');
    assert NonEmpty(["", ""]) == NonEmpty(["", ""][1..]);
    assert NonEmpty([""]) == NonEmpty([""][1..]) == [];
  }

  // --- operations by id -------------------------------------------------------

  /** `new Map(operations.map(o => [o.operationId, o]))`: the last declaration of an id wins. */
  function OperationsById(operations: seq<Operation>): (m: map<string, Operation>)
    ensures forall id :: id in m <==> exists i :: 0 <= i < |operations| && operations[i].operationId == id
    ensures forall id :: id in m ==> m[id] in operations && m[id].operationId == id
  {
    if operations == [] then map[]
    else
      var last := operations[|operations| - 1];
      OperationsById(operations[..|operations| - 1])[last.operationId := last]
  }

  /** The same map, with the order its keys are iterated in. */
  function OperationMap(operations: seq<Operation>): (m: JsMap<string, Operation>)
    ensures m.Valid() && m.vals == OperationsById(operations)
  {
    if operations == [] then Empty()
    else
      var last := operations[|operations| - 1];
      OperationMap(operations[..|operations| - 1]).Set(last.operationId, last)
  }

  /** Declaration `i` is the last one of its id. */
  ghost predicate LastOf(operations: seq<Operation>, id: string, i: int) {
    && 0 <= i < |operations| && operations[i].operationId == id
    && forall j :: i < j < |operations| ==> operations[j].operationId != id
  }

  lemma {:induction false} LastDeclarationWins(operations: seq<Operation>, id: string)
    requires exists i :: 0 <= i < |operations| && operations[i].operationId == id
    ensures id in OperationsById(operations)
    ensures exists i :: LastOf(operations, id, i) && OperationsById(operations)[id] == operations[i]
  {
    hide OperationsById;
    var n := |operations| - 1;
    var front, last := operations[..n], operations[n];
    OneMoreById(operations);
    if last.operationId == id {
      assert LastOf(operations, id, n);
    } else {
      var j :| 0 <= j < |operations| && operations[j].operationId == id;
      assert front[j].operationId == id;
      LastDeclarationWins(front, id);
      var i :| LastOf(front, id, i) && OperationsById(front)[id] == front[i];
      LastOfLonger(operations, id, i);
    }
  }

  lemma OneMoreById(operations: seq<Operation>)
    requires operations != []
    ensures var last := operations[|operations| - 1];
            OperationsById(operations) == OperationsById(operations[..|operations| - 1])[last.operationId := last]
  {
  }

  lemma LastOfLonger(operations: seq<Operation>, id: string, i: int)
    requires operations != [] && LastOf(operations[..|operations| - 1], id, i) && operations[|operations| - 1].operationId != id
    ensures LastOf(operations, id, i)
  {
    assert forall j :: 0 <= j < |operations| - 1 ==> operations[j] == operations[..|operations| - 1][j];
  }

  ghost predicate UniqueIds(operations: seq<Operation>) {
    forall i, j :: 0 <= i < j < |operations| ==> operations[i].operationId != operations[j].operationId
  }

  lemma ById(operations: seq<Operation>, i: nat)
    requires UniqueIds(operations) && i < |operations|
    ensures operations[i].operationId in OperationsById(operations)
    ensures OperationsById(operations)[operations[i].operationId] == operations[i]
  {
    var o := OperationsById(operations)[operations[i].operationId];
    var j :| 0 <= j < |operations| && operations[j] == o;
    assert i == j;
  }

  /** The classification of an API: the highest across its operations. */
  function ApiClassification(operations: seq<Operation>): (c: Classification)
    ensures forall o :: o in operations ==> o.classification.Rank() <= c.Rank()
    ensures c == PUBLIC || exists o :: o in operations && o.classification == c
  {
    if operations == [] then PUBLIC
    else
      var last, front := operations[|operations| - 1], operations[..|operations| - 1];
      assert operations == front + [last];
      var highest := ApiClassification(front);
      if last.classification.Rank() > highest.Rank() then last.classification else highest
  }

  function ScopesOf(operation: Operation, api: Definition): seq<string> {
    if |operation.scopes| > 0 then operation.scopes else api.scopes
  }
}
