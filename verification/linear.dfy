/** The issue records of the Linear GraphQL API, in two shapes:

    - the WIRE shape, which is what the `Issues` query asks for, with every
      JSON value that may be null or missing written as an `Option`; and
    - the DECODED shape, the Go structs (`PageInfo`, `Node`, `Issue`, ...) the
      response body is unmarshalled into, where a null or missing value has
      become the Go zero value of its field.

    Decoding is the step from the first to the second. */
module Linear {
  import opened Wrappers

  /** An instant (Go `time.Time`). The model never looks inside it: it is
      copied from the response into the row unchanged. */
  datatype Time = Time(text: string)

  /** The zero `time.Time`, which a null or missing timestamp decodes to. */
  const ZeroTime: Time := Time("0001-01-01T00:00:00Z")

  /** Go `int` is 64 bits wide on 64-bit platforms; the JSON decoder refuses
      a number outside it. */
  predicate InInt64(x: int) {
    -0x8000_0000_0000_0000 <= x < 0x8000_0000_0000_0000
  }

  // ---------------------------------------------------------------------
  // Decoded shape (the Go structs)
  // ---------------------------------------------------------------------

  datatype PageInfo = PageInfo(hasNextPage: bool, endCursor: string)

  datatype Creator = Creator(displayName: string)

  datatype Assignee = Assignee(displayName: string)

  datatype NamedField = NamedField(name: string)

  datatype NumberedField = NumberedField(number: int)

  datatype Labels = Labels(labelNodes: seq<NamedField>)

  datatype Node = Node(
    id: string,
    title: string,
    createdAt: Time,
    completedAt: Time,
    canceledAt: Time,
    number: int,
    estimate: int,
    startedAt: Time,
    state: NamedField,
    project: NamedField,
    labels: Labels,
    creator: Creator,
    assignee: Assignee,
    description: string,
    url: string,
    cycle: NumberedField)

  /** One page of issues (the Go `Issue` struct: the `issues` connection). */
  datatype Page = Page(nodes: seq<Node>, pageInfo: PageInfo)

  // ---------------------------------------------------------------------
  // Wire shape (what the query requests; `None` is JSON null or absent)
  // ---------------------------------------------------------------------

  /** One issue as the `Issues` query selects it. A nested object that the
      query selects one field of (`state { name }`, `cycle { number }`, ...)
      is that field, or `None` when the object itself is null. The query
      selects no `assignee`, so the wire shape has none. */
  datatype WireNode = WireNode(
    id: Option<string>,
    title: Option<string>,
    createdAt: Option<Time>,
    completedAt: Option<Time>,
    startedAt: Option<Time>,
    number: Option<int>,
    estimate: Option<int>,
    canceledAt: Option<Time>,
    state: Option<string>,
    labels: Option<seq<string>>,
    project: Option<string>,
    creator: Option<string>,
    description: Option<string>,
    url: Option<string>,
    cycle: Option<int>)

  datatype WirePageInfo = WirePageInfo(hasNextPage: Option<bool>, endCursor: Option<string>)

  datatype WireIssues = WireIssues(nodes: Option<seq<WireNode>>, pageInfo: Option<WirePageInfo>)

  datatype WireData = WireData(issues: Option<WireIssues>)

  /** A response body. Members other than `data` (a GraphQL `errors` list,
      say) are ignored by the decoder and so are not modelled. */
  datatype WireResponse = WireResponse(data: Option<WireData>)

  /** Why fetching one page failed: the transport (`client.Do`), reading the
      body (`io.ReadAll`), a body that does not unmarshal into the response
      struct, or a body that carries no `data.issues` at all. */
  datatype FetchError = Transport | UnreadableBody | Undecodable | NoData

  // ---------------------------------------------------------------------
  // Decoding
  // ---------------------------------------------------------------------

  /** Every integer the node carries fits a Go `int`. */
  predicate IntsFit(w: WireNode) {
    && InInt64(w.number.GetOr(0))
    && InInt64(w.estimate.GetOr(0))
    && InInt64(w.cycle.GetOr(0))
  }

  function NamedFields(names: seq<string>): (r: seq<NamedField>)
    ensures |r| == |names|
    ensures forall i {:trigger r[i]} :: 0 <= i < |names| ==> r[i].name == names[i]
  {
    seq(|names|, i requires 0 <= i < |names| => NamedField(names[i]))
  }

  /** Unmarshal one node: null or missing values become Go zero values, the
      assignee (never selected) stays empty, and an out-of-range integer is a
      decoding error. */
  function DecodeNode(w: WireNode): (r: Result<Node, FetchError>)
    ensures r.Success? <==> IntsFit(w)
    ensures r.Failure? ==> r.error == Undecodable
    ensures r.Success? ==> r.value.assignee.displayName == ""
    ensures r.Success? && w.state.None? ==> r.value.state.name == ""
    ensures r.Success? && w.project.None? ==> r.value.project.name == ""
    ensures r.Success? && w.creator.None? ==> r.value.creator.displayName == ""
    ensures r.Success? && w.cycle.None? ==> r.value.cycle.number == 0
    ensures r.Success? && w.labels.None? ==> r.value.labels.labelNodes == []
    ensures r.Success? && w.createdAt.None? ==> r.value.createdAt == ZeroTime
    ensures r.Success? && w.completedAt.None? ==> r.value.completedAt == ZeroTime
    ensures r.Success? && w.startedAt.None? ==> r.value.startedAt == ZeroTime
    ensures r.Success? && w.canceledAt.None? ==> r.value.canceledAt == ZeroTime
  {
    if !IntsFit(w) then Failure(Undecodable)
    else
      Success(Node(
        id := w.id.GetOr(""),
        title := w.title.GetOr(""),
        createdAt := w.createdAt.GetOr(ZeroTime),
        completedAt := w.completedAt.GetOr(ZeroTime),
        canceledAt := w.canceledAt.GetOr(ZeroTime),
        number := w.number.GetOr(0),
        estimate := w.estimate.GetOr(0),
        startedAt := w.startedAt.GetOr(ZeroTime),
        state := NamedField(w.state.GetOr("")),
        project := NamedField(w.project.GetOr("")),
        labels := Labels(NamedFields(w.labels.GetOr([]))),
        creator := Creator(w.creator.GetOr("")),
        assignee := Assignee(""),
        description := w.description.GetOr(""),
        url := w.url.GetOr(""),
        cycle := NumberedField(w.cycle.GetOr(0))))
  }

  /** Unmarshal the node list: all nodes or a decoding error. */
  function DecodeNodes(ws: seq<WireNode>): (r: Result<seq<Node>, FetchError>)
    ensures r.Success? <==> forall i :: 0 <= i < |ws| ==> IntsFit(ws[i])
    ensures r.Success? ==> |r.value| == |ws|
    ensures r.Success? ==> forall i :: 0 <= i < |ws| ==> DecodeNode(ws[i]) == Success(r.value[i])
    ensures r.Failure? ==> r.error == Undecodable
  {
    if ws == [] then Success([])
    else
      match DecodeNode(ws[0])
      case Failure(e) => Failure(e)
      case Success(n) =>
        match DecodeNodes(ws[1..])
        case Failure(e) => Failure(e)
        case Success(rest) => Success([n] + rest)
  }

  /** Unmarshal the `issues` connection: node k of the page is wire node k
      decoded, a null node list is empty, a present `hasNextPage` or
      `endCursor` is copied, and a null one (or a null `pageInfo`) reads as
      "no next page" or the empty cursor. */
  function DecodeIssues(i: WireIssues): (r: Result<Page, FetchError>)
    ensures r.Success? <==> DecodeNodes(i.nodes.GetOr([])).Success?
    ensures r.Failure? ==> r.error == Undecodable
    ensures r.Success? ==> |r.value.nodes| == |i.nodes.GetOr([])|
    ensures r.Success? ==> forall k :: 0 <= k < |i.nodes.GetOr([])| ==>
      DecodeNode(i.nodes.GetOr([])[k]) == Success(r.value.nodes[k])
    ensures r.Success? && i.pageInfo.None? ==> r.value.pageInfo == PageInfo(false, "")
    ensures r.Success? && i.pageInfo.Some? && i.pageInfo.value.hasNextPage.Some? ==>
      r.value.pageInfo.hasNextPage == i.pageInfo.value.hasNextPage.value
    ensures r.Success? && i.pageInfo.Some? && i.pageInfo.value.hasNextPage.None? ==>
      !r.value.pageInfo.hasNextPage
    ensures r.Success? && i.pageInfo.Some? && i.pageInfo.value.endCursor.Some? ==>
      r.value.pageInfo.endCursor == i.pageInfo.value.endCursor.value
    ensures r.Success? && i.pageInfo.Some? && i.pageInfo.value.endCursor.None? ==>
      r.value.pageInfo.endCursor == ""
  {
    var info := i.pageInfo.GetOr(WirePageInfo(None, None));
    match DecodeNodes(i.nodes.GetOr([]))
    case Failure(e) => Failure(e)
    case Success(nodes) =>
      Success(Page(nodes, PageInfo(info.hasNextPage.GetOr(false), info.endCursor.GetOr(""))))
  }

  /** Decoding exactly as the program does it: a body without `data` (or
      with a null `data.issues`), which is what a GraphQL error response
      looks like, unmarshals into the zero response, i.e. an empty LAST
      page. The loop then ends and commits. */
  function DecodeResponseAsWritten(w: WireResponse): (r: Result<Page, FetchError>)
    ensures (w.data.None? || w.data.value.issues.None?) ==> r == Success(Page([], PageInfo(false, "")))
    ensures w.data.Some? && w.data.value.issues.Some? ==> r == DecodeIssues(w.data.value.issues.value)
  {
    match w.data
    case None => Success(Page([], PageInfo(false, "")))
    case Some(d) =>
      match d.issues
      case None => Success(Page([], PageInfo(false, "")))
      case Some(i) => DecodeIssues(i)
  }

  /** A body carries the issues connection. */
  predicate HasIssues(w: WireResponse) {
    w.data.Some? && w.data.value.issues.Some?
  }

  /** Decoding as the all-or-nothing design intends: a body that carries no
      issues connection is a failed fetch, not an empty final page. On every
      body that does carry it, this agrees with the program's decoding. */
  function DecodeResponse(w: WireResponse): (r: Result<Page, FetchError>)
    ensures !HasIssues(w) ==> r == Failure(NoData)
    ensures HasIssues(w) ==> r == DecodeResponseAsWritten(w)
  {
    if HasIssues(w) then DecodeIssues(w.data.value.issues.value) else Failure(NoData)
  }

  // ---------------------------------------------------------------------
  // Encoding (the inverse of decoding, for the round trip)
  // ---------------------------------------------------------------------

  function LabelNames(l: Labels): (names: seq<string>)
    ensures |names| == |l.labelNodes|
    ensures forall i {:trigger names[i]} :: 0 <= i < |names| ==> names[i] == l.labelNodes[i].name
  {
    seq(|l.labelNodes|, i requires 0 <= i < |l.labelNodes| => l.labelNodes[i].name)
  }

  /** The body a server would send for this node, every value present. */
  function EncodeNode(n: Node): WireNode {
    WireNode(
      id := Some(n.id),
      title := Some(n.title),
      createdAt := Some(n.createdAt),
      completedAt := Some(n.completedAt),
      startedAt := Some(n.startedAt),
      number := Some(n.number),
      estimate := Some(n.estimate),
      canceledAt := Some(n.canceledAt),
      state := Some(n.state.name),
      labels := Some(LabelNames(n.labels)),
      project := Some(n.project.name),
      creator := Some(n.creator.displayName),
      description := Some(n.description),
      url := Some(n.url),
      cycle := Some(n.cycle.number))
  }

  /** The nodes a response can produce: an empty assignee (it is never
      selected) and integers that fit a Go `int`. */
  predicate Producible(n: Node) {
    n.assignee.displayName == "" && InInt64(n.number) && InInt64(n.estimate) && InInt64(n.cycle.number)
  }

  /** Decoding inverts encoding exactly on the nodes a response can
      produce. */
  lemma DecodeEncode(n: Node)
    ensures DecodeNode(EncodeNode(n)) == Success(n) <==> Producible(n)
  {
    var w := EncodeNode(n);
    if n.assignee.displayName == "" && IntsFit(w) {
      assert NamedFields(LabelNames(n.labels)) == n.labels.labelNodes;
    }
  }

  /** The `issues` connection a server would send for this page: node k
      encodes node k, and the page info is present in full. */
  function EncodeIssues(p: Page): (i: WireIssues)
    ensures i.nodes.Some? && |i.nodes.value| == |p.nodes|
    ensures forall k {:trigger i.nodes.value[k]} :: 0 <= k < |p.nodes| ==> i.nodes.value[k] == EncodeNode(p.nodes[k])
  {
    WireIssues(
      Some(seq(|p.nodes|, k requires 0 <= k < |p.nodes| => EncodeNode(p.nodes[k]))),
      Some(WirePageInfo(Some(p.pageInfo.hasNextPage), Some(p.pageInfo.endCursor))))
  }

  /** Decoding inverts page encoding exactly when every node of the page is
      one a response can produce: nodes, next-page flag and cursor all come
      back unchanged. */
  lemma {:induction false} DecodeEncodeIssues(p: Page)
    ensures DecodeIssues(EncodeIssues(p)) == Success(p) <==> forall k :: 0 <= k < |p.nodes| ==> Producible(p.nodes[k])
  {
    var i := EncodeIssues(p);
    var ws := i.nodes.value;
    forall k | 0 <= k < |p.nodes|
      ensures DecodeNode(ws[k]) == Success(p.nodes[k]) <==> Producible(p.nodes[k])
    {
      DecodeEncode(p.nodes[k]);
    }
    if forall k :: 0 <= k < |p.nodes| ==> Producible(p.nodes[k]) {
      var r := DecodeNodes(ws);
      assert r.Success?;
      assert forall k :: 0 <= k < |p.nodes| ==> r.value[k] == p.nodes[k];
      assert r.value == p.nodes;
    }
  }
}
