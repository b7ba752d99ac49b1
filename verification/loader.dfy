/** The whole run of the program against an environment: every page is
    fetched from the remote service and decoded, then handed to the
    driver, which starts from a null cursor on a freshly created, empty
    table. */
module Loader {
  import opened Wrappers
  import opened Seqs
  import opened Linear
  import opened Rows
  import opened Store
  import opened Pagination

  /** Fetch one page and decode its body; a body without the issues
      connection is a failed fetch. */
  function FetchPage(env: Env, req: Request): (r: Result<Page, FetchError>)
    ensures r.Success? ==> env.fetch(req).Success? && HasIssues(env.fetch(req).value)
    ensures env.fetch(req).Failure? ==> r == Failure(env.fetch(req).error)
    ensures env.fetch(req).Success? && !HasIssues(env.fetch(req).value) ==> r == Failure(NoData)
  {
    match env.fetch(req)
    case Failure(e) => Failure(e)
    case Success(body) => DecodeResponse(body)
  }

  /** Fetch one page and decode its body as the program does: a body
      without the issues connection is an empty last page. */
  function FetchPageAsWritten(env: Env, req: Request): (r: Result<Page, FetchError>)
    ensures env.fetch(req).Failure? ==> r == Failure(env.fetch(req).error)
    ensures env.fetch(req).Success? && !HasIssues(env.fetch(req).value) ==> r == Success(Page([], PageInfo(false, "")))
  {
    match env.fetch(req)
    case Failure(e) => Failure(e)
    case Success(body) => DecodeResponseAsWritten(body)
  }

  function Source(env: Env): PageSource {
    req => FetchPage(env, req)
  }

  function SourceAsWritten(env: Env): PageSource {
    req => FetchPageAsWritten(env, req)
  }

  /** The run: the first request has a null cursor and the transaction is
      opened on the freshly created table. */
  function Collect(env: Env, fuel: nat): (r: Run)
    ensures r.requests != [] ==> r.requests[0] == Request(PageSize, None)
    ensures (r.requests == []) == (fuel == 0)
    ensures r.outcome.Committed? ==> env.db.commitSucceeds && Valid(Tx(r.outcome.rows))
  {
    Drive(Source(env), env.db, None, Fresh, fuel)
  }

  /** The run as the program performs it, decoding as the program does. */
  function CollectAsWritten(env: Env, fuel: nat): (r: Run)
    ensures r.requests != [] ==> r.requests[0] == Request(PageSize, None)
    ensures (r.requests == []) == (fuel == 0)
    ensures r.outcome.Committed? ==> env.db.commitSucceeds && Valid(Tx(r.outcome.rows))
  {
    Drive(SourceAsWritten(env), env.db, None, Fresh, fuel)
  }

  // ---------------------------------------------------------------------
  // All or nothing
  // ---------------------------------------------------------------------

  /** The run commits exactly when the cursor chain reaches a last page,
      no two issues share an id, the database accepts every insert, and the
      commit succeeds; every other run leaves the table empty. */
  lemma CollectCommits(env: Env, fuel: nat)
    ensures Collect(env, fuel).outcome.Committed?
        <==> (&& ReachesEnd(Source(env), None, fuel)
              && env.db.commitSucceeds
              && Distinct(Ids(ChainRows(Source(env), None, fuel)))
              && Accepted(env.db.accepts, ChainRows(Source(env), None, fuel)))
  {
    DriveCommits(Source(env), env.db, None, Fresh, fuel);
    if ReachesEnd(Source(env), None, fuel) {
      assert Ids(Fresh.staged) + Ids(ChainRows(Source(env), None, fuel)) == Ids(ChainRows(Source(env), None, fuel));
    }
  }

  /** A committed run loads every issue of every page, each under its own
      id, and nothing else: the table has one row per issue fetched. */
  lemma CollectLoadsEveryIssue(env: Env, fuel: nat)
    requires Collect(env, fuel).outcome.Committed?
    ensures ReachesEnd(Source(env), None, fuel)
    ensures Collect(env, fuel).outcome.rows == ChainRows(Source(env), None, fuel)
    ensures Valid(Tx(Collect(env, fuel).outcome.rows))
    ensures |Table(Collect(env, fuel).outcome.rows)| == |Collect(env, fuel).outcome.rows|
    ensures forall i :: 0 <= i < |Collect(env, fuel).outcome.rows| ==>
      Table(Collect(env, fuel).outcome.rows)[Collect(env, fuel).outcome.rows[i][Id]] == Collect(env, fuel).outcome.rows[i]
  {
    var rows := Collect(env, fuel).outcome.rows;
    DriveCommits(Source(env), env.db, None, Fresh, fuel);
    assert Fresh.staged + ChainRows(Source(env), None, fuel) == ChainRows(Source(env), None, fuel);
    TableOfStaged(Tx(rows));
  }

  /** The `issues` table once the program has exited: the committed rows
      under their ids, or nothing, since a run that stops before the
      commit leaves its transaction uncommitted. */
  function TableAfter(r: Run): map<Value, Row>
  {
    if r.outcome.Committed? then Table(r.outcome.rows) else map[]
  }

  /** All or nothing: a failed fetch or an undecodable body on any page,
      the first or a later one, a repeated id anywhere along the chain, an
      insert the database refuses, or a failed commit leaves the table
      empty. (What a committed run leaves is stated by
      `CollectLoadsEveryIssue`.) */
  lemma CollectAllOrNothing(env: Env, fuel: nat)
    ensures forall k :: 0 <= k < |Collect(env, fuel).requests| && Source(env)(Collect(env, fuel).requests[k]).Failure? ==>
      TableAfter(Collect(env, fuel)) == map[]
    ensures ReachesEnd(Source(env), None, fuel) && !Distinct(Ids(ChainRows(Source(env), None, fuel))) ==>
      TableAfter(Collect(env, fuel)) == map[]
    ensures ReachesEnd(Source(env), None, fuel) && !Accepted(env.db.accepts, ChainRows(Source(env), None, fuel)) ==>
      TableAfter(Collect(env, fuel)) == map[]
    ensures !env.db.commitSucceeds ==> TableAfter(Collect(env, fuel)) == map[]
  {
    var r := Collect(env, fuel);
    CollectCommits(env, fuel);
    forall k | 0 <= k < |r.requests| && Source(env)(r.requests[k]).Failure?
      ensures !r.outcome.Committed?
    {
      DriveStopsAtFailure(Source(env), env.db, None, Fresh, fuel, k);
    }
  }

  /** A committed run got the issues connection in every response. */
  lemma CollectCommittedHadData(env: Env, fuel: nat)
    requires Collect(env, fuel).outcome.Committed?
    ensures forall k :: 0 <= k < |Collect(env, fuel).requests| ==>
      && env.fetch(Collect(env, fuel).requests[k]).Success?
      && HasIssues(env.fetch(Collect(env, fuel).requests[k]).value)
  {
    var r := Collect(env, fuel);
    forall k | 0 <= k < |r.requests|
      ensures env.fetch(r.requests[k]).Success? && HasIssues(env.fetch(r.requests[k]).value)
    {
      if Source(env)(r.requests[k]).Failure? {
        DriveStopsAtFailure(Source(env), env.db, None, Fresh, fuel, k);
      }
      assert FetchPage(env, r.requests[k]).Success?;
    }
  }

  // ---------------------------------------------------------------------
  // Example issues and pages
  // ---------------------------------------------------------------------

  /** Issue A: id and title only, no labels. */
  const IssueA: WireNode := WireNode(
    Some("A"), Some("t1"), None, None, None, None, None, None, None, Some([]), None, None, None, None, None)

  /** Issue B: id, title and the single label "x". */
  const IssueB: WireNode := WireNode(
    Some("B"), Some("t2"), None, None, None, None, None, None, None, Some(["x"]), None, None, None, None, None)

  /** A first page holding issue A and announcing a next page at cursor
      "c1". */
  const FirstPage: WireResponse := WireResponse(Some(WireData(Some(WireIssues(
    Some([IssueA]), Some(WirePageInfo(Some(true), Some("c1"))))))))

  /** Decoding a one-issue page. */
  lemma OneIssuePage(w: WireNode, info: WirePageInfo)
    requires IntsFit(w)
    ensures DecodeResponse(WireResponse(Some(WireData(Some(WireIssues(Some([w]), Some(info)))))))
         == Success(Page([DecodeNode(w).value], PageInfo(info.hasNextPage.GetOr(false), info.endCursor.GetOr(""))))
  {
    var ns := DecodeNodes([w]).value;
    assert |ns| == 1 && ns[0] == DecodeNode(w).value;
    assert ns == [DecodeNode(w).value];
  }

  // ---------------------------------------------------------------------
  // A body without data
  // ---------------------------------------------------------------------

  /** Wherever the service answers with the issues connection or fails
      outright, the program's decoding and the corrected one agree, and so
      do the two runs. */
  lemma AsWrittenAgreesWithData(env: Env, fuel: nat)
    requires forall req :: env.fetch(req).Success? ==> HasIssues(env.fetch(req).value)
    ensures CollectAsWritten(env, fuel) == Collect(env, fuel)
  {
    forall req
      ensures SourceAsWritten(env)(req) == Source(env)(req)
    {
      assert SourceAsWritten(env)(req) == FetchPageAsWritten(env, req);
    }
    DriveSameSource(SourceAsWritten(env), Source(env), env.db, None, Fresh, fuel);
  }

  /** A database that accepts every insert and commits. */
  const Healthy: Database := Database((row: Row) => true, true)

  /** A service that serves the first page, then answers the request for
      the second page with a body that has no `data` member, as a GraphQL
      error response (an expired key, a rate limit) does. */
  const ErrorOnSecondPage: Env := Env(
    (req: Request) => if req.after.None? then Success(FirstPage) else Success(WireResponse(None)),
    Healthy)

  /** As written, the program treats the error body as an empty last page
      and commits the first page alone: a partial load reported as a
      complete one. */
  lemma AsWrittenCommitsPartialLoad()
    ensures CollectAsWritten(ErrorOnSecondPage, 2).requests == [Request(PageSize, None), Request(PageSize, Some("c1"))]
    ensures CollectAsWritten(ErrorOnSecondPage, 2).outcome == Committed([MapRow(DecodeNode(IssueA).value)])
  {
    var row := MapRow(DecodeNode(IssueA).value);
    OneIssuePage(IssueA, WirePageInfo(Some(true), Some("c1")));
    assert SourceAsWritten(ErrorOnSecondPage)(Request(PageSize, None)) == Success(Page([DecodeNode(IssueA).value], PageInfo(true, "c1")));
    assert SourceAsWritten(ErrorOnSecondPage)(Request(PageSize, Some("c1"))) == Success(Page([], PageInfo(false, "")));
    assert RowsOf(Page([DecodeNode(IssueA).value], PageInfo(true, "c1"))) == [row];
    assert StageAll(Fresh, [row], Healthy.accepts).value == Tx([row]);
    assert RowsOf(Page([], PageInfo(false, ""))) == [];
    assert StageAll(Tx([row]), [], Healthy.accepts).value == Tx([row]);
  }

  /** The corrected run aborts on the same service, leaving the table
      empty. */
  lemma CorrectedAbortsOnErrorBody()
    ensures Collect(ErrorOnSecondPage, 2).requests == [Request(PageSize, None), Request(PageSize, Some("c1"))]
    ensures Collect(ErrorOnSecondPage, 2).outcome == Aborted(Fetch(NoData))
  {
    var row := MapRow(DecodeNode(IssueA).value);
    OneIssuePage(IssueA, WirePageInfo(Some(true), Some("c1")));
    assert Source(ErrorOnSecondPage)(Request(PageSize, None)) == Success(Page([DecodeNode(IssueA).value], PageInfo(true, "c1")));
    assert Source(ErrorOnSecondPage)(Request(PageSize, Some("c1"))) == Failure(NoData);
    assert RowsOf(Page([DecodeNode(IssueA).value], PageInfo(true, "c1"))) == [row];
    assert StageAll(Fresh, [row], Healthy.accepts).value == Tx([row]);
  }

  // ---------------------------------------------------------------------
  // Two pages
  // ---------------------------------------------------------------------

  /** Page 1 holds issue A and points at cursor "c1"; page 2, requested
      with that cursor, holds issue B (label "x") and is the last. */
  const TwoPages: Env := Env(
    (req: Request) =>
      if req.after.None? then Success(FirstPage)
      else if req.after == Some("c1") then
        Success(WireResponse(Some(WireData(Some(WireIssues(
          Some([IssueB]), Some(WirePageInfo(Some(false), Some("")))))))))
      else Failure(Transport),
    Healthy)

  /** Issues A and B decode and map to rows keyed "A" and "B"; B's single
      label "x" is flattened to "x, ". */
  lemma TwoPagesRows()
    ensures DecodeNode(IssueA).Success? && DecodeNode(IssueB).Success?
    ensures MapRow(DecodeNode(IssueA).value)[Id] == Text("A")
    ensures MapRow(DecodeNode(IssueB).value)[Id] == Text("B")
    ensures MapRow(DecodeNode(IssueB).value)[Column.Labels] == Text("x, ")
  {
    assert LabelNames(DecodeNode(IssueB).value.labels) == ["x"];
  }

  /** Staging A on the fresh table and then B succeeds on a database that
      accepts every insert. */
  lemma StageTwoRows(rowA: Row, rowB: Row)
    requires rowA[Id] == Text("A")
    requires rowB[Id] == Text("B")
    ensures StageAll(Fresh, [rowA], Healthy.accepts) == Success(Tx([rowA]))
    ensures StageAll(Tx([rowA]), [rowB], Healthy.accepts) == Success(Tx([rowA, rowB]))
  {
    assert Ids([rowA]) == [Text("A")];
    assert Ids([rowB]) == [Text("B")];
    assert Ids(Fresh.staged) + Ids([rowA]) == [Text("A")];
    assert Fresh.staged + [rowA] == [rowA];
    assert Ids([rowA]) + Ids([rowB]) == [Text("A"), Text("B")];
    assert [rowA] + [rowB] == [rowA, rowB];
  }

  /** The run, request by request. */
  lemma TwoPagesRun()
    ensures Collect(TwoPages, 3) == Run(
      [Request(PageSize, None), Request(PageSize, Some("c1"))],
      Committed([MapRow(DecodeNode(IssueA).value), MapRow(DecodeNode(IssueB).value)]))
  {
    TwoPagesRows();
    var a := DecodeNode(IssueA).value;
    var b := DecodeNode(IssueB).value;
    var rowA := MapRow(a);
    var rowB := MapRow(b);
    OneIssuePage(IssueA, WirePageInfo(Some(true), Some("c1")));
    OneIssuePage(IssueB, WirePageInfo(Some(false), Some("")));
    assert Source(TwoPages)(Request(PageSize, None)) == Success(Page([a], PageInfo(true, "c1")));
    assert Source(TwoPages)(Request(PageSize, Some("c1"))) == Success(Page([b], PageInfo(false, "")));
    assert RowsOf(Page([a], PageInfo(true, "c1"))) == [rowA];
    assert RowsOf(Page([b], PageInfo(false, ""))) == [rowB];
    StageTwoRows(rowA, rowB);
    var second := Drive(Source(TwoPages), Healthy, Some("c1"), Tx([rowA]), 2);
    assert second == Run([Request(PageSize, Some("c1"))], Committed([rowA, rowB]));
  }

  /** The table of rows A and B has exactly the keys A and B. */
  lemma TwoRowsTable(rowA: Row, rowB: Row)
    requires rowA[Id] == Text("A") && rowB[Id] == Text("B")
    ensures Table([rowA, rowB]).Keys == {Text("A"), Text("B")}
  {
    assert [rowA, rowB][..1] == [rowA] && [rowA][..0] == [];
  }

  /** The run sends two requests, the second with cursor "c1", and
      commits two rows, A then B, with B's labels column "x, ". */
  lemma TwoPagesLoadBoth()
    ensures Collect(TwoPages, 3).requests == [Request(PageSize, None), Request(PageSize, Some("c1"))]
    ensures Collect(TwoPages, 3).outcome.Committed?
    ensures |Collect(TwoPages, 3).outcome.rows| == 2
    ensures Collect(TwoPages, 3).outcome.rows[0][Id] == Text("A")
    ensures Collect(TwoPages, 3).outcome.rows[1][Id] == Text("B")
    ensures Collect(TwoPages, 3).outcome.rows[1][Column.Labels] == Text("x, ")
    ensures TableAfter(Collect(TwoPages, 3)).Keys == {Text("A"), Text("B")}
  {
    TwoPagesRows();
    TwoPagesRun();
    var rowA := MapRow(DecodeNode(IssueA).value);
    var rowB := MapRow(DecodeNode(IssueB).value);
    TwoRowsTable(rowA, rowB);
  }
}
