/** The fetch-paginate-load loop of the program: request a page of issues
    (the first with a null `after` cursor, each later one with the previous
    page's `endCursor`), stage every issue of the page as a row, stop right
    after the first page that reports no next page, then commit. Any failed
    fetch, undecodable body or refused insert ends the run with nothing
    committed.

    The remote service is a parameter: a function from the request to the
    response body or a fetch error. The Go loop has no bound of its own, so
    the model takes a fuel bound on the number of requests; a run that uses
    it all up is `Unfinished` and commits nothing either. */
module Pagination {
  import opened Wrappers
  import opened Seqs
  import opened Linear
  import opened Rows
  import opened Store

  /** The page size the query asks for (`issues(first: 150, ...)`). */
  const PageSize: nat := 150

  /** The `after` variable of the query: `None` is JSON null. */
  type Cursor = Option<string>

  /** One request: the fixed query with its page size and cursor. */
  datatype Request = Request(first: nat, after: Cursor)

  function RequestAfter(after: Cursor): Request {
    Request(PageSize, after)
  }

  /** Why a run stopped before committing. */
  datatype RunError = Fetch(fetchError: FetchError) | Load(storeError: StoreError)

  /** How a run ends: committed with the staged rows in insertion order,
      aborted before commit, or cut off by the fuel bound. */
  datatype Outcome = Committed(rows: seq<Row>) | Aborted(reason: RunError) | Unfinished

  /** The requests sent, in order, and how the run ended. */
  datatype Run = Run(requests: seq<Request>, outcome: Outcome)

  /** Everything outside the program: the remote service answering a
      request with a body or a fetch error, and the database deciding
      which inserts and whether the final commit succeed. */
  datatype Env = Env(fetch: Request -> Result<WireResponse, FetchError>, db: Database)

  /** A decoded page for each request, or the reason there is none. */
  type PageSource = Request -> Result<Page, FetchError>

  /** The rows staged for a page: one per node, in node order. */
  function RowsOf(p: Page): (rows: seq<Row>)
    ensures |rows| == |p.nodes|
    ensures forall i {:trigger rows[i]} :: 0 <= i < |rows| ==> rows[i] == MapRow(p.nodes[i])
  {
    seq(|p.nodes|, i requires 0 <= i < |p.nodes| => MapRow(p.nodes[i]))
  }

  // ---------------------------------------------------------------------
  // The driver
  // ---------------------------------------------------------------------

  /** The loop, from cursor `after` with transaction `tx` open, for at most
      `fuel` more requests. */
  function Drive(source: PageSource, db: Database, after: Cursor, tx: Tx, fuel: nat): (r: Run)
    requires Valid(tx)
    ensures |r.requests| <= fuel
    ensures (r.requests == []) == (fuel == 0)
    ensures r.requests != [] ==> r.requests[0] == RequestAfter(after)
    ensures forall i :: 0 <= i < |r.requests| ==> r.requests[i].first == PageSize
    ensures r.outcome.Unfinished? ==> |r.requests| == fuel
    ensures r.outcome.Committed? ==> db.commitSucceeds && Valid(Tx(r.outcome.rows))
    decreases fuel
  {
    if fuel == 0 then Run([], Unfinished)
    else
      var req := RequestAfter(after);
      match source(req)
      case Failure(e) => Run([req], Aborted(Fetch(e)))
      case Success(page) =>
        match StageAll(tx, RowsOf(page), db.accepts)
        case Failure(e) => Run([req], Aborted(Load(e)))
        case Success(tx') =>
          if !page.pageInfo.hasNextPage then
            Run([req], if db.commitSucceeds then Committed(tx'.staged) else Aborted(Load(CommitFailed)))
          else
            var rest := Drive(source, db, Some(page.pageInfo.endCursor), tx', fuel - 1);
            Run([req] + rest.requests, rest.outcome)
  }

  // ---------------------------------------------------------------------
  // The cursor chain, defined without the loader
  // ---------------------------------------------------------------------

  /** `req` got a page that has a successor, and `next` asks for it. */
  predicate ContinuesTo(source: PageSource, req: Request, next: Request) {
    && source(req).Success?
    && source(req).value.pageInfo.hasNextPage
    && next == RequestAfter(Some(source(req).value.pageInfo.endCursor))
  }

  /** Every request but the last got a page with a successor, and the next
      request carries that page's end cursor. */
  predicate Chained(source: PageSource, reqs: seq<Request>) {
    forall n :: 0 <= n < |reqs| - 1 ==> ContinuesTo(source, reqs[n], reqs[n + 1])
  }

  /** Following the cursors from `after`, every fetch succeeds and a last
      page (no next page) comes within `fuel` requests. */
  predicate ReachesEnd(source: PageSource, after: Cursor, fuel: nat)
    decreases fuel
  {
    && fuel > 0
    && source(RequestAfter(after)).Success?
    && var info := source(RequestAfter(after)).value.pageInfo;
       info.hasNextPage ==> ReachesEnd(source, Some(info.endCursor), fuel - 1)
  }

  /** The rows of every page along the chain, page after page. */
  function ChainRows(source: PageSource, after: Cursor, fuel: nat): seq<Row>
    requires ReachesEnd(source, after, fuel)
    decreases fuel
  {
    var page := source(RequestAfter(after)).value;
    if page.pageInfo.hasNextPage then
      var rest := ChainRows(source, Some(page.pageInfo.endCursor), fuel - 1);
      RowsOf(page) + rest
    else RowsOf(page)
  }

  /** The number of pages along the chain, the last page included. */
  function ChainLength(source: PageSource, after: Cursor, fuel: nat): (n: nat)
    requires ReachesEnd(source, after, fuel)
    ensures 1 <= n <= fuel
    decreases fuel
  {
    var page := source(RequestAfter(after)).value;
    if page.pageInfo.hasNextPage then 1 + ChainLength(source, Some(page.pageInfo.endCursor), fuel - 1)
    else 1
  }

  // ---------------------------------------------------------------------
  // Properties of the driver
  // ---------------------------------------------------------------------

  /** Cursor propagation and termination: each request after the first
      carries the end cursor of the page before it, and no request follows
      a failed fetch or a page without a next page. */
  lemma {:induction false} DriveChained(source: PageSource, db: Database, after: Cursor, tx: Tx, fuel: nat)
    requires Valid(tx)
    ensures Chained(source, Drive(source, db, after, tx, fuel).requests)
    decreases fuel
  {
    var r := Drive(source, db, after, tx, fuel);
    if fuel > 0 && |r.requests| > 1 {
      var req := RequestAfter(after);
      var page := source(req).value;
      var tx' := StageAll(tx, RowsOf(page), db.accepts).value;
      var rest := Drive(source, db, Some(page.pageInfo.endCursor), tx', fuel - 1);
      assert r.requests == [req] + rest.requests;
      DriveChained(source, db, Some(page.pageInfo.endCursor), tx', fuel - 1);
      forall n | 0 <= n < |r.requests| - 1
        ensures ContinuesTo(source, r.requests[n], r.requests[n + 1])
      {
        if n > 0 {
          assert r.requests[n] == rest.requests[n - 1];
          assert r.requests[n + 1] == rest.requests[n];
        }
      }
    }
  }

  /** The driver commits exactly when the cursor chain reaches a last page
      within the fuel, no primary key repeats among all staged rows, the
      database accepts the insert of every row, and the commit itself
      succeeds. It then has sent one request per page of the chain and
      staged the rows of every page, in page order and within a page in
      node order, each once. */
  lemma DriveCommits(source: PageSource, db: Database, after: Cursor, tx: Tx, fuel: nat)
    requires Valid(tx)
    ensures Drive(source, db, after, tx, fuel).outcome.Committed?
        <==> (&& ReachesEnd(source, after, fuel)
              && db.commitSucceeds
              && Distinct(Ids(tx.staged) + Ids(ChainRows(source, after, fuel)))
              && Accepted(db.accepts, ChainRows(source, after, fuel)))
    ensures Drive(source, db, after, tx, fuel).outcome.Committed? ==>
              && Drive(source, db, after, tx, fuel).outcome.rows == tx.staged + ChainRows(source, after, fuel)
              && |Drive(source, db, after, tx, fuel).requests| == ChainLength(source, after, fuel)
  {
    var r := Drive(source, db, after, tx, fuel);
    if r.outcome.Committed? {
      CommittedReachesEnd(source, db, after, tx, fuel);
      CommittedRows(source, db, after, tx, fuel);
      CommittedLength(source, db, after, tx, fuel);
      CommittedAccepted(source, db, after, tx, fuel);
      IdsAppend(tx.staged, ChainRows(source, after, fuel));
    }
    if && ReachesEnd(source, after, fuel) && db.commitSucceeds
       && Distinct(Ids(tx.staged) + Ids(ChainRows(source, after, fuel)))
       && Accepted(db.accepts, ChainRows(source, after, fuel))
    {
      ChainCommits(source, db, after, tx, fuel);
    }
  }

  /** A committed run followed the cursor chain to a last page. */
  lemma {:induction false} CommittedReachesEnd(source: PageSource, db: Database, after: Cursor, tx: Tx, fuel: nat)
    requires Valid(tx)
    requires Drive(source, db, after, tx, fuel).outcome.Committed?
    ensures ReachesEnd(source, after, fuel) && db.commitSucceeds
    decreases fuel
  {
    var page := source(RequestAfter(after)).value;
    var tx' := StageAll(tx, RowsOf(page), db.accepts).value;
    if page.pageInfo.hasNextPage {
      CommittedReachesEnd(source, db, Some(page.pageInfo.endCursor), tx', fuel - 1);
    }
  }

  /** A committed run sent one request per page of the chain. */
  lemma {:induction false} CommittedLength(source: PageSource, db: Database, after: Cursor, tx: Tx, fuel: nat)
    requires Valid(tx)
    requires Drive(source, db, after, tx, fuel).outcome.Committed?
    requires ReachesEnd(source, after, fuel)
    ensures |Drive(source, db, after, tx, fuel).requests| == ChainLength(source, after, fuel)
    decreases fuel
  {
    var page := source(RequestAfter(after)).value;
    var tx' := StageAll(tx, RowsOf(page), db.accepts).value;
    if page.pageInfo.hasNextPage {
      var next := Some(page.pageInfo.endCursor);
      CommittedReachesEnd(source, db, next, tx', fuel - 1);
      CommittedLength(source, db, next, tx', fuel - 1);
    }
  }

  /** A committed run commits the rows already staged followed by the rows
      of every page of the chain. */
  lemma {:induction false} CommittedRows(source: PageSource, db: Database, after: Cursor, tx: Tx, fuel: nat)
    requires Valid(tx)
    requires Drive(source, db, after, tx, fuel).outcome.Committed?
    requires ReachesEnd(source, after, fuel)
    ensures Drive(source, db, after, tx, fuel).outcome.rows == tx.staged + ChainRows(source, after, fuel)
    decreases fuel
  {
    var page := source(RequestAfter(after)).value;
    var rows := RowsOf(page);
    var tx' := StageAll(tx, rows, db.accepts).value;
    if page.pageInfo.hasNextPage {
      var next := Some(page.pageInfo.endCursor);
      assert Drive(source, db, after, tx, fuel).outcome == Drive(source, db, next, tx', fuel - 1).outcome;
      CommittedRows(source, db, next, tx', fuel - 1);
      var more := ChainRows(source, next, fuel - 1);
      assert ChainRows(source, after, fuel) == rows + more;
      assert tx'.staged + more == tx.staged + (rows + more);
    }
  }

  /** A committed run had every row of the chain accepted by the
      database. */
  lemma {:induction false} CommittedAccepted(source: PageSource, db: Database, after: Cursor, tx: Tx, fuel: nat)
    requires Valid(tx)
    requires Drive(source, db, after, tx, fuel).outcome.Committed?
    requires ReachesEnd(source, after, fuel)
    ensures Accepted(db.accepts, ChainRows(source, after, fuel))
    decreases fuel
  {
    var page := source(RequestAfter(after)).value;
    var rows := RowsOf(page);
    var tx' := StageAll(tx, rows, db.accepts).value;
    if page.pageInfo.hasNextPage {
      var next := Some(page.pageInfo.endCursor);
      CommittedAccepted(source, db, next, tx', fuel - 1);
      AcceptedAppend(db.accepts, rows, ChainRows(source, next, fuel - 1));
    }
  }

  /** Along a chain that reaches its last page, a successful commit, no
      repeated key and every insert accepted make the run commit. */
  lemma {:induction false} ChainCommits(source: PageSource, db: Database, after: Cursor, tx: Tx, fuel: nat)
    requires Valid(tx)
    requires ReachesEnd(source, after, fuel) && db.commitSucceeds
    requires Distinct(Ids(tx.staged) + Ids(ChainRows(source, after, fuel)))
    requires Accepted(db.accepts, ChainRows(source, after, fuel))
    ensures Drive(source, db, after, tx, fuel).outcome.Committed?
    decreases fuel
  {
    var page := source(RequestAfter(after)).value;
    var rows := RowsOf(page);
    if page.pageInfo.hasNextPage {
      var next := Some(page.pageInfo.endCursor);
      var more := ChainRows(source, next, fuel - 1);
      IdsAppend(rows, more);
      AcceptedAppend(db.accepts, rows, more);
      assert Ids(tx.staged) + Ids(rows + more) == (Ids(tx.staged) + Ids(rows)) + Ids(more);
      DistinctPrefix(Ids(tx.staged) + Ids(rows), Ids(more));
      var tx' := StageAll(tx, rows, db.accepts).value;
      IdsAppend(tx.staged, rows);
      ChainCommits(source, db, next, tx', fuel - 1);
    }
  }

  /** Once a run has ended on its own, more fuel changes nothing: the bound
      only cuts off runs the program would have continued. */
  lemma {:induction false} DriveFuelIrrelevant(source: PageSource, db: Database, after: Cursor, tx: Tx, fuel: nat, more: nat)
    requires Valid(tx)
    requires fuel <= more
    requires !Drive(source, db, after, tx, fuel).outcome.Unfinished?
    ensures Drive(source, db, after, tx, more) == Drive(source, db, after, tx, fuel)
    decreases fuel
  {
    var req := RequestAfter(after);
    if source(req).Success? {
      var page := source(req).value;
      var staged := StageAll(tx, RowsOf(page), db.accepts);
      if staged.Success? && page.pageInfo.hasNextPage {
        DriveFuelIrrelevant(source, db, Some(page.pageInfo.endCursor), staged.value, fuel - 1, more - 1);
      }
    }
  }

  /** A failed fetch on any page, the first or a later one, is the last
      request of the run and aborts it. */
  lemma {:induction false} DriveStopsAtFailure(source: PageSource, db: Database, after: Cursor, tx: Tx, fuel: nat, k: nat)
    requires Valid(tx)
    requires k < |Drive(source, db, after, tx, fuel).requests|
    requires source(Drive(source, db, after, tx, fuel).requests[k]).Failure?
    ensures k == |Drive(source, db, after, tx, fuel).requests| - 1
    ensures Drive(source, db, after, tx, fuel).outcome
         == Aborted(Fetch(source(Drive(source, db, after, tx, fuel).requests[k]).error))
    decreases fuel
  {
    var r := Drive(source, db, after, tx, fuel);
    var req := RequestAfter(after);
    if source(req).Success? {
      var page := source(req).value;
      assert k > 0;
      var staged := StageAll(tx, RowsOf(page), db.accepts);
      assert staged.Success? && page.pageInfo.hasNextPage;
      var rest := Drive(source, db, Some(page.pageInfo.endCursor), staged.value, fuel - 1);
      assert r == Run([req] + rest.requests, rest.outcome);
      assert r.requests[k] == rest.requests[k - 1];
      DriveStopsAtFailure(source, db, Some(page.pageInfo.endCursor), staged.value, fuel - 1, k - 1);
    }
  }

  /** The driver sees the remote service only through its answers: two
      sources that answer every request alike give the same run. */
  lemma {:induction false} DriveSameSource(s1: PageSource, s2: PageSource, db: Database, after: Cursor, tx: Tx, fuel: nat)
    requires Valid(tx)
    requires forall req :: s1(req) == s2(req)
    ensures Drive(s1, db, after, tx, fuel) == Drive(s2, db, after, tx, fuel)
    decreases fuel
  {
    var req := RequestAfter(after);
    if fuel > 0 && s1(req).Success? {
      var page := s1(req).value;
      var staged := StageAll(tx, RowsOf(page), db.accepts);
      if staged.Success? && page.pageInfo.hasNextPage {
        DriveSameSource(s1, s2, db, Some(page.pageInfo.endCursor), staged.value, fuel - 1);
      }
    }
  }
}

