# lineardb, modelled in Dafny

lineardb is a one-shot exporter. It pages through every issue of a Linear
workspace with the GraphQL `Issues` query, 150 issues per request, following
the `endCursor` of each page until a page reports `hasNextPage = false`. It
turns each issue into one row of a freshly created SQLite table `issues`,
keyed by the issue id. All rows are inserted in a single transaction, which
is committed once, after the last page. A failed request, an undecodable
body, a refused insert or a failed commit ends the process, and nothing is
committed. The exception is a body without `data`, which is what a GraphQL
error response looks like. The program reads it as an empty last page and
commits the rows fetched so far (see "## Findings"). The model states the
program's run as written and a corrected run in which such a body is a
failed fetch. The all-or-nothing properties are stated of the corrected run.

The model follows `collectAllIssuesFromLinear` in `main.go`. It has one
module per component:

- `Linear` (`linear.dfy`) holds two shapes of the data.
  - The Go structs the response is unmarshalled into: `PageInfo`, `Node`, `Issue` (here `Page`), `Response`.
  - The wire shape the query asks for, where every JSON value that may be null or absent is an `Option`.
  - Decoding turns a null or absent value into the Go zero value. An integer outside Go's `int`, 64 bits wide on 64-bit platforms, is a decoding error.
  - The query never selects `assignee`, so it always decodes to `""`.
- `LabelText` (`labels.dfy`) flattens the label names into one text column. Every name is followed by `", "`, including the last one.
- `Rows` (`rows.dfy`) holds the table's sixteen columns, the row of one issue, and the prepared insert with its positional arguments.
- `Store` (`store.dfy`) holds the transaction.
  - Rows are staged under the `id` primary key. A repeated id is refused, and so is a row the database refuses to insert for any other reason, such as a full disk, a locked database or an I/O error.
  - The table after commit maps each id to its row.
- `Pagination` (`pagination.dfy`) holds the loop, fuel-bounded, over an abstract page source.
  - Each iteration fetches a page, stages its rows, and stops after a page with no next page.
  - It then commits.
  - A run records the requests it sent and how it ended: `Committed`, `Aborted` or `Unfinished`.
- `Loader` (`loader.dfy`) holds the whole run against an environment.
  - The environment has two parts.
    - A function from a request to a response body or a transport error.
    - The database's behaviour: which rows an insert accepts apart from the primary key, and whether the final commit succeeds.
  - Within one run, the rows inserted before the first duplicate are pairwise distinct. So a predicate on rows can refuse exactly the k-th insert, for any k.
  - The run starts with a null cursor on an empty table.
- `Wrappers` and `Seqs` are small helpers: `Option` and `Result`, and duplicate-free sequences.

The Go program runs until the service says there is no next page. It has no
bound of its own, so `Drive` takes a fuel bound on the number of requests. A
run that exhausts it is `Unfinished` and commits nothing.
`Pagination.DriveFuelIrrelevant` shows that more fuel never changes a run
that has already ended on its own.

Two places where the behaviour is a choice, settled here as the code does it:

- The separator after the last label is kept: `["a","b"]` flattens to `"a, b, "` and no labels to `""`.
- A repeated issue id is fatal. The insert fails on the primary key, and the program calls `log.Fatal` before the commit.

The run is a pure function of the environment. It always starts from a
freshly created table, so two runs against the same service give the same
table.

## Model

| member | source | states |
|---|---|---|
| `Linear.DecodeNode` | main.go:49-66 | An issue decodes exactly when its three integers fit a Go `int`, and otherwise fails as undecodable. A null state, project, creator, cycle, label list or timestamp decodes to the Go zero value. The assignee is always `""`. |
| `Linear.DecodeNodes` | main.go:68-71 | The node list decodes exactly when every node does, keeping length and order: node `i` decodes to element `i`. |
| `Linear.DecodeIssues` | main.go:68-71 | The page decodes exactly when its nodes do, and otherwise fails as undecodable. Node `k` of the page is wire node `k` decoded. A present `hasNextPage` or `endCursor` is copied. A null one, or a null `pageInfo`, reads as no next page or the empty cursor. |
| `Linear.DecodeResponseAsWritten` | main.go:182-185 | As the program decodes: a body without `data`, or with a null `issues`, is an empty page with no next page. Any other body is its issues connection decoded. |
| `Linear.DecodeResponse` | main.go:182-185 | Corrected decoding. A body without the issues connection fails with `NoData`. On every body that has one, it agrees with the program's decoding. |
| `Linear.DecodeEncode` | main.go:82-119 | Decoding undoes encoding exactly for issues whose assignee is empty (the query never selects it) and whose integers fit 64 bits; otherwise the round trip fails. |
| `Linear.EncodeIssues` | main.go:68-71 | The connection a server would send for a page: one wire node per node, in order, each the node's encoding. |
| `Linear.DecodeEncodeIssues` | main.go:68-71 | Decoding undoes page encoding, giving back the nodes, the next-page flag and the cursor, exactly when every node has an empty assignee and integers that fit a Go `int`. |
| `LabelText.Flatten` | main.go:189-193 | The builder loop yields the label names, each followed by `", "`, in source order; no labels yield `""`. |
| `LabelText.JoinLength` | main.go:189-193 | The flattened text is as long as the sum over the labels of the name's length plus 2. |
| `LabelText.JoinSnoc` | main.go:190-192 | Writing one more label appends its name and the separator to the text built so far. |
| `LabelText.SplitJoin` | main.go:189-193 | When no label name contains `", "`, splitting the flattened text recovers the list of names. |
| `LabelText.JoinSplit` | main.go:189-193 | Any text that splits into names is the flattening of those names, and none of them contains the separator. |
| `LabelText.JoinNotInjective` | main.go:191-192 | The labels `["a, b"]` and `["a", "b"]` flatten to the same text `"a, b, "`, so the column cannot always be read back. |
| `Rows.MapRow` | main.go:188-194 | The row of an issue carries the issue's id in the primary-key column. |
| `Rows.MapRowConforms` | main.go:132-149 | Every mapped row has all sixteen columns of the table, each holding a value of the column's declared type (`int` for number, estimate and cycle). |
| `Rows.AssigneeAlwaysEmpty` | main.go:82-119 | A row built from a node off the wire has an empty assignee column. |
| `Rows.InsertMatchesSchema` | main.go:153 | The insert names sixteen columns for its sixteen placeholders, no column twice, and every column of the table. |
| `Rows.Bind` | main.go:153 | Binding arguments to a column list defines exactly the listed columns. When no column repeats, column `cols[i]` holds argument `i`. |
| `Rows.InsertBindsNamedFields` | main.go:194 | Binding the program's sixteen arguments to the program's column list, position by position, gives the row whose columns each hold the field of the same name: id from `Id`, state from `State.Name`, creator from `Creator.DisplayName`, cycle from `Cycle.Number`, labels from the flattened labels, and so on. |
| `Store.Stage` | main.go:194-197 | Staging one row succeeds exactly when its id is not yet staged and the database accepts the insert. On success it appends the row and the transaction stays duplicate-free. A repeated id fails as a duplicate key. Any other refusal fails as an insert failure for that row's id. |
| `Store.StageAll` | main.go:188-198 | Staging a page's rows in order succeeds exactly when no id repeats, among them or against the rows already staged, and the database accepts every row. On success the rows follow the staged ones in order. Otherwise it fails on a duplicate key or a refused insert. |
| `Store.TableOfStaged` | main.go:132-133 | Committing a duplicate-free transaction gives a table with one entry per staged row, each row under its own id. |
| `Pagination.RowsOf` | main.go:188-194 | A page gives one row per node, in node order, row `i` being the mapping of node `i`, each with a primary key. |
| `Pagination.Drive` | main.go:157-209 | At most `fuel` requests are sent, and none only when the fuel is zero. The first request carries the starting cursor. Every request asks for 150 issues. A run cut off by the fuel used all of it. A committed run had a successful commit, and its rows repeat no id. |
| `Pagination.DriveChained` | main.go:201-208 | Every request but the last got a page with a next page, and the request after it carries that page's `endCursor`. So no request follows a failure or a last page. |
| `Pagination.DriveCommits` | main.go:164-213 | The loop commits if and only if the cursor chain reaches a last page within the fuel, no id repeats among all rows staged along it, the database accepts every one of those inserts, and the commit succeeds. It then sent one request per page and committed the rows of every page, in page order and node order. |
| `Pagination.CommittedReachesEnd` | main.go:205-210 | A committed run followed the cursor chain to a page with no next page, and its commit succeeded. |
| `Pagination.CommittedLength` | main.go:201-207 | A committed run sent exactly as many requests as the chain has pages, the last page included. |
| `Pagination.CommittedRows` | main.go:188-198 | A committed run commits the rows already staged, then the rows of every page of the chain, in order. |
| `Pagination.CommittedAccepted` | main.go:194-197 | A committed run had every row of the chain accepted by the database. |
| `Pagination.ChainCommits` | main.go:205-213 | Along a chain that reaches a last page, no repeated id, every insert accepted and a successful commit make the run commit. |
| `Pagination.DriveFuelIrrelevant` | main.go:164-209 | Once a run has ended on its own, any larger fuel gives the same run. |
| `Pagination.DriveStopsAtFailure` | main.go:177-185 | A failed fetch of any page, the first or a later one, is the last request sent, and the run aborts with that error. |
| `Pagination.DriveSameSource` | main.go:164-209 | Two sources that answer every request alike give the same run. |
| `Loader.FetchPage` | main.go:177-185 | (corrected run) A page is obtained only from a successful response that carries the issues connection. A transport error is passed on. A body without issues is a `NoData` failure. |
| `Loader.FetchPageAsWritten` | main.go:177-185 | As the program fetches: a transport error is passed on, and a body without issues becomes an empty last page. |
| `Loader.Collect` | main.go:157-162 | (corrected run) The first request has a null `after` cursor and asks for 150 issues. A committed run had a successful commit and repeats no id. |
| `Loader.CollectAsWritten` | main.go:157-213 | The program's own run, with its own decoding, sends a null cursor first. It commits only after a successful commit, with no id twice. |
| `Loader.CollectCommits` | main.go:152-213 | (corrected run) The run commits if and only if the chain from a null cursor reaches a last page, no two issues share an id, the database accepts every insert, and the commit succeeds. |
| `Loader.CollectLoadsEveryIssue` | main.go:210-213 | (corrected run) After a commit, the table holds exactly the rows of all pages: one table row per issue fetched, each under its own id. |
| `Loader.CollectAllOrNothing` | main.go:18-22 | (corrected run) A failed fetch or undecodable body on any page, a repeated id anywhere along the chain, an insert the database refuses, or a failed commit leaves the table empty. |
| `Loader.CollectCommittedHadData` | main.go:182-185 | (corrected run) A committed run got a response carrying the issues connection to every request. |
| `Loader.AsWrittenAgreesWithData` | main.go:182-185 | When the service never answers with a body lacking the issues connection, the program's run and the corrected run are the same. |
| `Loader.AsWrittenCommitsPartialLoad` | main.go:201-213 | As written, a service that answers the second request with an error body makes the program send two requests and commit only the first page's issue. |
| `Loader.CorrectedAbortsOnErrorBody` | main.go:177-185 | The corrected run aborts on that service with `NoData` and commits nothing. |
| `Loader.TwoPagesLoadBoth` | main.go:157-213 | For a two-page service (issue A, then issue B with label `x`), the run sends a null cursor and then `"c1"`. It commits rows A then B, and B's labels column is `"x, "`. The table's keys are exactly A and B. |

## Left out

- HTTP: building the request, its headers, the API key and the endpoint (main.go:121-125, 167-180). They are replaced by the environment's `fetch` function, which returns a body or a `Transport`/`UnreadableBody`/`Undecodable` error. The HTTP status code is never examined by the program, so it is not modelled either.
- JSON syntax: `json.Marshal` and `json.Unmarshal` on text (main.go:167, 184). The model starts from the parsed wire shape. A non-integer number where an `int` is expected, an unparseable timestamp, or a JSON type mismatch is folded into the environment's `Undecodable` error. A null label name inside the label list is not distinguished from `""`.
- `time.Time` values (main.go:52-57) are opaque. They are copied from the response to the row and never inspected. Formatting by the SQLite driver is not modelled.
- SQLite itself: `os.Remove`, `sql.Open`, `create table` and `Prepare` (main.go:127-153) are modelled as the start state, an empty table with an empty transaction. Their own failures (`check` at main.go:150, 154) happen before any request and are not modelled. The database's own behaviour is part of the environment. The commit's failure is its `commitSucceeds` flag. An insert's failure for a reason other than the primary key is its `accepts` predicate. When an insert both repeats an id and fails otherwise, the model reports the duplicate key; either way the run aborts.
- Console output (main.go:203, 215, 223, 227) is informational only.
- `panic` versus `log.Fatal`: both end the process without committing, and are modelled as one `Aborted` outcome with the reason.
- The unbounded Go loop: `Drive` and `Collect` take a fuel bound. A service that never reports a last page gives an `Unfinished` run, which commits nothing, where the program would loop forever.
- Rows.MapRow: its own contract names only the key column. The content of every other column is stated by `Rows.InsertBindsNamedFields` and `Rows.MapRowConforms`. A richer contract on the mapper would be re-instantiated at every step of the driver's proofs.

## Findings

| source | as written | input that shows it | evidently intended | confidence | as-written member | corrected member |
|---|---|---|---|---|---|---|
| main.go:182-185 | A response body without `data`, or with a null `data.issues`, unmarshals without error into the zero `Response`. That is an empty page with `hasNextPage = false`, so the loop stops and the transaction commits the pages fetched so far. A GraphQL error response (an expired key, a rate limit, a query error) has exactly this shape, and the HTTP status is never checked. | Page 1 holds issue A with next cursor `"c1"`. The request with `after = "c1"` is answered with `{"errors": [...]}`, which has no `data`. | An all-or-nothing load: such a body is a failed fetch and nothing is committed. | medium; not executed | `Loader.AsWrittenCommitsPartialLoad` (with `Linear.DecodeResponseAsWritten`, `Loader.CollectAsWritten`) | `Loader.CorrectedAbortsOnErrorBody`, `Loader.CollectCommittedHadData` (with `Linear.DecodeResponse`, `Loader.Collect`) |
