/** The `issues` table and the mapping of one decoded node onto one row of
    it. The program prepares an insert that names sixteen columns and passes
    the node's fields as its sixteen arguments; the model defines the row
    column by column and proves that the positional binding produces it. */
module Rows {
  import Linear
  import opened Seqs
  import LabelText

  /** A column of the `issues` table, in the order the `create table`
      statement declares them. */
  datatype Column =
    | Id | Title | CreatedAt | CompletedAt | StartedAt | State | Creator | Assignee
    | Description | Url | CanceledAt | Number | Estimate | Labels | Project | Cycle

  /** Every column of the table. */
  const AllColumns: set<Column> := {
    Id, Title, CreatedAt, CompletedAt, StartedAt, State, Creator, Assignee,
    Description, Url, CanceledAt, Number, Estimate, Labels, Project, Cycle
  }

  datatype ColumnType = TextColumn | IntColumn

  /** The declared type of each column. */
  function TypeOf(c: Column): ColumnType {
    match c
    case Number | Estimate | Cycle => IntColumn
    case _ => TextColumn
  }

  /** A value bound to a statement argument. A `time.Time` is bound as
      itself; the driver stores it in a text column. */
  datatype Value = Text(text: string) | Integer(number: int) | Timestamp(time: Linear.Time)

  /** A row: column to value. */
  type Record = map<Column, Value>

  /** A row that has its primary-key column. */
  type Row = r: Record | Id in r witness map[Id := Text("")]

  /** A value may be stored in a column of the given type. */
  predicate Fits(v: Value, t: ColumnType) {
    match t
    case TextColumn => v.Text? || v.Timestamp?
    case IntColumn => v.Integer?
  }

  /** The row has every column of the table, each holding a value of the
      column's declared type. */
  predicate Conforms(r: Record) {
    forall c: Column :: c in r && Fits(r[c], TypeOf(c))
  }

  // ---------------------------------------------------------------------
  // The row, column by column
  // ---------------------------------------------------------------------

  /** The value of column `c` for node `n`: the field of the same name,
      nested objects reduced to their name, display name or number, and the
      labels flattened. */
  function Cell(n: Linear.Node, c: Column): Value {
    match c
    case Id => Text(n.id)
    case Title => Text(n.title)
    case CreatedAt => Timestamp(n.createdAt)
    case CompletedAt => Timestamp(n.completedAt)
    case StartedAt => Timestamp(n.startedAt)
    case State => Text(n.state.name)
    case Creator => Text(n.creator.displayName)
    case Assignee => Text(n.assignee.displayName)
    case Description => Text(n.description)
    case Url => Text(n.url)
    case CanceledAt => Timestamp(n.canceledAt)
    case Number => Integer(n.number)
    case Estimate => Integer(n.estimate)
    case Labels => Text(LabelText.Join(Linear.LabelNames(n.labels)))
    case Project => Text(n.project.name)
    case Cycle => Integer(n.cycle.number)
  }

  /** The row staged for one node. */
  function MapRow(n: Linear.Node): (r: Row)
    ensures r[Id] == Text(n.id)
  {
    map c | c in AllColumns :: Cell(n, c)
  }

  /** Every staged row fits the table: all its columns, each with a value
      of the column's declared type. */
  lemma MapRowConforms(n: Linear.Node)
    ensures Conforms(MapRow(n))
  {
    forall c: Column
      ensures c in MapRow(n) && Fits(MapRow(n)[c], TypeOf(c))
    {
      match c
      case Number | Estimate | Cycle => assert Cell(n, c).Integer?;
      case CreatedAt | CompletedAt | StartedAt | CanceledAt => assert Cell(n, c).Timestamp?;
      case _ => assert Cell(n, c).Text?;
    }
  }

  /** A node straight off the wire lands with an empty assignee column,
      because the query never selects the assignee. */
  lemma AssigneeAlwaysEmpty(w: Linear.WireNode)
    requires Linear.DecodeNode(w).Success?
    ensures MapRow(Linear.DecodeNode(w).value)[Assignee] == Text("")
  {
  }

  // ---------------------------------------------------------------------
  // The prepared insert, as the program writes it
  // ---------------------------------------------------------------------

  /** The column list of the prepared `insert into issues(...)`. */
  const InsertColumns: seq<Column> := [
    Id, Title, CreatedAt, CompletedAt, State, Creator, Description, Url,
    Assignee, StartedAt, CanceledAt, Number, Estimate, Labels, Project, Cycle
  ]

  /** The number of `?` placeholders in the prepared insert. */
  const Placeholders: nat := 16

  /** The statement arguments, in the order the program passes them. */
  function InsertArgs(n: Linear.Node): (args: seq<Value>)
    ensures |args| == Placeholders
  {
    [ Text(n.id), Text(n.title), Timestamp(n.createdAt), Timestamp(n.completedAt),
      Text(n.state.name), Text(n.creator.displayName), Text(n.description), Text(n.url),
      Text(n.assignee.displayName), Timestamp(n.startedAt), Timestamp(n.canceledAt),
      Integer(n.number), Integer(n.estimate), Text(LabelText.Join(Linear.LabelNames(n.labels))),
      Text(n.project.name), Integer(n.cycle.number) ]
  }

  /** Binding arguments to a column list: the value of column `cols[i]` is
      `args[i]` (the first occurrence would win if a column were named
      twice). */
  function Bind(cols: seq<Column>, args: seq<Value>): (r: Record)
    requires |cols| == |args|
    ensures r.Keys == set c | c in cols
    ensures Distinct(cols) ==> forall i :: 0 <= i < |cols| ==> r[cols[i]] == args[i]
  {
    if cols == [] then map[]
    else Bind(cols[1..], args[1..])[cols[0] := args[0]]
  }

  /** The insert statement is well formed against the schema: as many
      columns as placeholders, no column named twice, and every column of
      the table named, so no column of an inserted row is left NULL. */
  lemma InsertMatchesSchema()
    ensures |InsertColumns| == Placeholders
    ensures Distinct(InsertColumns)
    ensures forall c: Column :: c in InsertColumns
  {
    InsertColumnsDistinct();
    forall c: Column
      ensures c in InsertColumns
    {
      match c
      case Id => assert InsertColumns[0] == c;
      case Title => assert InsertColumns[1] == c;
      case CreatedAt => assert InsertColumns[2] == c;
      case CompletedAt => assert InsertColumns[3] == c;
      case State => assert InsertColumns[4] == c;
      case Creator => assert InsertColumns[5] == c;
      case Description => assert InsertColumns[6] == c;
      case Url => assert InsertColumns[7] == c;
      case Assignee => assert InsertColumns[8] == c;
      case StartedAt => assert InsertColumns[9] == c;
      case CanceledAt => assert InsertColumns[10] == c;
      case Number => assert InsertColumns[11] == c;
      case Estimate => assert InsertColumns[12] == c;
      case Labels => assert InsertColumns[13] == c;
      case Project => assert InsertColumns[14] == c;
      case Cycle => assert InsertColumns[15] == c;
    }
  }

  lemma InsertColumnsDistinct()
    ensures Distinct(InsertColumns)
  {
  }

  /** The column list and the argument list of the insert match pairwise:
      binding the program's arguments to the program's columns stores, in
      every column, exactly the node field of that column's name. */
  lemma InsertBindsNamedFields(n: Linear.Node)
    ensures Bind(InsertColumns, InsertArgs(n)) == MapRow(n)
  {
    var r := Bind(InsertColumns, InsertArgs(n));
    BindCells(n);
    CellInEveryColumn(n, r);
    CellsMakeRow(n, r);
  }

  /** A record holding each listed column's cell holds every column's cell,
      since the insert lists every column. */
  lemma CellInEveryColumn(n: Linear.Node, r: Record)
    requires forall i :: 0 <= i < |InsertColumns| ==> InsertColumns[i] in r && r[InsertColumns[i]] == Cell(n, InsertColumns[i])
    ensures forall c: Column :: c in r && r[c] == Cell(n, c)
  {
    forall c: Column
      ensures c in r && r[c] == Cell(n, c)
    {
      match c
      case Id => assert InsertColumns[0] == c;
      case Title => assert InsertColumns[1] == c;
      case CreatedAt => assert InsertColumns[2] == c;
      case CompletedAt => assert InsertColumns[3] == c;
      case State => assert InsertColumns[4] == c;
      case Creator => assert InsertColumns[5] == c;
      case Description => assert InsertColumns[6] == c;
      case Url => assert InsertColumns[7] == c;
      case Assignee => assert InsertColumns[8] == c;
      case StartedAt => assert InsertColumns[9] == c;
      case CanceledAt => assert InsertColumns[10] == c;
      case Number => assert InsertColumns[11] == c;
      case Estimate => assert InsertColumns[12] == c;
      case Labels => assert InsertColumns[13] == c;
      case Project => assert InsertColumns[14] == c;
      case Cycle => assert InsertColumns[15] == c;
    }
  }

  /** A record holding every column's cell is the row of the node. */
  lemma CellsMakeRow(n: Linear.Node, r: Record)
    requires forall c: Column :: c in r && r[c] == Cell(n, c)
    ensures r == MapRow(n)
  {
    forall c: Column
      ensures c in AllColumns
    {
      match c
      case Id => case Title => case CreatedAt => case CompletedAt => case State => case Creator =>
      case Description => case Url => case Assignee => case StartedAt => case CanceledAt =>
      case Number => case Estimate => case Labels => case Project => case Cycle =>
    }
    assert r.Keys == MapRow(n).Keys;
  }

  /** Position by position, the binding stores each column's cell. */
  lemma BindCells(n: Linear.Node)
    ensures forall i :: 0 <= i < Placeholders ==>
      InsertColumns[i] in Bind(InsertColumns, InsertArgs(n)) &&
      Bind(InsertColumns, InsertArgs(n))[InsertColumns[i]] == Cell(n, InsertColumns[i])
  {
    var args := InsertArgs(n);
    forall i | 0 <= i < Placeholders
      ensures InsertColumns[i] in Bind(InsertColumns, args)
      ensures Bind(InsertColumns, args)[InsertColumns[i]] == Cell(n, InsertColumns[i])
    {
      BindAt(args, i);
      ArgIsCell(n, i);
    }
  }

  /** The `i`th argument is the cell of the `i`th column. */
  lemma ArgIsCell(n: Linear.Node, i: nat)
    requires i < Placeholders
    ensures InsertArgs(n)[i] == Cell(n, InsertColumns[i])
  {
  }

  lemma BindAt(args: seq<Value>, i: nat)
    requires |args| == Placeholders && i < Placeholders
    ensures InsertColumns[i] in Bind(InsertColumns, args)
    ensures Bind(InsertColumns, args)[InsertColumns[i]] == args[i]
  {
    InsertColumnsDistinct();
  }
}
