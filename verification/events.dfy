/** The flat table of encoded event rows the transformer consumes, and the
    selection of one entity's rows from it. */
module Events {
  import opened Values

  /** One event row: column name to cell. */
  type Row = map<string, Cell>

  /** The kind of every column of the table. */
  type Schema = map<string, Kind>

  datatype EventTable = EventTable(schema: Schema, rows: seq<Row>)

  /** The column the rows are time-ordered by. */
  const EventTime: string := "event_time"

  /** The column the transform writes the event time into and moves, with
      the id, into the index; whatever it held before is lost. */
  const EtIndex: string := "et_index"

  /** The integer held in column `col` of a row; ids and event times are
      numeric cells in a well-formed table. */
  function NumberIn(r: Row, col: string): int {
    if col in r && r[col].Num? then r[col].n else 0
  }

  /** The entity a row belongs to. */
  function IdOf(r: Row, idCol: string): int {
    NumberIn(r, idCol)
  }

  /** The event time of a row. */
  function TimeOf(r: Row): int {
    NumberIn(r, EventTime)
  }

  /** A row has exactly the table's columns, each cell of its column's kind. */
  predicate RowFits(r: Row, schema: Schema) {
    && (forall k :: k in r ==> k in schema)
    && (forall k :: k in schema ==> k in r && Fits(r[k], schema[k]))
  }

  /** Every row fits the schema, and the id and event-time columns, where
      present, are numeric (shape homogeneity of tensor columns included). */
  predicate WellFormed(t: EventTable, idCol: string) {
    && (forall r :: r in t.rows ==> RowFits(r, t.schema))
    && (idCol in t.schema ==> t.schema[idCol] == Numeric)
    && (EventTime in t.schema ==> t.schema[EventTime] == Numeric)
  }

  /** The distinct entity ids present in some rows. */
  function InputIds(s: seq<Row>, idCol: string): set<int> {
    set r | r in s :: IdOf(r, idCol)
  }

  /** The id column of some rows, in row order. */
  function Ids(s: seq<Row>, idCol: string): (ids: seq<int>)
    ensures |ids| == |s|
    ensures forall i :: 0 <= i < |s| ==> ids[i] == IdOf(s[i], idCol)
  {
    seq(|s|, i requires 0 <= i < |s| => IdOf(s[i], idCol))
  }

  /** The rows of entity `u`, in their order in `s`. */
  function RowsWithId(s: seq<Row>, idCol: string, u: int): (g: seq<Row>)
    ensures forall r :: r in g <==> r in s && IdOf(r, idCol) == u
    ensures |g| <= |s|
  {
    if s == [] then []
    else (if IdOf(s[0], idCol) == u then [s[0]] else []) + RowsWithId(s[1..], idCol, u)
  }

  /** Selecting one entity keeps every copy of that entity's rows and no
      copy of any other row. */
  lemma {:induction false} RowsWithIdCount(s: seq<Row>, idCol: string, u: int, r: Row)
    ensures multiset(RowsWithId(s, idCol, u))[r] == if IdOf(r, idCol) == u then multiset(s)[r] else 0
  {
    if s != [] {
      RowsWithIdCount(s[1..], idCol, u, r);
      assert s == [s[0]] + s[1..];
      assert multiset(s) == multiset{s[0]} + multiset(s[1..]);
    }
  }

  /** Two arrangements of the same rows hold the same rows of each entity. */
  lemma RowsWithIdPermutation(s: seq<Row>, t: seq<Row>, idCol: string, u: int)
    requires multiset(s) == multiset(t)
    ensures multiset(RowsWithId(s, idCol, u)) == multiset(RowsWithId(t, idCol, u))
  {
    forall r: Row
      ensures multiset(RowsWithId(s, idCol, u))[r] == multiset(RowsWithId(t, idCol, u))[r]
    {
      RowsWithIdCount(s, idCol, u, r);
      RowsWithIdCount(t, idCol, u, r);
    }
  }

  /** Every id present in the rows names a non-empty group. */
  lemma RowsWithIdNonEmpty(s: seq<Row>, idCol: string, u: int)
    requires u in Ids(s, idCol)
    ensures |RowsWithId(s, idCol, u)| > 0
  {
    var i :| 0 <= i < |s| && IdOf(s[i], idCol) == u;
    assert s[i] in RowsWithId(s, idCol, u);
  }

  /** The id column lists exactly the distinct ids of the rows. */
  lemma IdsAreInputIds(s: seq<Row>, idCol: string)
    ensures forall x :: x in Ids(s, idCol) <==> x in InputIds(s, idCol)
  {
    forall x | x in InputIds(s, idCol)
      ensures x in Ids(s, idCol)
    {
      var r :| r in s && IdOf(r, idCol) == x;
      var i :| 0 <= i < |s| && s[i] == r;
      assert Ids(s, idCol)[i] == x;
    }
  }
}
