/** The user-group transformer: sort the event rows once by (id, event
    time), list the distinct ids, collapse each id's rows into one record,
    and return the records as a frame or as a list of mappings. */
module Transformer {
  import opened Values
  import opened Events
  import opened Ordering
  import opened Distinct
  import opened Features
  import opened Frames

  /** Why the transform fails: a key column is missing, or the id column
      is `et_index`, so the index gets two levels of that name and the id
      level cannot be selected. */
  datatype Error = MissingColumn(column: string) | DuplicateIndexLevel(level: string)

  datatype Result<T> = Success(value: T) | Failure(error: Error)

  /** The result in the representation the caller asked for. */
  datatype Output = FrameOut(frame: Frame) | RecordList(records: seq<Record>)

  /** The table has the columns the transform indexes by. */
  predicate HasKeyColumns(t: EventTable, idCol: string) {
    EventTime in t.schema && idCol in t.schema
  }

  /** The ids to process: the distinct ids of the key-sorted rows, in order
      of first appearance. */
  function Users(sorted: seq<Row>, idCol: string): seq<int> {
    Unique(Ids(sorted, idCol))
  }

  /** One record per distinct id, built from that id's rows of the
      key-sorted table. */
  function Assemble(t: EventTable, idCol: string, firstItems: set<string>): (recs: seq<Record>)
    requires WellFormed(t, idCol) && HasKeyColumns(t, idCol)
    ensures forall j :: 0 <= j < |recs| ==> recs[j].Keys == RecordKeys(t.schema, idCol)
  {
    var sorted := SortByKey(t.rows, idCol);
    var users := Users(sorted, idCol);
    seq(|users|, j requires 0 <= j < |users| =>
      GroupFits(t, sorted, idCol, users[j]);
      Collapse(users[j], RowsWithId(sorted, idCol, users[j]), t.schema, idCol, firstItems))
  }

  /** The rows of an id that occurs in the sorted table form a non-empty
      group whose rows fit the schema. */
  lemma GroupFits(t: EventTable, sorted: seq<Row>, idCol: string, u: int)
    requires WellFormed(t, idCol)
    requires forall r :: r in sorted <==> r in t.rows
    requires u in Ids(sorted, idCol)
    ensures |RowsWithId(sorted, idCol, u)| > 0
    ensures ColumnsFit(RowsWithId(sorted, idCol, u), t.schema)
  {
    RowsWithIdNonEmpty(sorted, idCol, u);
    var g := RowsWithId(sorted, idCol, u);
    forall i, k | 0 <= i < |g| && k in t.schema
      ensures k in g[i] && Fits(g[i][k], t.schema[k])
    {
      assert g[i] in g;
      assert RowFits(g[i], t.schema);
    }
  }

  /** The transform. A missing event-time column is reported first. An id
      column named `et_index` is reported next: copying the event time
      into `et_index` creates or overwrites it, and the index then has two
      levels of that name. A missing id column is reported last. Otherwise
      the records are returned as a frame, or, when `asRecords` holds, as
      the frame read back row by row. */
  function Transform(t: EventTable, idCol: string, firstItems: set<string>, asRecords: bool): (r: Result<Output>)
    requires WellFormed(t, idCol)
    ensures r.Failure? <==> !HasKeyColumns(t, idCol) || idCol == EtIndex
    ensures EventTime !in t.schema ==> r == Failure(MissingColumn(EventTime))
    ensures EventTime in t.schema && idCol == EtIndex ==> r == Failure(DuplicateIndexLevel(EtIndex))
    ensures EventTime in t.schema && idCol != EtIndex && idCol !in t.schema ==> r == Failure(MissingColumn(idCol))
    ensures r.Success? ==> r.value.RecordList? == asRecords
  {
    if EventTime !in t.schema then Failure(MissingColumn(EventTime))
    else if idCol == EtIndex then Failure(DuplicateIndexLevel(EtIndex))
    else if idCol !in t.schema then Failure(MissingColumn(idCol))
    else
      var recs := Assemble(t, idCol, firstItems);
      var frame := FromRecords(recs);
      if asRecords then Success(RecordList(ToRecords(frame))) else Success(FrameOut(frame))
  }

  /** The rows of entity `u`, in an order by event time: exactly the input
      rows with that id (as a multiset), and nothing else. */
  predicate IsEntityGroup(g: seq<Row>, rows: seq<Row>, idCol: string, u: int) {
    && |g| > 0
    && multiset(g) == multiset(RowsWithId(rows, idCol, u))
    && TimeOrdered(g)
  }

  /** A record's id field holds a numeric scalar. */
  predicate Identified(rec: Record, idCol: string) {
    idCol in rec && rec[idCol].Scalar? && rec[idCol].cell.Num?
  }

  /** The entity an identified record describes. */
  function EntityOf(rec: Record, idCol: string): int {
    if Identified(rec, idCol) then rec[idCol].cell.n else 0
  }

  /** Grouping completeness: there is exactly one record per distinct input
      id, each record's id field names an input id, and records come out in
      strictly ascending id order. */
  lemma OneRecordPerEntity(t: EventTable, idCol: string, firstItems: set<string>)
    requires WellFormed(t, idCol) && HasKeyColumns(t, idCol)
    ensures var recs := Assemble(t, idCol, firstItems);
      && |recs| == |InputIds(t.rows, idCol)|
      && (forall j :: 0 <= j < |recs| ==>
            Identified(recs[j], idCol) && EntityOf(recs[j], idCol) in InputIds(t.rows, idCol))
      && (forall u :: u in InputIds(t.rows, idCol) ==>
            exists j :: 0 <= j < |recs| && EntityOf(recs[j], idCol) == u)
      && (forall i, j :: 0 <= i < j < |recs| ==> EntityOf(recs[i], idCol) < EntityOf(recs[j], idCol))
  {
    var recs := Assemble(t, idCol, firstItems);
    var users := Users(SortByKey(t.rows, idCol), idCol);
    RecordIdsAreUsers(t, idCol, firstItems);
    UsersAreInputIds(t.rows, idCol);
    forall i, j | 0 <= i < j < |recs|
      ensures EntityOf(recs[i], idCol) < EntityOf(recs[j], idCol)
    {
      assert users[i] < users[j];
    }
    forall u | u in InputIds(t.rows, idCol)
      ensures exists j :: 0 <= j < |recs| && EntityOf(recs[j], idCol) == u
    {
      var j :| 0 <= j < |users| && users[j] == u;
      assert EntityOf(recs[j], idCol) == u;
    }
  }

  /** The record at position j describes the j-th id to process. */
  lemma RecordIdsAreUsers(t: EventTable, idCol: string, firstItems: set<string>)
    requires WellFormed(t, idCol) && HasKeyColumns(t, idCol)
    ensures var recs := Assemble(t, idCol, firstItems);
      var users := Users(SortByKey(t.rows, idCol), idCol);
      && |recs| == |users|
      && forall j :: 0 <= j < |recs| ==> Identified(recs[j], idCol) && EntityOf(recs[j], idCol) == users[j]
  {
    var recs := Assemble(t, idCol, firstItems);
    var sorted := SortByKey(t.rows, idCol);
    var users := Users(sorted, idCol);
    forall j | 0 <= j < |recs|
      ensures Identified(recs[j], idCol) && EntityOf(recs[j], idCol) == users[j]
    {
      GroupFits(t, sorted, idCol, users[j]);
    }
  }

  /** The record at position j is the collapse of the j-th id's rows of
      the key-sorted table. */
  lemma RecordAt(t: EventTable, idCol: string, firstItems: set<string>, j: nat)
    requires WellFormed(t, idCol) && HasKeyColumns(t, idCol)
    requires j < |Users(SortByKey(t.rows, idCol), idCol)|
    ensures var sorted := SortByKey(t.rows, idCol);
      var u := Users(sorted, idCol)[j];
      && |Assemble(t, idCol, firstItems)| == |Users(sorted, idCol)|
      && |RowsWithId(sorted, idCol, u)| > 0
      && ColumnsFit(RowsWithId(sorted, idCol, u), t.schema)
      && Assemble(t, idCol, firstItems)[j] == Collapse(u, RowsWithId(sorted, idCol, u), t.schema, idCol, firstItems)
  {
    var sorted := SortByKey(t.rows, idCol);
    GroupFits(t, sorted, idCol, Users(sorted, idCol)[j]);
  }

  /** The ids to process are the distinct input ids, each once, ascending. */
  lemma UsersAreInputIds(rows: seq<Row>, idCol: string)
    ensures var users := Users(SortByKey(rows, idCol), idCol);
      && (forall x :: x in users <==> x in InputIds(rows, idCol))
      && |users| == |InputIds(rows, idCol)|
      && StrictlyIncreasing(users)
  {
    var sorted := SortByKey(rows, idCol);
    var users := Users(sorted, idCol);
    IdsAreInputIds(sorted, idCol);
    assert InputIds(sorted, idCol) == InputIds(rows, idCol);
    assert (set x | x in users) == InputIds(rows, idCol);
    DistinctCardinality(users);
    SortedIdsNonDecreasing(sorted, idCol);
    UniqueOfSorted(Ids(sorted, idCol));
  }

  /** Alignment: every record is built from one time-ordered arrangement of
      exactly its entity's input rows. Each first-item field is the cell of
      its first row, and every other field holds its column's cells in that
      same row order, so index i of every sequence field comes from the
      same input row. */
  lemma RecordIsItsGroup(t: EventTable, idCol: string, firstItems: set<string>, j: nat)
    requires WellFormed(t, idCol) && HasKeyColumns(t, idCol)
    requires j < |Assemble(t, idCol, firstItems)|
    ensures var rec := Assemble(t, idCol, firstItems)[j];
      && Identified(rec, idCol)
      && exists g :: IsEntityGroup(g, t.rows, idCol, EntityOf(rec, idCol))
           && ColumnsFit(g, t.schema)
           && BuiltFrom(rec, EntityOf(rec, idCol), g, t.schema, idCol, firstItems)
  {
    var g := GroupOfRecord(t, idCol, firstItems, j);
  }

  /** The group a record is built from: its entity's rows of the key-sorted
      table. */
  lemma GroupOfRecord(t: EventTable, idCol: string, firstItems: set<string>, j: nat) returns (g: seq<Row>)
    requires WellFormed(t, idCol) && HasKeyColumns(t, idCol)
    requires j < |Assemble(t, idCol, firstItems)|
    ensures var rec := Assemble(t, idCol, firstItems)[j];
      && Identified(rec, idCol)
      && IsEntityGroup(g, t.rows, idCol, EntityOf(rec, idCol))
      && ColumnsFit(g, t.schema)
      && BuiltFrom(rec, EntityOf(rec, idCol), g, t.schema, idCol, firstItems)
  {
    var sorted := SortByKey(t.rows, idCol);
    var u := Users(sorted, idCol)[j];
    g := RowsWithId(sorted, idCol, u);
    RecordAt(t, idCol, firstItems, j);
    RowsWithIdPermutation(sorted, t.rows, idCol, u);
    EntityRowsTimeOrdered(sorted, idCol, u);
  }

  /** Row-count conservation: a sequence field of an entity's record has one
      step per input row of that entity (for a tensor column, the leading
      dimension of the stacked matrix). */
  lemma SequenceFieldLength(t: EventTable, idCol: string, firstItems: set<string>, j: nat, k: string)
    requires WellFormed(t, idCol) && HasKeyColumns(t, idCol)
    requires j < |Assemble(t, idCol, firstItems)|
    requires k in t.schema && k != idCol && k != EtIndex && k !in firstItems
    ensures var rec := Assemble(t, idCol, firstItems)[j];
      && Identified(rec, idCol)
      && !rec[k].Scalar?
      && Length(rec[k]) == |RowsWithId(t.rows, idCol, EntityOf(rec, idCol))|
  {
    var rec := Assemble(t, idCol, firstItems)[j];
    var g := GroupOfRecord(t, idCol, firstItems, j);
    SequenceFieldSteps(rec, EntityOf(rec, idCol), g, t.schema, idCol, firstItems, k);
    assert |multiset(g)| == |g|;
  }

  /** First-item correctness: a first-item field holds the column's cell
      from an input row of the entity with the earliest event time. */
  lemma FirstItemIsEarliest(t: EventTable, idCol: string, firstItems: set<string>, j: nat, k: string)
    requires WellFormed(t, idCol) && HasKeyColumns(t, idCol)
    requires j < |Assemble(t, idCol, firstItems)|
    requires k in t.schema && k != idCol && k != EtIndex && k in firstItems
    ensures var rec := Assemble(t, idCol, firstItems)[j];
      && Identified(rec, idCol)
      && exists r :: r in t.rows && IdOf(r, idCol) == EntityOf(rec, idCol) && k in r
           && rec[k] == Scalar(r[k])
           && forall r' :: r' in t.rows && IdOf(r', idCol) == EntityOf(rec, idCol) ==> TimeOf(r) <= TimeOf(r')
  {
    var rec := Assemble(t, idCol, firstItems)[j];
    var g := GroupOfRecord(t, idCol, firstItems, j);
    var u := EntityOf(rec, idCol);
    EarliestOfGroup(g, t.rows, idCol, u);
  }

  /** The first row of an entity group is an input row of the entity with
      the minimum event time. */
  lemma EarliestOfGroup(g: seq<Row>, rows: seq<Row>, idCol: string, u: int)
    requires IsEntityGroup(g, rows, idCol, u)
    ensures g[0] in rows && IdOf(g[0], idCol) == u
    ensures forall r' :: r' in rows && IdOf(r', idCol) == u ==> TimeOf(g[0]) <= TimeOf(r')
  {
    assert g[0] in multiset(RowsWithId(rows, idCol, u));
    forall r' | r' in rows && IdOf(r', idCol) == u
      ensures TimeOf(g[0]) <= TimeOf(r')
    {
      assert r' in multiset(g);
      var i :| 0 <= i < |g| && g[i] == r';
      if i > 0 {
        assert TimeOf(g[0]) <= TimeOf(g[i]);
      }
    }
  }

  /** The retained event-time field of a record is sorted ascending and
      has one entry per input row of the entity. */
  lemma EventTimeAscending(t: EventTable, idCol: string, firstItems: set<string>, j: nat)
    requires WellFormed(t, idCol) && HasKeyColumns(t, idCol)
    requires j < |Assemble(t, idCol, firstItems)|
    requires EventTime != idCol && EventTime !in firstItems
    ensures var rec := Assemble(t, idCol, firstItems)[j];
      && Identified(rec, idCol)
      && rec[EventTime].Numbers?
      && NonDecreasing(rec[EventTime].values)
      && |rec[EventTime].values| == |RowsWithId(t.rows, idCol, EntityOf(rec, idCol))|
  {
    var rec := Assemble(t, idCol, firstItems)[j];
    var g := GroupOfRecord(t, idCol, firstItems, j);
    SequenceFieldSteps(rec, EntityOf(rec, idCol), g, t.schema, idCol, firstItems, EventTime);
    TimesOfGroup(rec[EventTime], g);
    assert |multiset(g)| == |g|;
  }

  /** A numeric field holding the event times of time-ordered rows, step
      for step, is non-decreasing. */
  lemma TimesOfGroup(f: Field, g: seq<Row>)
    requires f.Numbers? && |f.values| == |g| && TimeOrdered(g)
    requires forall i :: 0 <= i < |g| ==> EventTime in g[i] && Steps(f)[i] == g[i][EventTime]
    ensures NonDecreasing(f.values)
  {
    forall i | 0 <= i < |g|
      ensures f.values[i] == TimeOf(g[i])
    {
      assert Steps(f)[i] == Num(f.values[i]);
    }
  }

  /** A tensor column becomes a `group size x width` matrix whose row i is
      the vector of the entity's i-th row in time order. */
  lemma TensorFieldIsMatrix(t: EventTable, idCol: string, firstItems: set<string>, j: nat, k: string, d: nat)
    requires WellFormed(t, idCol) && HasKeyColumns(t, idCol)
    requires j < |Assemble(t, idCol, firstItems)|
    requires k in t.schema && k != idCol && k != EtIndex && k !in firstItems && t.schema[k] == Tensor(d)
    ensures var rec := Assemble(t, idCol, firstItems)[j];
      && Identified(rec, idCol)
      && rec[k].Matrix?
      && |rec[k].rows| == |RowsWithId(t.rows, idCol, EntityOf(rec, idCol))|
      && exists g :: IsEntityGroup(g, t.rows, idCol, EntityOf(rec, idCol)) && |g| == |rec[k].rows|
           && forall i :: 0 <= i < |g| ==> k in g[i] && g[i][k] == Vec(rec[k].rows[i]) && |rec[k].rows[i]| == d
  {
    var rec := Assemble(t, idCol, firstItems)[j];
    var g := GroupOfRecord(t, idCol, firstItems, j);
    SequenceFieldSteps(rec, EntityOf(rec, idCol), g, t.schema, idCol, firstItems, k);
    var m := rec[k].rows;
    forall i | 0 <= i < |g|
      ensures g[i][k] == Vec(m[i])
    {
      assert Steps(rec[k])[i] == Vec(m[i]);
    }
    assert |multiset(g)| == |g|;
  }

  /** The `et_index` column ends in the index: no record has a field of
      that name, whatever the input held there, while every other column
      of the table is a field. (An id column of that name never gets this
      far: the transform rejects it.) */
  lemma EtIndexDropped(t: EventTable, idCol: string, firstItems: set<string>)
    requires WellFormed(t, idCol) && HasKeyColumns(t, idCol)
    requires EtIndex != idCol
    ensures var recs := Assemble(t, idCol, firstItems);
      forall j :: 0 <= j < |recs| ==>
        && EtIndex !in recs[j]
        && forall k :: k in t.schema && k != EtIndex ==> k in recs[j]
  {
  }

  /** The records form and the frame form carry the same records in the
      same order: the records form equals the assembled records, and the
      frame's cell in column `k`, row `j` is field `k` of record `j`. */
  lemma RecordsMatchFrame(t: EventTable, idCol: string, firstItems: set<string>)
    requires WellFormed(t, idCol) && HasKeyColumns(t, idCol) && idCol != EtIndex
    ensures var recs := Assemble(t, idCol, firstItems);
      && Transform(t, idCol, firstItems, true) == Success(RecordList(recs))
      && Transform(t, idCol, firstItems, false).value.FrameOut?
      && var f := Transform(t, idCol, firstItems, false).value.frame;
         f.height == |recs|
         && forall j, k :: 0 <= j < |recs| && k in recs[j] ==> k in f.columns && f.columns[k][j] == recs[j][k]
  {
    var recs := Assemble(t, idCol, firstItems);
    RecordsRoundTrip(recs);
  }

  /** An empty table yields an empty result, not an error. */
  lemma EmptyTableYieldsNoRecords(t: EventTable, idCol: string, firstItems: set<string>, asRecords: bool)
    requires WellFormed(t, idCol) && HasKeyColumns(t, idCol) && idCol != EtIndex
    requires t.rows == []
    ensures Transform(t, idCol, firstItems, asRecords)
      == if asRecords then Success(RecordList([])) else Success(FrameOut(Frame(0, map[])))
  {
    assert Assemble(t, idCol, firstItems) == [];
  }
}
