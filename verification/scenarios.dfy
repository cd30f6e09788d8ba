/** A worked scenario: three events of two entities and the records they
    become, for any amounts. */
module Scenarios {
  import opened Values
  import opened Events
  import opened Ordering
  import opened Distinct
  import opened Features
  import opened Frames
  import opened Transformer

  /** An event with an id, a time and one numeric amount column. */
  function Event(id: int, time: int, amt: int): Row {
    map["id" := Num(id), EventTime := Num(time), "amt" := Num(amt)]
  }

  /** The cells of an event, read back by column. */
  lemma EventCells(id: int, time: int, amt: int)
    ensures IdOf(Event(id, time, amt), "id") == id
    ensures TimeOf(Event(id, time, amt)) == time
    ensures Event(id, time, amt)[EventTime] == Num(time)
    ensures Event(id, time, amt)["amt"] == Num(amt)
  {
    assert "id" != EventTime && "amt" != EventTime && "id" != "amt";
  }

  const AmountSchema: Schema := map["id" := Numeric, EventTime := Numeric, "amt" := Numeric]

  /** Entity 1 at time 5 with amount `p`, entity 1 at time 2 with amount
      `q`, entity 2 at time 1 with amount `r`. */
  function ScenarioRows(p: int, q: int, r: int): seq<Row> {
    [Event(1, 5, p), Event(1, 2, q), Event(2, 1, r)]
  }

  lemma ScenarioWellFormed(p: int, q: int, r: int)
    ensures WellFormed(EventTable(AmountSchema, ScenarioRows(p, q, r)), "id")
  {
    forall id: int, time: int, amt: int
      ensures RowFits(Event(id, time, amt), AmountSchema)
    {
      EventCells(id, time, amt);
    }
  }

  /** The two later-keyed events are already in order. */
  lemma ScenarioSortTail(q: int, r: int)
    ensures SortByKey([Event(1, 2, q), Event(2, 1, r)], "id") == [Event(1, 2, q), Event(2, 1, r)]
  {
    var b, c := Event(1, 2, q), Event(2, 1, r);
    EventCells(1, 2, q);
    EventCells(2, 1, r);
    assert SortByKey([c], "id") == [c];
    assert [b, c][1..] == [c];
    assert KeyLe(b, c, "id");
  }

  /** The time-5 event of entity 1 goes after its time-2 event. */
  lemma ScenarioInsert(p: int, q: int, r: int)
    ensures Insert(Event(1, 5, p), [Event(1, 2, q), Event(2, 1, r)], "id")
      == [Event(1, 2, q), Event(1, 5, p), Event(2, 1, r)]
  {
    var a, b, c := Event(1, 5, p), Event(1, 2, q), Event(2, 1, r);
    EventCells(1, 5, p);
    EventCells(1, 2, q);
    EventCells(2, 1, r);
    assert !KeyLe(a, b, "id") && KeyLe(a, c, "id");
    assert [b, c][1..] == [c];
    assert Insert(a, [c], "id") == [a, c];
  }

  /** The sort puts entity 1's time-2 event before its time-5 event. */
  lemma ScenarioSort(p: int, q: int, r: int)
    ensures SortByKey(ScenarioRows(p, q, r), "id") == [Event(1, 2, q), Event(1, 5, p), Event(2, 1, r)]
  {
    var rows := ScenarioRows(p, q, r);
    assert rows[1..] == [Event(1, 2, q), Event(2, 1, r)];
    ScenarioSortTail(q, r);
    ScenarioInsert(p, q, r);
  }

  lemma UniqueScenario()
    ensures Unique([1, 1, 2]) == [1, 2]
  {
    assert [1, 1, 2][..2] == [1, 1];
    assert [1, 1][..1] == [1];
    assert [1][..0] == [];
    assert Unique([1]) == [1];
    assert Unique([1, 1]) == [1];
  }

  /** Two entities, 1 and 2, in ascending order. */
  lemma ScenarioUsers(p: int, q: int, r: int)
    ensures Users([Event(1, 2, q), Event(1, 5, p), Event(2, 1, r)], "id") == [1, 2]
  {
    EventCells(1, 5, p);
    EventCells(1, 2, q);
    EventCells(2, 1, r);
    assert Ids([Event(1, 2, q), Event(1, 5, p), Event(2, 1, r)], "id") == [1, 1, 2];
    UniqueScenario();
  }

  /** Entity 1's group has two rows in time order, entity 2's one row. */
  lemma ScenarioGroups(p: int, q: int, r: int)
    ensures var sorted := [Event(1, 2, q), Event(1, 5, p), Event(2, 1, r)];
      && RowsWithId(sorted, "id", 1) == [Event(1, 2, q), Event(1, 5, p)]
      && RowsWithId(sorted, "id", 2) == [Event(2, 1, r)]
  {
    var b, a, c := Event(1, 2, q), Event(1, 5, p), Event(2, 1, r);
    EventCells(1, 5, p);
    EventCells(1, 2, q);
    EventCells(2, 1, r);
    var sorted := [b, a, c];
    assert sorted[1..] == [a, c];
    assert [a, c][1..] == [c];
    assert [c][1..] == [];
    assert RowsWithId([c], "id", 1) == [];
    assert RowsWithId([c], "id", 2) == [c];
    assert RowsWithId([a, c], "id", 1) == [a];
    assert RowsWithId([a, c], "id", 2) == [c];
  }

  /** Entity 1's columns: times [2, 5] and amounts [q, p]. */
  lemma ScenarioFirstColumns(p: int, q: int)
    ensures ColumnsFit([Event(1, 2, q), Event(1, 5, p)], AmountSchema)
    ensures Decide(EventTime, Numeric, {}, [Event(1, 2, q), Event(1, 5, p)]) == Numbers([2, 5])
    ensures Decide("amt", Numeric, {}, [Event(1, 2, q), Event(1, 5, p)]) == Numbers([q, p])
  {
    EventCells(1, 2, q);
    EventCells(1, 5, p);
    ScenarioWellFormed(p, q, 0);
  }

  /** Entity 1's record: its amounts in time order. */
  lemma ScenarioFirstRecord(p: int, q: int)
    ensures ColumnsFit([Event(1, 2, q), Event(1, 5, p)], AmountSchema)
    ensures Collapse(1, [Event(1, 2, q), Event(1, 5, p)], AmountSchema, "id", {})
      == map["id" := Scalar(Num(1)), EventTime := Numbers([2, 5]), "amt" := Numbers([q, p])]
  {
    ScenarioFirstColumns(p, q);
  }

  /** Entity 2's columns: time [1] and amount [r]. */
  lemma ScenarioSecondColumns(r: int)
    ensures ColumnsFit([Event(2, 1, r)], AmountSchema)
    ensures Decide(EventTime, Numeric, {}, [Event(2, 1, r)]) == Numbers([1])
    ensures Decide("amt", Numeric, {}, [Event(2, 1, r)]) == Numbers([r])
  {
    EventCells(2, 1, r);
    ScenarioWellFormed(0, 0, r);
  }

  /** Entity 2's record: a one-step sequence per column. */
  lemma ScenarioSecondRecord(r: int)
    ensures ColumnsFit([Event(2, 1, r)], AmountSchema)
    ensures Collapse(2, [Event(2, 1, r)], AmountSchema, "id", {})
      == map["id" := Scalar(Num(2)), EventTime := Numbers([1]), "amt" := Numbers([r])]
  {
    ScenarioSecondColumns(r);
  }

  /** The scenario's sort and grouping, as the records' sources. */
  lemma ScenarioPipeline(p: int, q: int, r: int)
    ensures WellFormed(EventTable(AmountSchema, ScenarioRows(p, q, r)), "id")
    ensures var sorted := SortByKey(ScenarioRows(p, q, r), "id");
      && Users(sorted, "id") == [1, 2]
      && RowsWithId(sorted, "id", 1) == [Event(1, 2, q), Event(1, 5, p)]
      && RowsWithId(sorted, "id", 2) == [Event(2, 1, r)]
  {
    ScenarioWellFormed(p, q, r);
    ScenarioSort(p, q, r);
    ScenarioUsers(p, q, r);
    ScenarioGroups(p, q, r);
  }

  /** Record 0 is entity 1's. */
  lemma ScenarioRecordZero(p: int, q: int, r: int)
    ensures WellFormed(EventTable(AmountSchema, ScenarioRows(p, q, r)), "id")
    ensures var recs := Assemble(EventTable(AmountSchema, ScenarioRows(p, q, r)), "id", {});
      && |recs| == 2
      && recs[0] == map["id" := Scalar(Num(1)), EventTime := Numbers([2, 5]), "amt" := Numbers([q, p])]
  {
    ScenarioPipeline(p, q, r);
    ScenarioFirstRecord(p, q);
    RecordAt(EventTable(AmountSchema, ScenarioRows(p, q, r)), "id", {}, 0);
  }

  /** Record 1 is entity 2's. */
  lemma ScenarioRecordOne(p: int, q: int, r: int)
    ensures WellFormed(EventTable(AmountSchema, ScenarioRows(p, q, r)), "id")
    ensures var recs := Assemble(EventTable(AmountSchema, ScenarioRows(p, q, r)), "id", {});
      && |recs| == 2
      && recs[1] == map["id" := Scalar(Num(2)), EventTime := Numbers([1]), "amt" := Numbers([r])]
  {
    ScenarioPipeline(p, q, r);
    ScenarioSecondRecord(r);
    RecordAt(EventTable(AmountSchema, ScenarioRows(p, q, r)), "id", {}, 1);
  }

  lemma ScenarioAssemble(p: int, q: int, r: int)
    ensures WellFormed(EventTable(AmountSchema, ScenarioRows(p, q, r)), "id")
    ensures Assemble(EventTable(AmountSchema, ScenarioRows(p, q, r)), "id", {}) == [
           map["id" := Scalar(Num(1)), EventTime := Numbers([2, 5]), "amt" := Numbers([q, p])],
           map["id" := Scalar(Num(2)), EventTime := Numbers([1]), "amt" := Numbers([r])]]
  {
    ScenarioRecordZero(p, q, r);
    ScenarioRecordOne(p, q, r);
    PairDisplay(Assemble(EventTable(AmountSchema, ScenarioRows(p, q, r)), "id", {}));
  }

  lemma PairDisplay<T>(s: seq<T>)
    requires |s| == 2
    ensures s == [s[0], s[1]]
  {
  }

  /** Three events of two entities: entity 1's amounts come out ordered by
      time (`q` at time 2, then `p` at time 5), entity 2 has one step, and
      there are two records in all. */
  lemma AmountsOrderedByTime(p: int, q: int, r: int)
    ensures WellFormed(EventTable(AmountSchema, ScenarioRows(p, q, r)), "id")
    ensures Transform(EventTable(AmountSchema, ScenarioRows(p, q, r)), "id", {}, true)
      == Success(RecordList([
           map["id" := Scalar(Num(1)), EventTime := Numbers([2, 5]), "amt" := Numbers([q, p])],
           map["id" := Scalar(Num(2)), EventTime := Numbers([1]), "amt" := Numbers([r])]]))
  {
    ScenarioAssemble(p, q, r);
    RecordsMatchFrame(EventTable(AmountSchema, ScenarioRows(p, q, r)), "id", {});
  }

  /** Entity 1's record with `amt` as a first-item column. */
  lemma ScenarioFirstItemRecord(p: int, q: int)
    ensures ColumnsFit([Event(1, 2, q), Event(1, 5, p)], AmountSchema)
    ensures var rec := Collapse(1, [Event(1, 2, q), Event(1, 5, p)], AmountSchema, "id", {"amt"});
      "amt" in rec && rec["amt"] == Scalar(Num(q))
  {
    ScenarioFirstColumns(p, q);
    EventCells(1, 2, q);
  }

  /** The same events with `amt` as a first-item column: entity 1's amount
      is the single value `q` of its earliest (time-2) event. */
  lemma FirstItemScenario(p: int, q: int, r: int)
    ensures WellFormed(EventTable(AmountSchema, ScenarioRows(p, q, r)), "id")
    ensures var recs := Assemble(EventTable(AmountSchema, ScenarioRows(p, q, r)), "id", {"amt"});
      && |recs| == 2
      && recs[0]["amt"] == Scalar(Num(q))
  {
    ScenarioPipeline(p, q, r);
    ScenarioFirstItemRecord(p, q);
    RecordAt(EventTable(AmountSchema, ScenarioRows(p, q, r)), "id", {"amt"}, 0);
  }

  /** An id column named `et_index` is overwritten with the event times
      and doubles the index level of that name: the transform fails
      instead of grouping by the overwritten ids. */
  lemma EtIndexAsIdRejected(asRecords: bool)
    ensures var t := EventTable(map[EtIndex := Numeric, EventTime := Numeric],
                                [map[EtIndex := Num(7), EventTime := Num(1)]]);
      && WellFormed(t, EtIndex)
      && Transform(t, EtIndex, {}, asRecords) == Failure(DuplicateIndexLevel(EtIndex))
  {
  }
}
