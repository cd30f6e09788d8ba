/** The two shapes of the result: a columnar frame built from the list of
    entity records, and the list of per-entity mappings read back from it. */
module Frames {
  import opened Values

  /** A columnar table: `height` rows, and per column one field per row. */
  datatype Frame = Frame(height: nat, columns: map<string, seq<Field>>)

  predicate Rectangular(f: Frame) {
    forall k :: k in f.columns ==> |f.columns[k]| == f.height
  }

  /** All records carry the same fields. */
  predicate SameKeys(recs: seq<Record>) {
    forall j :: 0 <= j < |recs| ==> recs[j].Keys == recs[0].Keys
  }

  /** The frame whose rows are the records: its columns are the records'
      fields, and its cell in column `k`, row `j` is field `k` of record `j`.
      No records give a frame with no rows and no columns. */
  function FromRecords(recs: seq<Record>): (f: Frame)
    requires SameKeys(recs)
    ensures Rectangular(f)
    ensures f.height == |recs|
    ensures f.columns.Keys == if recs == [] then {} else recs[0].Keys
    ensures forall j, k :: 0 <= j < |recs| && k in recs[j] ==> k in f.columns && f.columns[k][j] == recs[j][k]
  {
    var keys := if recs == [] then {} else recs[0].Keys;
    Frame(|recs|, map k | k in keys :: seq(|recs|, j requires 0 <= j < |recs| => recs[j][k]))
  }

  /** The frame read row by row, one mapping from column to field per row. */
  function ToRecords(f: Frame): (recs: seq<Record>)
    requires Rectangular(f)
    ensures |recs| == f.height
    ensures forall j :: 0 <= j < |recs| ==> recs[j].Keys == f.columns.Keys
    ensures forall j, k :: 0 <= j < |recs| && k in f.columns ==> recs[j][k] == f.columns[k][j]
  {
    seq(f.height, j requires 0 <= j < f.height => map k | k in f.columns :: f.columns[k][j])
  }

  /** Reading the frame back as records gives the records it was built
      from, in the same order with the same fields: the records form is a
      change of representation only. */
  lemma RecordsRoundTrip(recs: seq<Record>)
    requires SameKeys(recs)
    ensures ToRecords(FromRecords(recs)) == recs
  {
    var back := ToRecords(FromRecords(recs));
    forall j | 0 <= j < |recs|
      ensures back[j] == recs[j]
    {
      assert back[j].Keys == recs[j].Keys;
    }
  }

  /** Conversely, a frame with at least one row is rebuilt exactly from its
      records. */
  lemma FrameRoundTrip(f: Frame)
    requires Rectangular(f)
    requires f.height > 0
    ensures SameKeys(ToRecords(f))
    ensures FromRecords(ToRecords(f)) == f
  {
    var recs := ToRecords(f);
    var g := FromRecords(recs);
    assert g.columns.Keys == f.columns.Keys;
    forall k | k in f.columns
      ensures g.columns[k] == f.columns[k]
    {
    }
  }
}
