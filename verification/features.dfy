/** Collapsing one entity's time-ordered rows into its record: the
    per-column container dispatch and the record assembly. */
module Features {
  import opened Values
  import opened Events

  /** Column `k` of the rows `g`, one cell per row, in row order. */
  function Column(g: seq<Row>, k: string): (cells: seq<Cell>)
    requires forall i :: 0 <= i < |g| ==> k in g[i]
    ensures |cells| == |g|
  {
    seq(|g|, i requires 0 <= i < |g| => g[i][k])
  }

  /** The field column `k` of kind `kind` becomes for an entity whose rows,
      in time order, are `g`. The branches are tried in a fixed order: a
      first-item column keeps the cell of row 0 whatever its kind; a tensor
      column is stacked into a `|g| x width` matrix; a categorical column
      becomes its integers and an object column its values; anything else
      is a numeric sequence. Every sequence container holds exactly the
      column's cells, row for row. */
  function Decide(k: string, kind: Kind, firstItems: set<string>, g: seq<Row>): (f: Field)
    requires |g| > 0
    requires forall i :: 0 <= i < |g| ==> k in g[i] && Fits(g[i][k], kind)
    ensures k in firstItems ==> f == Scalar(g[0][k])
    ensures k !in firstItems ==> !f.Scalar? && Shaped(f, kind) && Steps(f) == Column(g, k)
  {
    if k in firstItems then Scalar(g[0][k])
    else if kind.Tensor? then
      assert forall i :: 0 <= i < |g| ==> Fits(g[i][k], kind) ==> g[i][k].Vec?;
      Matrix(seq(|g|, i requires 0 <= i < |g| => g[i][k].vec))
    else if kind.Categorical? || kind.Object? then
      if kind.Categorical? then
        assert forall i :: 0 <= i < |g| ==> Fits(g[i][k], kind) ==> g[i][k].Code?;
        Codes(seq(|g|, i requires 0 <= i < |g| => g[i][k].code))
      else
        assert forall i :: 0 <= i < |g| ==> Fits(g[i][k], kind) ==> g[i][k].Obj?;
        Objects(seq(|g|, i requires 0 <= i < |g| => g[i][k].obj))
    else
      assert forall i :: 0 <= i < |g| ==> Fits(g[i][k], kind) ==> g[i][k].Num?;
      Numbers(seq(|g|, i requires 0 <= i < |g| => g[i][k].n))
  }

  /** Every row of `g` has every column of the schema, with a cell of the
      column's kind. */
  predicate ColumnsFit(g: seq<Row>, schema: Schema) {
    forall i, k :: 0 <= i < |g| && k in schema ==> k in g[i] && Fits(g[i][k], schema[k])
  }

  /** The columns of a record: every column of the schema except
      `et_index`, which ends in the index, plus the id. */
  function RecordKeys(schema: Schema, idCol: string): set<string> {
    (schema.Keys - {EtIndex}) + {idCol}
  }

  /** The record `rec` of entity `u` is built from the rows `g`: it has a
      field for every column but `et_index`, and the id; the id field holds `u`, each
      first-item field holds the cell of row 0, and every other field holds
      its column's cells in the order of `g`, all fields indexed by the same
      rows. */
  predicate BuiltFrom(rec: Record, u: int, g: seq<Row>, schema: Schema, idCol: string, firstItems: set<string>)
    requires |g| > 0
    requires ColumnsFit(g, schema)
  {
    && rec.Keys == RecordKeys(schema, idCol)
    && rec[idCol] == Scalar(Num(u))
    && forall k :: k in schema && k != idCol && k != EtIndex ==>
         if k in firstItems then rec[k] == Scalar(g[0][k])
         else !rec[k].Scalar? && Shaped(rec[k], schema[k]) && Steps(rec[k]) == Column(g, k)
  }

  /** The record of entity `u` from its time-ordered rows `g`: one field per
      column other than the two index columns, the id and `et_index`, then
      the id field set to `u`. */
  function Collapse(u: int, g: seq<Row>, schema: Schema, idCol: string, firstItems: set<string>): (rec: Record)
    requires |g| > 0
    requires ColumnsFit(g, schema)
    ensures BuiltFrom(rec, u, g, schema, idCol, firstItems)
  {
    (map k | k in schema && k != idCol && k != EtIndex :: Decide(k, schema[k], firstItems, g))[idCol := Scalar(Num(u))]
  }

  /** A sequence field of a record built from `g` has one step per row of
      `g`, and step i is row i's cell of that column. */
  lemma SequenceFieldSteps(rec: Record, u: int, g: seq<Row>, schema: Schema, idCol: string, firstItems: set<string>, k: string)
    requires |g| > 0 && ColumnsFit(g, schema)
    requires BuiltFrom(rec, u, g, schema, idCol, firstItems)
    requires k in schema && k != idCol && k != EtIndex && k !in firstItems
    ensures k in rec && !rec[k].Scalar? && Shaped(rec[k], schema[k])
    ensures Length(rec[k]) == |g|
    ensures forall i :: 0 <= i < |g| ==> k in g[i] && Steps(rec[k])[i] == g[i][k]
  {
    assert Steps(rec[k]) == Column(g, k);
  }
}
