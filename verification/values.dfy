/** Cells of the encoded event table and the containers an entity's record
    holds, one per column. */
module Values {

  /** One cell of the encoded event table. Numbers, category labels and
      object values are opaque integers; a pre-vectorised feature is a
      vector of integers. */
  datatype Cell =
    | Num(n: int)
    | Code(code: int)
    | Obj(obj: int)
    | Vec(vec: seq<int>)

  /** The value kind of a column, fixed once by configuration. It stands in
      for the inspection of a column's values and dtype at transform time;
      a tensor column records the common length of its per-row vectors. */
  datatype Kind = Numeric | Categorical | Object | Tensor(width: nat)

  /** A cell belongs to a column of the given kind. */
  predicate Fits(c: Cell, kind: Kind) {
    match kind
    case Numeric => c.Num?
    case Categorical => c.Code?
    case Object => c.Obj?
    case Tensor(d) => c.Vec? && |c.vec| == d
  }

  /** What one column becomes in an entity's record. */
  datatype Field =
    | Scalar(cell: Cell)           // a first-item column, and the entity id
    | Matrix(rows: seq<seq<int>>)  // a tensor column, stacked row by row
    | Codes(codes: seq<int>)       // a categorical column as integers
    | Objects(items: seq<int>)     // an object column, passed through
    | Numbers(values: seq<int>)    // a plain numeric column

  /** One entity's record: column name to field. */
  type Record = map<string, Field>

  /** Reads a sequence field back as the cells it holds, one per step. */
  function Steps(f: Field): (cells: seq<Cell>)
    requires !f.Scalar?
    ensures |cells| == Length(f)
  {
    match f
    case Matrix(m) => seq(|m|, i requires 0 <= i < |m| => Vec(m[i]))
    case Codes(cs) => seq(|cs|, i requires 0 <= i < |cs| => Code(cs[i]))
    case Objects(os) => seq(|os|, i requires 0 <= i < |os| => Obj(os[i]))
    case Numbers(ns) => seq(|ns|, i requires 0 <= i < |ns| => Num(ns[i]))
  }

  /** The number of steps a sequence field holds (the leading dimension of
      a stacked matrix). */
  function Length(f: Field): nat
    requires !f.Scalar?
  {
    match f
    case Matrix(m) => |m|
    case Codes(cs) => |cs|
    case Objects(os) => |os|
    case Numbers(ns) => |ns|
  }

  /** The container chosen for a sequence column matches the column's kind;
      a tensor column becomes a matrix whose every row has the column's
      vector length. */
  predicate Shaped(f: Field, kind: Kind) {
    match kind
    case Tensor(d) => f.Matrix? && forall i :: 0 <= i < |f.rows| ==> |f.rows[i]| == d
    case Categorical => f.Codes?
    case Object => f.Objects?
    case Numeric => f.Numbers?
  }
}
