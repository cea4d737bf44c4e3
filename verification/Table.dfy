/** Values, columns and chunks: the batch data model every other component carries. */
module Table {
  type byte = x: int | 0 <= x < 256
  type Bytes = seq<byte>

  /** A value, or its absence: a missing entry, or the exception the original throws. */
  datatype Option<+T> = None | Some(value: T) {
    predicate IsFailure() { None? }
    function PropagateFailure<U>(): Option<U> requires None? { None }
    function Extract(): T requires Some? { value }
  }

  function Ascii(s: string): Bytes {
    seq(|s|, i requires 0 <= i < |s| => (s[i] as int) % 256)
  }

  predicate HasPrefix(key: Bytes, prefix: Bytes) {
    |prefix| <= |key| && key[..|prefix|] == prefix
  }

  /** Byte strings compare as memcmp and std::string do. */
  predicate LexLess(a: Bytes, b: Bytes) {
    if b == [] then false
    else if a == [] then true
    else a[0] < b[0] || (a[0] == b[0] && LexLess(a[1..], b[1..]))
  }

  const TWO_32: int := 0x1_0000_0000
  const TWO_64: int := 0x1_0000_0000_0000_0000

  datatype Type = Invalid | Int32 | Int64 | Float | Double | Bool | String | Blob

  /** One cell. Floating-point cells are kept as their bit patterns. */
  datatype Value =
    | VInt32(int32: int)
    | VInt64(int64: int)
    | VFloat(floatBits: int)
    | VDouble(doubleBits: int)
    | VBool(flag: bool)
    | VBytes(bytes: Bytes)

  datatype Field = Field(name: Bytes, ty: Type)
  type Schema = seq<Field>

  datatype Column = Column(ty: Type, cells: seq<Value>)
  datatype Chunk = Chunk(columnIds: seq<int>, columns: seq<Column>, rowCount: nat)
  type Row = seq<Value>

  /** `v` can be held by a column of type `t`. */
  predicate HasType(v: Value, t: Type) {
    match t
    case Invalid => false
    case Int32 => v.VInt32? && -0x8000_0000 <= v.int32 < 0x8000_0000
    case Int64 => v.VInt64? && -0x8000_0000_0000_0000 <= v.int64 < 0x8000_0000_0000_0000
    case Float => v.VFloat? && 0 <= v.floatBits < TWO_32
    case Double => v.VDouble? && 0 <= v.doubleBits < TWO_64
    case Bool => v.VBool?
    case String => v.VBytes?
    case Blob => v.VBytes?
  }

  /** Every cell of a column carries the column's type (the C++ Column stores nothing else). */
  predicate ColumnOk(c: Column) {
    forall i :: 0 <= i < |c.cells| ==> HasType(c.cells[i], c.ty)
  }

  predicate Typed(c: Chunk) {
    forall k :: 0 <= k < |c.columns| ==> ColumnOk(c.columns[k])
  }

  predicate IsFullSchemaChunk(c: Chunk, schema: Schema) {
    && c.rowCount != 0
    && |c.columns| == |schema|
    && |c.columnIds| == |schema|
    && (forall k :: 0 <= k < |schema| ==> c.columnIds[k] == k)
    && (forall k :: 0 <= k < |schema| ==> c.columns[k].ty == schema[k].ty && |c.columns[k].cells| == c.rowCount)
  }

  /** Chunks of the table's columns; that cells carry their column's type is so of every chunk of the original. */
  predicate AllFull(chunks: seq<Chunk>, schema: Schema) {
    forall i :: 0 <= i < |chunks| ==> IsFullSchemaChunk(chunks[i], schema) && Typed(chunks[i])
  }

  predicate RowTyped(schema: Schema, row: Row) {
    |row| == |schema| && forall i :: 0 <= i < |row| ==> HasType(row[i], schema[i].ty)
  }

  /** Row `r` of a column-major chunk. A column too short for `r` contributes nothing. */
  function RowAt(columns: seq<Column>, r: nat): Row {
    if columns == [] then []
    else RowAt(columns[..|columns| - 1], r) +
         (var last := columns[|columns| - 1]; if r < |last.cells| then [last.cells[r]] else [])
  }

  function Rows(c: Chunk): (rows: seq<Row>)
    ensures |rows| == c.rowCount
  {
    seq(c.rowCount, r requires 0 <= r => RowAt(c.columns, r))
  }

  function ConcatRows(chunks: seq<Chunk>): seq<Row> {
    if chunks == [] then []
    else ConcatRows(chunks[..|chunks| - 1]) + Rows(chunks[|chunks| - 1])
  }

  lemma {:induction false} RowAtCells(columns: seq<Column>, r: nat)
    requires forall k :: 0 <= k < |columns| ==> r < |columns[k].cells|
    ensures |RowAt(columns, r)| == |columns|
    ensures forall k :: 0 <= k < |columns| ==> RowAt(columns, r)[k] == columns[k].cells[r]
  {
    if columns != [] {
      RowAtCells(columns[..|columns| - 1], r);
    }
  }

  lemma {:induction false} ConcatRowsAppend(a: seq<Chunk>, b: seq<Chunk>)
    ensures ConcatRows(a + b) == ConcatRows(a) + ConcatRows(b)
    decreases |b|
  {
    hide Rows;
    if b == [] {
      assert a + b == a;
    } else {
      var init := b[..|b| - 1];
      assert (a + b)[..|a + b| - 1] == a + init;
      ConcatRowsAppend(a, init);
    }
  }

  function CellAt(row: Row, k: nat): Value {
    if k < |row| then row[k] else VBool(false)
  }

  /** Rows as columns of the schema's types. */
  function ColumnsOf(schema: Schema, rows: seq<Row>): seq<Column> {
    seq(|schema|, k requires 0 <= k < |schema| =>
      Column(schema[k].ty, seq(|rows|, r requires 0 <= r < |rows| => CellAt(rows[r], k))))
  }

  /** Taking a full chunk apart into rows loses nothing. */
  lemma ColumnsBack(schema: Schema, c: Chunk)
    requires IsFullSchemaChunk(c, schema)
    ensures ColumnsOf(schema, Rows(c)) == c.columns
  {
    forall r | 0 <= r < c.rowCount
      ensures |Rows(c)[r]| == |c.columns|
      ensures forall k :: 0 <= k < |c.columns| ==> Rows(c)[r][k] == c.columns[k].cells[r]
    {
      RowAtCells(c.columns, r);
    }
    hide RowAt;
    forall k | 0 <= k < |schema|
      ensures ColumnsOf(schema, Rows(c))[k] == c.columns[k]
    {
      assert ColumnsOf(schema, Rows(c))[k].cells == c.columns[k].cells;
    }
  }
}
