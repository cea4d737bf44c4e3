/** The row codec: one row of typed cells, packed without a length of its own. */
module RowCodec {
  import opened Table
  import opened ByteFormat

  // ------------------------------------------------------------- cells

  /** Two's complement in `size` values, and back. */
  function Wrap(x: int, size: nat): nat
    requires size > 0
  {
    x % size
  }

  function Signed(n: nat, size: nat): int {
    if n < size / 2 then n else n - size
  }

  function CellBytes(v: Value, t: Type): Bytes
    requires HasType(v, t)
  {
    match t
    case Int32 => U32(Wrap(v.int32, TWO_32))
    case Int64 => U64(Wrap(v.int64, TWO_64))
    case Float => U32(v.floatBits)
    case Double => U64(v.doubleBits)
    case Bool => [if v.flag then 1 else 0]
    case String => Str(v.bytes)
    case Blob => Str(v.bytes)
  }

  function ParseCell(b: Bytes, p: nat, t: Type): Parsed<Value> {
    match t
    case Invalid => Fail
    case Int32 =>
      var (n, q) :- ParseU32(b, p);
      Got(VInt32(Signed(n, TWO_32)), q)
    case Int64 =>
      var (n, q) :- ParseU64(b, p);
      Got(VInt64(Signed(n, TWO_64)), q)
    case Float =>
      var (n, q) :- ParseU32(b, p);
      Got(VFloat(n), q)
    case Double =>
      var (n, q) :- ParseU64(b, p);
      Got(VDouble(n), q)
    case Bool =>
      var (n, q) :- ParseU8(b, p);
      Got(VBool(n != 0), q)
    case String =>
      var (s, q) :- ParseStr(b, p);
      Got(VBytes(s), q)
    case Blob =>
      var (s, q) :- ParseStr(b, p);
      Got(VBytes(s), q)
  }

  lemma CellBack(b: Bytes, p: nat, v: Value, t: Type)
    requires HasType(v, t) && |CellBytes(v, t)| <= MAX_U32 + 4 && At(b, p, CellBytes(v, t))
    ensures ParseCell(b, p, t) == Got(v, p + |CellBytes(v, t)|)
  {
    hide U32, U64, Str, ParseU32, ParseU64, ParseStr, At;
    match t {
      case Int32 => ReadU32(b, p, Wrap(v.int32, TWO_32));
      case Int64 => ReadU64(b, p, Wrap(v.int64, TWO_64));
      case Float => ReadU32(b, p, v.floatBits);
      case Double => ReadU64(b, p, v.doubleBits);
      case Bool => ReadU8(b, p, if v.flag then 1 else 0);
      case String => ReadStr(b, p, v.bytes);
      case Blob => ReadStr(b, p, v.bytes);
    }
  }

  lemma CellTyped(b: Bytes, p: nat, t: Type)
    ensures ParseCell(b, p, t).Got? ==> HasType(ParseCell(b, p, t).value, t)
  {
    hide ParseU32, ParseU64, ParseStr;
  }

  // -------------------------------------------------------------- rows

  function RowBytes(schema: Schema, row: Row): Bytes
    requires RowTyped(schema, row)
  {
    if row == [] then []
    else
      var n := |row| - 1;
      RowBytes(schema[..n], row[..n]) + CellBytes(row[n], schema[n].ty)
  }

  function ParseRow(schema: Schema, b: Bytes, p: nat): Parsed<Row> {
    if schema == [] then Got([], p)
    else
      var n := |schema| - 1;
      var (init, q) :- ParseRow(schema[..n], b, p);
      var (v, r) :- ParseCell(b, q, schema[n].ty);
      Got(init + [v], r)
  }

  /** A packed row is read back whole. */
  lemma {:induction false} RowBack(schema: Schema, b: Bytes, p: nat, row: Row)
    requires RowTyped(schema, row) && |RowBytes(schema, row)| <= MAX_U32 && At(b, p, RowBytes(schema, row))
    ensures ParseRow(schema, b, p) == Got(row, p + |RowBytes(schema, row)|)
  {
    hide At, CellBytes, ParseCell, HasType, RowTyped, RowBytes, ParseRow;
    RowSnoc(schema, row, b, p);
    if row != [] {
      var n := |row| - 1;
      var init := RowBytes(schema[..n], row[..n]);
      AtSplit(b, p, init, CellBytes(row[n], schema[n].ty));
      RowBack(schema[..n], b, p, row[..n]);
      CellBack(b, p + |init|, row[n], schema[n].ty);
    }
  }

  /** A row is its first cells and the last one, packed and read. */
  lemma RowSnoc(schema: Schema, row: Row, b: Bytes, p: nat)
    requires RowTyped(schema, row)
    ensures |schema| == |row| && (row == [] ==> RowBytes(schema, row) == [] && ParseRow(schema, b, p) == Got([], p))
    ensures row != [] ==>
      var n := |row| - 1;
      && RowTyped(schema[..n], row[..n]) && HasType(row[n], schema[n].ty)
      && RowBytes(schema, row) == RowBytes(schema[..n], row[..n]) + CellBytes(row[n], schema[n].ty)
      && var init := ParseRow(schema[..n], b, p);
         init.Got? && init.value == row[..n] ==>
           var last := ParseCell(b, init.next, schema[n].ty);
           last.Got? && last.value == row[n] ==> ParseRow(schema, b, p) == Got(row, last.next)
  {
    hide CellBytes, ParseCell, HasType;
    if row != [] {
      assert row == row[..|row| - 1] + [row[|row| - 1]];
    }
  }

  lemma {:induction false} ParsedRowTyped(schema: Schema, b: Bytes, p: nat)
    ensures ParseRow(schema, b, p).Got? ==> RowTyped(schema, ParseRow(schema, b, p).value)
  {
    if schema != [] {
      var n := |schema| - 1;
      hide ParseCell, HasType;
      ParsedRowTyped(schema[..n], b, p);
      var init := ParseRow(schema[..n], b, p);
      if init.Got? {
        CellTyped(b, init.next, schema[n].ty);
        assert forall i :: 0 <= i < n ==> schema[..n][i] == schema[i];
      }
    }
  }

  /**
   * The decoder ignores what follows the last cell and takes any non-zero byte for true. The parsed row is
   * packed into the very bytes it was read from exactly when every flag byte read is 0 or 1.
   */
  predicate FlagsCanonical(schema: Schema, b: Bytes, p: nat) {
    if schema == [] then true
    else
      var n := |schema| - 1;
      var init := ParseRow(schema[..n], b, p);
      && FlagsCanonical(schema[..n], b, p)
      && (init.Got? && init.next < |b| && schema[n].ty == Bool ==> b[init.next] <= 1)
  }

  lemma CellRead(b: Bytes, p: nat, t: Type)
    requires ParseCell(b, p, t).Got?
    ensures var v := ParseCell(b, p, t).value;
      && HasType(v, t) && ParseCell(b, p, t).next == p + |CellBytes(v, t)| && p < |b|
      && (At(b, p, CellBytes(v, t)) <==> (t == Bool ==> b[p] <= 1))
  {
    hide U32, U64, Str, ParseStr, At, ParseU32, ParseU64;
    CellTyped(b, p, t);
    var v := ParseCell(b, p, t).value;
    ParseU32Next(b, p);
    ParseU64Next(b, p);
    match t {
      case Int32 => ReadU32(b, p, Wrap(v.int32, TWO_32));
      case Int64 => ReadU64(b, p, Wrap(v.int64, TWO_64));
      case Float => ReadU32(b, p, v.floatBits);
      case Double => ReadU64(b, p, v.doubleBits);
      case Bool => ReadU8(b, p, if v.flag then 1 else 0);
      case String => StrInside(b, p);
      case Blob => StrInside(b, p);
    }
  }

  lemma StrInside(b: Bytes, p: nat)
    requires ParseStr(b, p).Got?
    ensures p < |b| && At(b, p, Str(ParseStr(b, p).value)) && ParseStr(b, p).next == p + |Str(ParseStr(b, p).value)|
  {
    hide Str, ParseStr;
    StrRead(b, p);
  }

  lemma {:induction false} RowReencodes(schema: Schema, b: Bytes, p: nat)
    requires ParseRow(schema, b, p).Got? && p <= |b|
    ensures var row := ParseRow(schema, b, p).value;
      && RowTyped(schema, row) && ParseRow(schema, b, p).next == p + |RowBytes(schema, row)|
      && (At(b, p, RowBytes(schema, row)) <==> FlagsCanonical(schema, b, p))
  {
    ParsedRowTyped(schema, b, p);
    if schema != [] {
      var n := |schema| - 1;
      hide At, CellBytes, ParseCell, HasType;
      RowReencodes(schema[..n], b, p);
      var row := ParseRow(schema, b, p).value;
      var q := ParseRow(schema[..n], b, p).next;
      assert row[..n] == ParseRow(schema[..n], b, p).value;
      CellRead(b, q, schema[n].ty);
      AtSplit(b, p, RowBytes(schema[..n], row[..n]), CellBytes(row[n], schema[n].ty));
    } else {
      assert b[p..p] == [];
    }
  }
}
