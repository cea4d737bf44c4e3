/** Little-endian integers, length-prefixed strings and lists: the primitives of every object format. */
module ByteFormat {
  import opened Table

  type u8 = byte
  type u32 = x: int | 0 <= x < 0x1_0000_0000
  type u64 = x: int | 0 <= x < 0x1_0000_0000_0000_0000

  const MAX_U32: int := 0xFFFF_FFFF

  /** The outcome of reading at a position: a value and the next position, or an exception. */
  datatype Parsed<+T> = Fail | Got(value: T, next: nat) {
    predicate IsFailure() { Fail? }
    function PropagateFailure<U>(): Parsed<U> requires Fail? { Fail }
    function Extract(): (T, nat) requires Got? { (value, next) }
    function Value(): Option<T> { if Got? then Some(value) else None }
  }

  // ------------------------------------------------------- integers

  function Pow256(n: nat): nat {
    if n == 0 then 1 else 256 * Pow256(n - 1)
  }

  /** `n` in `width` bytes, least significant first. */
  function Le(n: nat, width: nat): (b: Bytes)
    ensures |b| == width
  {
    if width == 0 then [] else [n % 256] + Le(n / 256, width - 1)
  }

  function FromLe(b: Bytes): nat {
    if b == [] then 0 else b[0] + 256 * FromLe(b[1..])
  }

  lemma {:induction false} FromLeOfLe(n: nat, width: nat)
    requires n < Pow256(width)
    ensures FromLe(Le(n, width)) == n
  {
    if width != 0 {
      FromLeOfLe(n / 256, width - 1);
      assert Le(n, width)[1..] == Le(n / 256, width - 1);
    }
  }

  lemma {:induction false} LeOfFromLe(b: Bytes)
    ensures FromLe(b) < Pow256(|b|) && Le(FromLe(b), |b|) == b
  {
    if b != [] {
      LeOfFromLe(b[1..]);
      assert FromLe(b) % 256 == b[0] && FromLe(b) / 256 == FromLe(b[1..]);
      assert b == [b[0]] + b[1..];
    }
  }

  lemma Pow256Values()
    ensures Pow256(1) == 0x100 && Pow256(4) == 0x1_0000_0000 && Pow256(8) == 0x1_0000_0000_0000_0000
  {
    assert Pow256(2) == 0x1_0000;
    assert Pow256(3) == 0x100_0000;
    assert Pow256(4) == 0x1_0000_0000;
    assert Pow256(5) == 0x100_0000_0000;
    assert Pow256(6) == 0x1_0000_0000_0000;
    assert Pow256(7) == 0x100_0000_0000_0000;
  }

  function U32(n: u32): (b: Bytes)
    ensures |b| == 4
  {
    Le(n, 4)
  }

  function U64(n: u64): (b: Bytes)
    ensures |b| == 8
  {
    Le(n, 8)
  }

  function ParseRaw(b: Bytes, p: nat, n: nat): Parsed<Bytes> {
    if p + n <= |b| then Got(b[p..p + n], p + n) else Fail
  }

  function ParseU8(b: Bytes, p: nat): Parsed<u8> {
    if p < |b| then Got(b[p], p + 1) else Fail
  }

  function ParseU32(b: Bytes, p: nat): Parsed<u32> {
    if p + 4 <= |b| then
      LeOfFromLe(b[p..p + 4]);
      Pow256Values();
      Got(FromLe(b[p..p + 4]), p + 4)
    else Fail
  }

  function ParseU64(b: Bytes, p: nat): Parsed<u64> {
    if p + 8 <= |b| then
      LeOfFromLe(b[p..p + 8]);
      Pow256Values();
      Got(FromLe(b[p..p + 8]), p + 8)
    else Fail
  }

  // -------------------------------------------------- strings and lists

  /** A length-prefixed string; the writer refuses one longer than 2^32 - 1 bytes. */
  predicate StrOk(s: Bytes) {
    |s| <= MAX_U32
  }

  function Str(s: Bytes): (b: Bytes)
    ensures |b| == 4 + |s|
  {
    U32(|s| % 0x1_0000_0000) + s
  }

  function ParseStr(b: Bytes, p: nat): Parsed<Bytes> {
    var (n, q) :- ParseU32(b, p);
    ParseRaw(b, q, n)
  }

  function EncList<T>(enc: T -> Bytes, xs: seq<T>): Bytes {
    if xs == [] then [] else EncList(enc, xs[..|xs| - 1]) + enc(xs[|xs| - 1])
  }

  function ParseList<T>(parse: (Bytes, nat) -> Parsed<T>, b: Bytes, p: nat, n: nat): Parsed<seq<T>> {
    if n == 0 then Got([], p)
    else
      var (xs, q) :- ParseList(parse, b, p, n - 1);
      var (x, r) :- parse(b, q);
      Got(xs + [x], r)
  }

  function Remaining(b: Bytes, p: nat): nat {
    if p <= |b| then |b| - p else 0
  }

  predicate StrsOk(xs: seq<Bytes>) {
    |xs| <= MAX_U32 && forall i :: 0 <= i < |xs| ==> StrOk(xs[i])
  }

  function Strs(xs: seq<Bytes>): Bytes
    requires StrsOk(xs)
  {
    U32(|xs|) + EncList(Str, xs)
  }

  function ParseStrs(b: Bytes, p: nat): Parsed<seq<Bytes>> {
    var (n, q) :- ParseU32(b, p);
    if n > Remaining(b, q) / 4 then Fail else ParseList(ParseStr, b, q, n)
  }

  // --------------------------------------------- reading back what was written

  /** `part` stands in `b` from position p on. */
  predicate At(b: Bytes, p: nat, part: Bytes) {
    p + |part| <= |b| && b[p..p + |part|] == part
  }

  lemma AtSplit(b: Bytes, p: nat, x: Bytes, y: Bytes)
    ensures At(b, p, x + y) <==> At(b, p, x) && At(b, p + |x|, y)
  {
    if At(b, p, x + y) {
      assert b[p..p + |x|] == (x + y)[..|x|];
      assert b[p + |x|..p + |x| + |y|] == (x + y)[|x|..];
    }
    if At(b, p, x) && At(b, p + |x|, y) {
      assert b[p..p + |x + y|] == b[p..p + |x|] + b[p + |x|..p + |x| + |y|];
    }
  }

  lemma ReadU32(b: Bytes, p: nat, n: u32)
    ensures At(b, p, U32(n)) <==> ParseU32(b, p) == Got(n, p + 4)
  {
    Pow256Values();
    FromLeOfLe(n, 4);
    if p + 4 <= |b| {
      LeOfFromLe(b[p..p + 4]);
    }
  }

  lemma ReadU64(b: Bytes, p: nat, n: u64)
    ensures At(b, p, U64(n)) <==> ParseU64(b, p) == Got(n, p + 8)
  {
    Pow256Values();
    FromLeOfLe(n, 8);
    if p + 8 <= |b| {
      LeOfFromLe(b[p..p + 8]);
    }
  }

  lemma ReadU8(b: Bytes, p: nat, n: u8)
    ensures At(b, p, [n]) <==> ParseU8(b, p) == Got(n, p + 1)
  {
  }

  lemma ReadRaw(b: Bytes, p: nat, s: Bytes)
    ensures At(b, p, s) <==> ParseRaw(b, p, |s|) == Got(s, p + |s|)
  {
  }

  lemma ParseU32Next(b: Bytes, p: nat)
    ensures ParseU32(b, p).Got? ==> ParseU32(b, p).next == p + 4 <= |b|
  {
  }

  lemma ParseU64Next(b: Bytes, p: nat)
    ensures ParseU64(b, p).Got? ==> ParseU64(b, p).next == p + 8 <= |b|
  {
  }

  /** `parse` reads back what `enc` writes. */
  ghost predicate ReadsBack<T(!new)>(enc: T -> Bytes, parse: (Bytes, nat) -> Parsed<T>, ok: T -> bool) {
    forall x: T, b: Bytes, p: nat {:trigger enc(x), parse(b, p)} ::
      ok(x) && At(b, p, enc(x)) ==> parse(b, p) == Got(x, p + |enc(x)|)
  }

  /** `parse` reads back what `enc` writes, and reads nothing else. */
  ghost predicate Inverse<T(!new)>(enc: T -> Bytes, parse: (Bytes, nat) -> Parsed<T>, ok: T -> bool) {
    && ReadsBack(enc, parse, ok)
    && (forall b: Bytes, p: nat {:trigger parse(b, p)} ::
          parse(b, p).Got? ==>
            && ok(parse(b, p).value) && At(b, p, enc(parse(b, p).value))
            && parse(b, p).next == p + |enc(parse(b, p).value)|)
  }

  lemma StrBack(b: Bytes, p: nat, s: Bytes)
    requires StrOk(s) && At(b, p, Str(s))
    ensures ParseStr(b, p) == Got(s, p + |Str(s)|)
  {
    hide U32, ParseU32;
    AtSplit(b, p, U32(|s|), s);
    ReadU32(b, p, |s|);
  }

  lemma StrRead(b: Bytes, p: nat)
    requires ParseStr(b, p).Got?
    ensures StrOk(ParseStr(b, p).value) && At(b, p, Str(ParseStr(b, p).value))
    ensures ParseStr(b, p).next == p + |Str(ParseStr(b, p).value)|
  {
    hide U32, ParseU32;
    var s := ParseStr(b, p).value;
    ParseU32Next(b, p);
    ReadU32(b, p, |s|);
    AtSplit(b, p, U32(|s|), s);
  }

  lemma ReadStr(b: Bytes, p: nat, s: Bytes)
    requires StrOk(s)
    ensures At(b, p, Str(s)) <==> ParseStr(b, p) == Got(s, p + |Str(s)|)
  {
    hide Str, ParseStr, At;
    if At(b, p, Str(s)) {
      StrBack(b, p, s);
    }
    if ParseStr(b, p).Got? {
      StrRead(b, p);
    }
  }

  lemma StrInverse()
    ensures Inverse(Str, ParseStr, StrOk) && ReadsBack(Str, ParseStr, StrOk)
  {
    hide Str, ParseStr, At, StrOk;
    forall x: Bytes, b: Bytes, p: nat | StrOk(x) && At(b, p, Str(x))
      ensures ParseStr(b, p) == Got(x, p + |Str(x)|)
    {
      StrBack(b, p, x);
    }
    forall b: Bytes, p: nat | ParseStr(b, p).Got?
      ensures StrOk(ParseStr(b, p).value) && At(b, p, Str(ParseStr(b, p).value))
      ensures ParseStr(b, p).next == p + |Str(ParseStr(b, p).value)|
    {
      StrRead(b, p);
    }
  }

  lemma {:induction false} ListBack<T(!new)>(enc: T -> Bytes, parse: (Bytes, nat) -> Parsed<T>, ok: T -> bool,
                                             b: Bytes, p: nat, xs: seq<T>)
    requires ReadsBack(enc, parse, ok) && (forall i :: 0 <= i < |xs| ==> ok(xs[i])) && At(b, p, EncList(enc, xs))
    ensures ParseList(parse, b, p, |xs|) == Got(xs, p + |EncList(enc, xs)|)
  {
    hide At;
    if xs != [] {
      var init, last := xs[..|xs| - 1], xs[|xs| - 1];
      AtSplit(b, p, EncList(enc, init), enc(last));
      ListBack(enc, parse, ok, b, p, init);
      assert parse(b, p + |EncList(enc, init)|) == Got(last, p + |EncList(enc, xs)|);
      assert xs == init + [last];
    }
  }

  lemma {:induction false} ListRead<T(!new)>(enc: T -> Bytes, parse: (Bytes, nat) -> Parsed<T>, ok: T -> bool,
                                             b: Bytes, p: nat, n: nat)
    requires Inverse(enc, parse, ok) && ParseList(parse, b, p, n).Got? && p <= |b|
    ensures var xs := ParseList(parse, b, p, n).value;
      && |xs| == n && (forall i :: 0 <= i < n ==> ok(xs[i]))
      && At(b, p, EncList(enc, xs)) && ParseList(parse, b, p, n).next == p + |EncList(enc, xs)|
  {
    if n != 0 {
      ListRead(enc, parse, ok, b, p, n - 1);
      var before := ParseList(parse, b, p, n - 1);
      var x := parse(b, before.next).value;
      var xs := ParseList(parse, b, p, n).value;
      hide At;
      assert xs[..|xs| - 1] == before.value && xs[|xs| - 1] == x;
      AtSplit(b, p, EncList(enc, before.value), enc(x));
    }
  }

  /** Once an item of a list fails to parse, so does every longer list. */
  lemma {:induction false} ListFails<T>(parse: (Bytes, nat) -> Parsed<T>, b: Bytes, p: nat, k: nat, n: nat)
    requires k <= n
    ensures ParseList(parse, b, p, k).Fail? ==> ParseList(parse, b, p, n).Fail?
  {
    if k < n {
      ListFails(parse, b, p, k, n - 1);
    }
  }

  /** Two lists of self-delimiting, non-empty items that concatenate alike are the same list. */
  lemma ListInjective<T(!new)>(enc: T -> Bytes, parse: (Bytes, nat) -> Parsed<T>, ok: T -> bool, xs: seq<T>, ys: seq<T>)
    requires ReadsBack(enc, parse, ok) && (forall i :: 0 <= i < |xs| ==> ok(xs[i]))
    requires forall i :: 0 <= i < |ys| ==> ok(ys[i]) && enc(ys[i]) != []
    requires |xs| <= |ys| && EncList(enc, xs) == EncList(enc, ys)
    ensures xs == ys
  {
    hide ReadsBack, ParseList, At;
    var b := EncList(enc, xs);
    var front := ys[..|xs|];
    ListGrows(enc, ys, |xs|);
    AtPrefix(b, b);
    AtPrefix(b, EncList(enc, front));
    ListBack(enc, parse, ok, b, 0, xs);
    ListBack(enc, parse, ok, b, 0, front);
  }

  lemma AtPrefix(b: Bytes, x: Bytes)
    requires x <= b
    ensures At(b, 0, x)
  {
  }

  lemma {:induction false} ListGrows<T(!new)>(enc: T -> Bytes, ys: seq<T>, n: nat)
    requires n <= |ys| && forall i :: 0 <= i < |ys| ==> enc(ys[i]) != []
    ensures EncList(enc, ys[..n]) <= EncList(enc, ys)
    ensures n < |ys| ==> |EncList(enc, ys[..n])| < |EncList(enc, ys)|
  {
    if n == |ys| {
      assert ys[..n] == ys;
    } else {
      var init := ys[..|ys| - 1];
      assert init[..n] == ys[..n];
      ListGrows(enc, init, n);
    }
  }

  /** Items of at least k bytes each: what the decoders' count checks rely on. */
  lemma {:induction false} ListSize<T(!new)>(enc: T -> Bytes, k: nat, xs: seq<T>)
    requires forall i :: 0 <= i < |xs| ==> |enc(xs[i])| >= k
    ensures |EncList(enc, xs)| >= k * |xs|
  {
    if xs != [] {
      ListSize(enc, k, xs[..|xs| - 1]);
      assert |enc(xs[|xs| - 1])| >= k;
      assert k * |xs| == k * (|xs| - 1) + k;
    }
  }

  lemma StrsBack(b: Bytes, p: nat, xs: seq<Bytes>)
    requires StrsOk(xs) && At(b, p, Strs(xs))
    ensures ParseStrs(b, p) == Got(xs, p + |Strs(xs)|)
  {
    hide U32, ParseU32, Str, ParseStr, EncList, ParseList;
    AtSplit(b, p, U32(|xs|), EncList(Str, xs));
    ReadU32(b, p, |xs|);
    StrInverse();
    ListBack(Str, ParseStr, StrOk, b, p + 4, xs);
    ListSize(Str, 4, xs);
  }

  lemma StrsRead(b: Bytes, p: nat)
    requires ParseStrs(b, p).Got?
    ensures var xs := ParseStrs(b, p).value;
      StrsOk(xs) && At(b, p, Strs(xs)) && ParseStrs(b, p).next == p + |Strs(xs)|
  {
    hide U32, ParseU32, Str, ParseStr, EncList, ParseList, StrOk;
    var n := ParseU32(b, p).value;
    ParseU32Next(b, p);
    ReadU32(b, p, n);
    StrInverse();
    ListRead(Str, ParseStr, StrOk, b, p + 4, n);
    AtSplit(b, p, U32(n), EncList(Str, ParseStrs(b, p).value));
  }
}
