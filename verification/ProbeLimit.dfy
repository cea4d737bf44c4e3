/** The adaptive probe limit of a cloud table: how far past the published tail a load looks. */
module ProbeLimit {
  import opened Table
  import opened Store
  import opened Invariant
  import W = Writer
  import R = Reader
  import WS = WriterSafety
  import RS = ReaderSafety

  datatype Policy = Policy(initial: nat, minimum: nat, maximum: nat)

  predicate PolicyOk(p: Policy) {
    p.minimum > 0 && p.minimum <= p.initial <= p.maximum
  }

  predicate Within(p: Policy, limit: nat) {
    p.minimum <= limit <= p.maximum
  }

  /** How many WALs a probing load finds past the published sequence, of `tail` that are there. */
  function Probed(limit: nat, tail: nat): nat {
    if tail < limit then tail else limit
  }

  /** Reached the limit: double it, up to the maximum. Used less than a quarter: halve it, down to the minimum. */
  function Adapt(p: Policy, limit: nat, tail: nat): nat {
    if limit > 0 && Probed(limit, tail) == limit && limit < p.maximum then
      if limit > p.maximum / 2 then p.maximum else limit * 2
    else if Probed(limit, tail) < limit / 4 && limit > p.minimum then
      if p.minimum < limit / 2 then limit / 2 else p.minimum
    else limit
  }

  class CloudTable {
    const policy: Policy
    var probeLimit: nat

    ghost predicate Valid()
      reads this
    {
      PolicyOk(policy) && Within(policy, probeLimit)
    }

    constructor (p: Policy)
      requires PolicyOk(p)
      ensures Valid() && policy == p && probeLimit == p.initial
    {
      policy, probeLimit := p, p.initial;
    }

    /**
     * One load: nothing when the table has no CURRENT, else the loader's snapshot. A probing load that found a table
     * leaves the limit for the next one.
     */
    method LoadSnapshot(st: Store, acks: set<W.Ack>, probe: bool) returns (r: Option<R.Snapshot>)
      requires Valid() && StoreInv(st) && |st.slots| <= MAX_U64 && forall a :: a in acks ==> WS.AckOk(st, a)
      modifies this
      ensures Valid() && (r.Some? <==> HasCurrent(st))
      ensures r.Some? ==>
        && RS.SnapOk(st, r.value) && r.value.state == Current(st)
        && r.value.probed == if probe then Probed(old(probeLimit), Tail(st)) else 0
      ensures probeLimit == if probe && r.Some? then Adapt(policy, old(probeLimit), Tail(st)) else old(probeLimit)
    {
      hide StoreInv, RS.PartOk, WS.AckOk;
      var limit := if probe then probeLimit else 0;
      r := Load(st, acks, limit);
      if probe && r.Some? {
        if r.value.limitReached && limit < policy.maximum {
          probeLimit := if limit > policy.maximum / 2 then policy.maximum else limit * 2;
        } else if r.value.probed < limit / 4 && limit > policy.minimum {
          probeLimit := if policy.minimum < limit / 2 then limit / 2 else policy.minimum;
        }
      }
    }
  }

  /** How many WALs are stored past the published one. */
  function Tail(st: Store): nat {
    if HasCurrent(st) && Current(st).published <= |st.slots| then |st.slots| - Current(st).published else 0
  }

  /** How many of the loader's steps are left while nobody else acts. */
  ghost function StepsLeft(st: Store, pc: R.Pc): nat {
    match pc
    case Load(_, _) => |st.slots| + 4
    case LoadManifest(_, _, _, _) => |st.slots| + 3
    case Required(_, _, _, slot) => (if slot <= |st.slots| then |st.slots| - slot else 0) + 2
    case Probing(_, _, slot) => (if slot <= |st.slots| then |st.slots| - slot else 0) + 1
    case _ => 0
  }

  /** A load of this limit that reads the present CURRENT. */
  ghost predicate Loading(st: Store, pc: R.Pc, limit: nat) {
    match pc
    case Load(l, _) => l == limit
    case LoadManifest(l, _, cur, _) => l == limit && HasCurrent(st) && cur == Current(st)
    case Required(l, _, part, _) => l == limit && HasCurrent(st) && part.state == Current(st)
    case Probing(l, part, _) => l == limit && HasCurrent(st) && part.state == Current(st)
    case _ => false
  }

  lemma OneStep(st: Store, acks: set<W.Ack>, pc: R.Pc, limit: nat)
    requires StoreInv(st) && RS.PcOk(st, pc) && Loading(st, pc, limit) && |st.slots| <= MAX_U64
    ensures R.Step(st, acks, pc).Some?
    ensures var out := R.Step(st, acks, pc).value;
      if out.done.None? && out.pc.Idle? then !HasCurrent(st)
      else if out.done.None? then
        RS.PcOk(st, out.pc) ==> Loading(st, out.pc, limit) && StepsLeft(st, out.pc) < StepsLeft(st, pc)
      else
        && HasCurrent(st) && out.done.value.state == Current(st) && out.done.value.limit == limit
        && out.done.value.probed == Probed(limit, Tail(st))
  {
    hide StoreInv, FilesOk, WalOk, ExactlyOnce, LogRows, ConcatRows, RS.AckedOk, R.Replay;
    WS.ContiguousOf(st);
    if pc.Required? && pc.slot + 1 in st.slots {
      RS.ReplayHeader(pc.part, st.slots[pc.slot + 1]);
    }
    if pc.Probing? && pc.slot + 1 in st.slots {
      RS.ReplayHeader(pc.part, st.slots[pc.slot + 1]);
    }
  }

  /** The loader run to its end while nobody else acts: it probes as much of the tail as the limit allows. */
  method Load(st: Store, acks: set<W.Ack>, limit: nat) returns (r: Option<R.Snapshot>)
    requires StoreInv(st) && |st.slots| <= MAX_U64 && forall a :: a in acks ==> WS.AckOk(st, a)
    ensures r.Some? <==> HasCurrent(st)
    ensures r.Some? ==>
      && RS.SnapOk(st, r.value) && r.value.state == Current(st)
      && r.value.limit == limit && r.value.probed == Probed(limit, Tail(st))
  {
    hide StoreInv, RS.PcOk, RS.SnapOk, WS.AckOk, R.Step, Loading, StepsLeft, Tail;
    var pc := R.Load(limit, 0);
    FirstPc(st, limit);
    while true
      invariant RS.PcOk(st, pc) && Loading(st, pc, limit)
      decreases StepsLeft(st, pc)
    {
      OneStep(st, acks, pc, limit);
      RS.StepKeeps(st, acks, pc);
      var out := R.Step(st, acks, pc).value;
      if out.done.Some? {
        return out.done;
      }
      if out.pc.Idle? {
        return None;
      }
      pc := out.pc;
    }
  }

  lemma FirstPc(st: Store, limit: nat)
    ensures RS.PcOk(st, R.Load(limit, 0)) && Loading(st, R.Load(limit, 0), limit)
  {
  }

  function Loads(p: Policy, limit: nat, tail: nat, n: nat): nat {
    if n == 0 then limit else Adapt(p, Loads(p, limit, tail, n - 1), tail)
  }

  lemma {:induction false} StaysWithin(p: Policy, limit: nat, tail: nat, n: nat)
    requires PolicyOk(p) && Within(p, limit)
    ensures Within(p, Loads(p, limit, tail, n))
  {
    if n != 0 {
      StaysWithin(p, limit, tail, n - 1);
    }
  }

  /** A limit stays exactly when it covers the tail or is the maximum, and is a quarter used or the minimum. */
  lemma FixedExactly(p: Policy, limit: nat, tail: nat)
    requires PolicyOk(p) && Within(p, limit)
    ensures Adapt(p, limit, tail) == limit <==>
      (tail < limit || limit == p.maximum) && (limit / 4 <= Probed(limit, tail) || limit == p.minimum)
  {
  }

  lemma SameWay(p: Policy, limit: nat, tail: nat)
    requires PolicyOk(p) && Within(p, limit)
    ensures var b := Adapt(p, limit, tail);
      (b >= limit ==> Adapt(p, b, tail) >= b) && (b <= limit ==> Adapt(p, b, tail) <= b)
  {
  }

  /** Once the limit grew it never shrinks again on the same tail, and the other way round. */
  lemma {:induction false} NeverTurns(p: Policy, limit: nat, tail: nat, n: nat)
    requires PolicyOk(p) && Within(p, limit)
    ensures var a, b, c := limit, Loads(p, limit, tail, n), Loads(p, limit, tail, n + 1);
      (Adapt(p, a, tail) >= a ==> a <= b <= c) && (Adapt(p, a, tail) <= a ==> a >= b >= c)
  {
    hide Adapt;
    if n != 0 {
      StaysWithin(p, limit, tail, n - 1);
      NeverTurns(p, limit, tail, n - 1);
      SameWay(p, Loads(p, limit, tail, n - 1), tail);
    }
  }

  /** How much room is left in the direction the limit moves. */
  function Room(p: Policy, limit: nat, tail: nat): nat
    requires Within(p, limit)
  {
    var next := Adapt(p, limit, tail);
    if next == limit then 0 else if next > limit then 1 + p.maximum - limit else 1 + limit
  }

  lemma RoomShrinks(p: Policy, limit: nat, tail: nat)
    requires PolicyOk(p) && Within(p, limit) && Adapt(p, limit, tail) != limit
    ensures var next := Adapt(p, limit, tail); Within(p, next) && Room(p, next, tail) < Room(p, limit, tail)
  {
    StaysWithin(p, limit, tail, 1);
    assert Loads(p, limit, tail, 0) == limit;
    SameWay(p, limit, tail);
    hide Adapt;
  }

  /** Repeated loads on a tail of fixed length settle. */
  lemma {:induction false} Settles(p: Policy, limit: nat, tail: nat) returns (n: nat)
    requires PolicyOk(p) && Within(p, limit)
    ensures var f := Loads(p, limit, tail, n);
      && (forall k: nat :: k >= n ==> Loads(p, limit, tail, k) == f)
      && (tail < f || f == p.maximum) && (f / 4 <= Probed(f, tail) || f == p.minimum)
    decreases Room(p, limit, tail)
  {
    hide Adapt;
    var next := Adapt(p, limit, tail);
    if next == limit {
      n := 0;
      forall k: nat
        ensures Loads(p, limit, tail, k) == limit
      {
        Still(p, limit, tail, k);
      }
      FixedExactly(p, limit, tail);
    } else {
      RoomShrinks(p, limit, tail);
      var m := Settles(p, next, tail);
      n := m + 1;
      OneFirst(p, limit, tail, m);
      forall k: nat | k >= n
        ensures Loads(p, limit, tail, k) == Loads(p, next, tail, m)
      {
        OneFirst(p, limit, tail, k - 1);
      }
    }
  }

  lemma {:induction false} Still(p: Policy, limit: nat, tail: nat, k: nat)
    requires Adapt(p, limit, tail) == limit
    ensures Loads(p, limit, tail, k) == limit
  {
    if k != 0 {
      Still(p, limit, tail, k - 1);
    }
  }

  lemma {:induction false} OneFirst(p: Policy, limit: nat, tail: nat, k: nat)
    ensures Loads(p, limit, tail, k + 1) == Loads(p, Adapt(p, limit, tail), tail, k)
  {
    if k != 0 {
      OneFirst(p, limit, tail, k - 1);
    }
  }

  // ------------------------------------------------------------ how fast

  function Pow2(n: nat): nat {
    if n == 0 then 1 else 2 * Pow2(n - 1)
  }

  lemma Twice(a: nat, n: nat)
    ensures (2 * a) * Pow2(n) == a * Pow2(n + 1)
  {
  }

  lemma Least1(a: nat, n: nat)
    ensures a * Pow2(n) >= a
  {
    PowPositive(n);
    assert a * Pow2(n) >= a * 1;
  }

  lemma {:induction false} PowPositive(n: nat)
    ensures Pow2(n) >= 1
  {
    if n != 0 {
      PowPositive(n - 1);
    }
  }

  lemma MoveOnce(p: Policy, limit: nat, tail: nat)
    requires PolicyOk(p) && Within(p, limit)
    ensures var next := Adapt(p, limit, tail);
      && Within(p, next)
      && (next > limit ==> limit < p.maximum && (next == p.maximum || next == 2 * limit))
      && (next < limit ==> limit > p.minimum && (next == p.minimum || 2 * next <= limit))
  {
  }

  lemma {:induction false} GrowsWithin(p: Policy, limit: nat, tail: nat, n: nat)
    requires PolicyOk(p) && Within(p, limit) && Adapt(p, limit, tail) >= limit && limit * Pow2(n) >= p.maximum
    ensures Adapt(p, Loads(p, limit, tail, n), tail) == Loads(p, limit, tail, n)
    decreases n
  {
    hide Adapt;
    var next := Adapt(p, limit, tail);
    MoveOnce(p, limit, tail);
    if next == limit {
      Still(p, limit, tail, n);
    } else if n != 0 {
      SameWay(p, limit, tail);
      Twice(limit, n - 1);
      Least1(next, n - 1);
      GrowsWithin(p, next, tail, n - 1);
      OneFirst(p, limit, tail, n - 1);
    }
  }

  lemma {:induction false} ShrinksWithin(p: Policy, limit: nat, tail: nat, n: nat)
    requires PolicyOk(p) && Within(p, limit) && Adapt(p, limit, tail) <= limit && limit <= p.minimum * Pow2(n)
    ensures Adapt(p, Loads(p, limit, tail, n), tail) == Loads(p, limit, tail, n)
    decreases n
  {
    hide Adapt;
    var next := Adapt(p, limit, tail);
    MoveOnce(p, limit, tail);
    if next == limit {
      Still(p, limit, tail, n);
    } else if n != 0 {
      SameWay(p, limit, tail);
      Commute(p.minimum, Pow2(n - 1));
      Least1(p.minimum, n - 1);
      ShrinksWithin(p, next, tail, n - 1);
      OneFirst(p, limit, tail, n - 1);
    }
  }

  /** On a tail of fixed length the limit settles within as many loads as doublings lead from minimum to maximum. */
  lemma SettlesWithin(p: Policy, limit: nat, tail: nat, n: nat, k: nat)
    requires PolicyOk(p) && Within(p, limit) && p.minimum * Pow2(n) >= p.maximum
    ensures Loads(p, limit, tail, n + k) == Loads(p, limit, tail, n)
  {
    hide Adapt;
    MulMono(p.minimum, limit, Pow2(n));
    if Adapt(p, limit, tail) >= limit {
      GrowsWithin(p, limit, tail, n);
    } else {
      ShrinksWithin(p, limit, tail, n);
    }
    Later(p, limit, tail, n, k);
  }

  lemma {:induction false} Later(p: Policy, limit: nat, tail: nat, n: nat, k: nat)
    requires Adapt(p, Loads(p, limit, tail, n), tail) == Loads(p, limit, tail, n)
    ensures Loads(p, limit, tail, n + k) == Loads(p, limit, tail, n)
  {
    hide Adapt;
    if k != 0 {
      Later(p, limit, tail, n, k - 1);
    }
  }

  lemma DoubleOnce(p: Policy, x: nat, tail: nat)
    requires PolicyOk(p) && x > 0 && tail >= p.maximum
    ensures Adapt(p, if x < p.maximum then x else p.maximum, tail) == if 2 * x < p.maximum then 2 * x else p.maximum
  {
  }

  /** Each load that finds the limit reached doubles it, up to the maximum. */
  lemma {:induction false} DoublesWhileReached(p: Policy, limit: nat, tail: nat, n: nat)
    requires PolicyOk(p) && Within(p, limit) && tail >= p.maximum
    ensures Loads(p, limit, tail, n) == if limit * Pow2(n) < p.maximum then limit * Pow2(n) else p.maximum
  {
    hide Adapt;
    if n != 0 {
      DoublesWhileReached(p, limit, tail, n - 1);
      var x := limit * Pow2(n - 1);
      Least1(limit, n - 1);
      Twice(limit, n - 1);
      Commute(limit, Pow2(n - 1));
      hide Pow2;
      DoubleOnce(p, x, tail);
    }
  }

  lemma Commute(a: nat, m: nat)
    ensures (2 * a) * m == 2 * (a * m) == a * (2 * m)
  {
  }

  /** Each load that finds nothing halves the limit, until that would be below the minimum or below two. */
  lemma {:induction false} HalvesWhileUnused(p: Policy, limit: nat, n: nat)
    requires PolicyOk(p) && Within(p, limit) && p.minimum * Pow2(n) <= limit && 2 * Pow2(n) <= limit
    ensures var l := Loads(p, limit, 0, n); l * Pow2(n) <= limit < (l + 1) * Pow2(n)
  {
    hide Adapt;
    if n != 0 {
      var m := Pow2(n - 1);
      PowPositive(n - 1);
      Commute(p.minimum, m);
      assert p.minimum * m <= limit;
      HalvesWhileUnused(p, limit, n - 1);
      HalfOnce(p, limit, Loads(p, limit, 0, n - 1), m);
    }
  }

  lemma Cancel(a: nat, b: nat, m: nat)
    requires a * m < b * m
    ensures a < b
  {
  }

  lemma HalfOnce(p: Policy, limit: nat, a: nat, m: nat)
    requires PolicyOk(p) && m >= 1 && a * m <= limit < (a + 1) * m && p.minimum * (2 * m) <= limit && 4 * m <= limit
    ensures Adapt(p, a, 0) == a / 2 && (a / 2) * (2 * m) <= limit < (a / 2 + 1) * (2 * m)
  {
    var h := a / 2;
    Commute(p.minimum, m);
    Commute(h, m);
    Commute(h + 1, m);
    Cancel(4, a + 1, m);
    Cancel(2 * p.minimum, a + 1, m);
    Bounds(h, a, m);
    hide Adapt;
    assert Adapt(p, a, 0) == h by { Halve(p, a); }
  }

  lemma Bounds(h: nat, a: nat, m: nat)
    requires 2 * h <= a <= 2 * h + 1
    ensures (2 * h) * m <= a * m && (a + 1) * m <= (2 * (h + 1)) * m
  {
    MulMono(2 * h, a, m);
    MulMono(a + 1, 2 * (h + 1), m);
  }

  lemma MulMono(a: nat, b: nat, m: nat)
    requires a <= b
    ensures a * m <= b * m
  {
  }

  lemma Halve(p: Policy, a: nat)
    requires PolicyOk(p) && a >= 4 && 2 * p.minimum <= a
    ensures Adapt(p, a, 0) == a / 2
  {
  }
}
