/**
 The two shared stores of one table, as the sequential WAL protocol sees them.

 Every conditional write (create-if-absent, compare-and-swap) is a request that is first issued and
 then lands at some later moment, or never. A reply of `Unknown` (the source's RetryableConflict) leaves
 the request in flight: it may have landed already, land later, or never land.
*/
module Store {
  import opened Table

  type Id = Bytes
  type Key = Bytes

  const MAX_U64: nat := 0xFFFF_FFFF_FFFF_FFFF

  datatype Kind = Append | Fence

  /** The logical content of one WAL object; `slot` is its sequence number. */
  datatype Wal = Wal(kind: Kind, slot: nat, epoch: nat, op: Id, ids: seq<Id>, chunks: seq<Chunk>)

  /** SHA-256 over batch ids and rows, taken to be injective. */
  datatype Digest = Digest(ids: seq<Id>, chunks: seq<Chunk>)

  datatype Entry = Entry(id: Id, slot: nat, op: Id, digest: Digest)
  datatype DataFile = DataFile(path: Key, first: nat, last: nat, rows: nat)
  datatype Manifest = Manifest(covered: nat, files: seq<DataFile>, indexKeys: seq<Key>)

  /** The content of CURRENT. */
  datatype State = State(version: nat, epoch: nat, indexed: nat, published: nat, manifest: Key)

  datatype Op =
    | PutWal(wal: Wal)
    | PutManifest(key: Key, manifest: Manifest)
    | PutIndex(key: Key, entries: seq<Entry>)
    | PutCurrent(state: State)
    | Cas(expected: State, next: State)

  datatype Actor = WriterId(id: nat) | IndexerId(id: nat)

  /** `own` is a history variable: the epoch the sender had acquired itself when it sent the request. */
  datatype Request = Request(from: Actor, own: nat, op: Op)
  datatype Reply = Applied | Rejected | Unknown

  /**
   `history` holds every value CURRENT has had; the last one is the present value and the empty
   sequence means that CURRENT does not exist. `requests` is append-only, so a request is named by its
   index. `creator`, `owner` and `lenAt` are history variables: which request filled a slot, which actor's
   compare-and-swap installed an epoch, and how many slots existed at that moment.
  */
  datatype Store = Store(
    schema: Schema,
    slots: map<nat, Wal>,
    files: map<Key, seq<Row>>,
    manifests: map<Key, Manifest>,
    indexes: map<Key, seq<Entry>>,
    history: seq<State>,
    requests: seq<Request>,
    landed: set<nat>,
    creator: map<nat, nat>,
    owner: map<nat, Actor>,
    lenAt: map<nat, nat>
  )

  const DEDUP_PREFIX: Bytes := Ascii("dedup/")
  const DATA_PREFIX: Bytes := Ascii("data/")
  const MANIFEST_PREFIX: Bytes := Ascii("manifest/")
  const INITIAL_KEY: Key := Ascii("manifest/initial.meta")
  const INITIAL_MANIFEST := Manifest(0, [], [])
  const INITIAL_STATE := State(0, 0, 0, 0, INITIAL_KEY)

  predicate HasCurrent(st: Store) {
    st.history != []
  }

  function Current(st: Store): State
    requires HasCurrent(st)
  {
    st.history[|st.history| - 1]
  }

  function CurrentEpoch(st: Store): nat {
    if HasCurrent(st) then Current(st).epoch else 0
  }

  /** If-None-Match for creation, If-Match for compare-and-swap. */
  predicate Precondition(st: Store, op: Op) {
    match op
    case PutWal(w) => w.slot !in st.slots
    case PutManifest(k, _) => k !in st.manifests
    case PutIndex(k, _) => k !in st.indexes
    case PutCurrent(_) => !HasCurrent(st)
    case Cas(e, _) => HasCurrent(st) && Current(st) == e
  }

  function Issue(st: Store, from: Actor, own: nat, op: Op): Store {
    st.(requests := st.requests + [Request(from, own, op)])
  }

  predicate CanLand(st: Store, rid: nat) {
    rid < |st.requests| && rid !in st.landed && Precondition(st, st.requests[rid].op)
  }

  function LandWal(st: Store, rid: nat, w: Wal): Store {
    st.(landed := st.landed + {rid}, slots := st.slots[w.slot := w], creator := st.creator[w.slot := rid])
  }

  function LandManifest(st: Store, rid: nat, k: Key, m: Manifest): Store {
    st.(landed := st.landed + {rid}, manifests := st.manifests[k := m])
  }

  function LandIndex(st: Store, rid: nat, k: Key, es: seq<Entry>): Store {
    st.(landed := st.landed + {rid}, indexes := st.indexes[k := es])
  }

  function LandState(st: Store, rid: nat, s: State): Store {
    st.(landed := st.landed + {rid}, history := st.history + [s])
  }

  function LandEpoch(st: Store, rid: nat, s: State, from: Actor): Store {
    st.(landed := st.landed + {rid}, history := st.history + [s],
        owner := st.owner[s.epoch := from], lenAt := st.lenAt[s.epoch := |st.slots|])
  }

  function Land(st: Store, rid: nat): (r: Store)
    requires CanLand(st, rid)
    ensures r.requests == st.requests && r.landed == st.landed + {rid}
  {
    match st.requests[rid].op
    case PutWal(w) => LandWal(st, rid, w)
    case PutManifest(k, m) => LandManifest(st, rid, k, m)
    case PutIndex(k, es) => LandIndex(st, rid, k, es)
    case PutCurrent(s) => LandState(st, rid, s)
    case Cas(e, n) =>
      if n.epoch > e.epoch then LandEpoch(st, rid, n, st.requests[rid].from) else LandState(st, rid, n)
  }

  /** The replies a store may give to request `rid` in state `st`. */
  predicate ReplyOk(st: Store, rid: nat, r: Reply) {
    && rid < |st.requests|
    && (r.Applied? ==> rid in st.landed)
    && (r.Rejected? ==> rid !in st.landed && !Precondition(st, st.requests[rid].op))
  }

  function WalRows(w: Wal): seq<Row> {
    if w.kind == Append then ConcatRows(w.chunks) else []
  }

  /** The rows of the Append entries in slots 1..n, in order. */
  function LogRows(slots: map<nat, Wal>, n: nat): seq<Row> {
    if n == 0 then [] else LogRows(slots, n - 1) + (if n in slots then WalRows(slots[n]) else [])
  }

  /** What a scan of the listed data files yields; a missing file is skipped. */
  function FileRows(files: map<Key, seq<Row>>, list: seq<DataFile>): seq<Row> {
    if list == [] then []
    else FileRows(files, list[..|list| - 1]) +
         (var path := list[|list| - 1].path; if path in files then files[path] else [])
  }

  /** The concatenated dedup entries of the listed index objects. */
  function IndexEntries(indexes: map<Key, seq<Entry>>, keys: seq<Key>): seq<Entry> {
    if keys == [] then []
    else IndexEntries(indexes, keys[..|keys| - 1]) +
         (var k := keys[|keys| - 1]; if k in indexes then indexes[k] else [])
  }

  function WalEntry(w: Wal, id: Id): Entry {
    Entry(id, w.slot, w.op, Digest(w.ids, w.chunks))
  }

  function WalEntries(w: Wal, ids: seq<Id>): seq<Entry> {
    seq(|ids|, i requires 0 <= i < |ids| => WalEntry(w, ids[i]))
  }
}
