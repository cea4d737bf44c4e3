/** The WAL indexer: turn a contiguous run of WALs into a data file, a dedup index and a manifest. */
module Indexer {
  import opened Table
  import opened Store

  const MAX_WAL_PER_PASS: nat := 256

  datatype IndexCode = NoCode | Indexed | NothingToDo | IndexRetry | InvalidState

  datatype Pc =
    | Idle
    | Load(attempt: nat)
    | LoadManifest(attempt: nat, cur: State)
    | LoadIndex(attempt: nat, cur: State, base: Manifest, k: nat, entries: seq<Entry>)
    | Collect(attempt: nat, cur: State, base: Manifest, run: Run)
    | WriteData(attempt: nat, cur: State, base: Manifest, run: Run)
    | PutDedup(attempt: nat, cur: State, grown: Manifest, run: Run)
    | DedupWait(attempt: nat, cur: State, full: Manifest, manifestKey: Key, entries: seq<Entry>, rid: nat)
    | ManifestWait(attempt: nat, cur: State, full: Manifest, manifestKey: Key, rid: nat)
    | CasWait(attempt: nat, cur: State, next: State, rid: nat)

  /** What one pass has collected: WALs through `end`, their chunks, rows and dedup entries. */
  datatype Run = Run(end: nat, chunks: seq<Chunk>, rows: nat, entries: seq<Entry>)

  datatype Indexer = Indexer(maxAttempts: nat, pc: Pc, code: IndexCode, indexed: nat, published: nat)

  /** `path`, `key` and `sorted` stand for the key generator and for std::sort. */
  datatype Input =
    | CallIndex | Go | GoPath(path: Key) | GoKey(key: Key, sorted: seq<Entry>) | Got(reply: Reply) | Throw

  datatype Out = Out(store: Store, indexer: Indexer)

  function NewIndexer(maxAttempts: nat): Indexer {
    Indexer(maxAttempts, Idle, NoCode, 0, 0)
  }

  function RowSum(chunks: seq<Chunk>): nat {
    if chunks == [] then 0 else RowSum(chunks[..|chunks| - 1]) + chunks[|chunks| - 1].rowCount
  }

  /** Add the next WAL to the run; a Fence contributes nothing but its slot. */
  function Extend(run: Run, wal: Wal): Run {
    if wal.kind == Append then
      Run(run.end + 1, run.chunks + wal.chunks, run.rows + RowSum(wal.chunks),
          run.entries + WalEntries(wal, wal.ids))
    else run.(end := run.end + 1)
  }

  predicate SortedById(entries: seq<Entry>) {
    forall i, j :: 0 <= i < j < |entries| ==> !LexLess(entries[j].id, entries[i].id)
  }

  /** std::unique: of adjacent entries with one id keep the first. */
  function Unique(entries: seq<Entry>): seq<Entry> {
    if |entries| < 2 then entries
    else
      var before := Unique(entries[..|entries| - 1]);
      var e := entries[|entries| - 1];
      if before != [] && before[|before| - 1].id == e.id then before else before + [e]
  }

  function DedupKey(manifestKey: Key): Key
    requires HasPrefix(manifestKey, MANIFEST_PREFIX)
  {
    DEDUP_PREFIX + manifestKey[|MANIFEST_PREFIX|..] + Ascii(".idx")
  }

  function Jump(st: Store, x: Indexer, pc: Pc): Option<Out> {
    Some(Out(st, x.(pc := pc)))
  }

  function Finish(st: Store, x: Indexer, code: IndexCode, s: State): Option<Out> {
    Some(Out(st, x.(pc := Idle, code := code, indexed := s.indexed, published := s.published)))
  }

  function Raise(st: Store, x: Indexer): Option<Out> {
    Some(Out(st, x.(pc := Idle, code := NoCode)))
  }

  function Send(st: Store, id: nat, op: Op, x: Indexer, pc: Pc): Option<Out> {
    Some(Out(Issue(st, IndexerId(id), 0, op), x.(pc := pc)))
  }

  function ReadGo(st: Store, x: Indexer): Option<Out> {
    match x.pc
    case Load(attempt) =>
      if attempt >= x.maxAttempts then
        Finish(st, x, IndexRetry, if HasCurrent(st) then Current(st) else State(0, 0, 0, 0, []))
      else if !HasCurrent(st) then Finish(st, x, NothingToDo, State(0, 0, 0, 0, []))
      else Jump(st, x, LoadManifest(attempt, Current(st)))
    case LoadManifest(attempt, cur) =>
      if cur.manifest in st.manifests && st.manifests[cur.manifest].covered == cur.indexed
      then Jump(st, x, LoadIndex(attempt, cur, st.manifests[cur.manifest], 0, []))
      else Raise(st, x)
    case LoadIndex(attempt, cur, base, k, entries) =>
      if k >= |base.indexKeys| then Jump(st, x, Collect(attempt, cur, base, Run(cur.indexed, [], 0, entries)))
      else if base.indexKeys[k] in st.indexes
      then Jump(st, x, LoadIndex(attempt, cur, base, k + 1, entries + st.indexes[base.indexKeys[k]]))
      else Raise(st, x)
    case Collect(attempt, cur, base, run) =>
      if run.end < MAX_U64 && run.end - cur.indexed < MAX_WAL_PER_PASS && run.end + 1 in st.slots
      then Jump(st, x, Collect(attempt, cur, base, Extend(run, st.slots[run.end + 1])))
      else if run.end == cur.indexed then Finish(st, x, NothingToDo, cur)
      else if run.chunks == [] then Jump(st, x, PutDedup(attempt, cur, base, run))
      else Jump(st, x, WriteData(attempt, cur, base, run))
    case _ => None
  }

  /** The data file goes to a path no object has had before; a generated key must lie under "data/". */
  function WriteGo(st: Store, x: Indexer, path: Key): Option<Out> {
    match x.pc
    case WriteData(attempt, cur, base, run) =>
      if !HasPrefix(path, DATA_PREFIX) then Finish(st, x, InvalidState, cur)
      else if path in st.files then None
      else
        var file := DataFile(path, cur.indexed + 1, run.end, run.rows);
        Jump(st.(files := st.files[path := ConcatRows(run.chunks)]), x,
             PutDedup(attempt, cur, base.(files := base.files + [file]), run))
    case _ => None
  }

  function DedupGo(id: nat, st: Store, x: Indexer, key: Key, sorted: seq<Entry>): Option<Out> {
    match x.pc
    case PutDedup(attempt, cur, grown, run) =>
      if multiset(sorted) != multiset(run.entries) || !SortedById(sorted) then None
      else if !HasPrefix(key, MANIFEST_PREFIX) then Finish(st, x, InvalidState, cur)
      else
        var full := grown.(indexKeys := [DedupKey(key)], covered := run.end);
        Send(st, id, PutIndex(DedupKey(key), Unique(sorted)), x,
             DedupWait(attempt, cur, full, key, Unique(sorted), |st.requests|))
    case _ => None
  }

  function NextState(cur: State, full: Manifest, key: Key): State {
    State(cur.version + 1, cur.epoch, full.covered,
          if cur.published < full.covered then full.covered else cur.published, key)
  }

  function WriteGot(id: nat, st: Store, x: Indexer, r: Reply): Option<Out> {
    match x.pc
    case DedupWait(attempt, cur, full, key, _, rid) =>
      if !ReplyOk(st, rid, r) then None
      else if !r.Applied? then Jump(st, x, Load(attempt + 1))
      else Send(st, id, PutManifest(key, full), x, ManifestWait(attempt, cur, full, key, |st.requests|))
    case ManifestWait(attempt, cur, full, key, rid) =>
      if !ReplyOk(st, rid, r) then None
      else if !r.Applied? then Jump(st, x, Load(attempt + 1))
      else
        var next := NextState(cur, full, key);
        Send(st, id, Cas(cur, next), x, CasWait(attempt, cur, next, |st.requests|))
    case CasWait(attempt, cur, next, rid) =>
      if !ReplyOk(st, rid, r) then None
      else if r.Applied? then Finish(st, x, Indexed, next)
      else Jump(st, x, Load(attempt + 1))
    case _ => None
  }

  /** One step of indexer `id`; None when the input does not fit where the indexer stands. */
  function Next(id: nat, st: Store, x: Indexer, inp: Input): Option<Out> {
    match inp
    case CallIndex => if x.pc.Idle? then Jump(st, x, Load(0)) else None
    case Throw => if x.pc.Idle? then None else Raise(st, x)
    case Go => ReadGo(st, x)
    case GoPath(path) => WriteGo(st, x, path)
    case GoKey(key, sorted) => DedupGo(id, st, x, key, sorted)
    case Got(r) => WriteGot(id, st, x, r)
  }
}
