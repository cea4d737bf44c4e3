/** The table writer: Start, Import and Publish, one store call per step. */
module Writer {
  import opened Table
  import opened Store

  datatype Batch = Batch(ids: seq<Id>, chunks: seq<Chunk>, immediate: bool)

  datatype StartCode = Started | Contended | StartRetry | InvalidTable
  datatype ImportCode = Committed | Durable | AlreadyCommitted | NotStarted | Fenced | ImportRetry | InvalidRequest

  datatype Answer =
    | NoAnswer
    | StartAnswer(startCode: StartCode, epoch: nat)
    | ImportAnswer(code: ImportCode, epoch: nat, published: nat, slot: nat)

  /** A positive answer given to a client: `batch` is stored in `slot`, and published if `visible`. */
  datatype Ack = Ack(batch: Batch, slot: nat, visible: bool)

  datatype Pc =
    | Idle
    | StartLoad
    | InitManifest
    | InitManifestWait(rid: nat)
    | InitCheck
    | InitCurrent
    | InitCurrentWait(rid: nat)
    | StartReload
    | Acquire(seen: State, attempt: nat)
    | AcquireWait(seen: State, next: State, attempt: nat, rid: nat)
    | AcquireReload(attempt: nat)
    | ScanCheck(acquired: State, slot: nat)
    | ScanProbe(acquired: State, slot: nat)
    | PlantFence(acquired: State, slot: nat)
    | PlantWait(acquired: State, slot: nat, rid: nat)
    | PlantResolve(acquired: State, slot: nat, rid: nat)
    | Confirm(acquired: State, slot: nat)
    | ImportLoad(batch: Batch)
    | ImportManifest(batch: Batch, latest: State)
    | ImportIndex(batch: Batch, latest: State, keys: seq<Key>, k: nat, entries: seq<Entry>)
    | ImportScan(batch: Batch, latest: State, known: map<Id, Entry>, slot: nat)
    | ImportWait(batch: Batch, wal: Wal, rid: nat)
    | ImportResolve(batch: Batch, wal: Wal)
    | Publishing(batch: Batch, slot: nat, pubEpoch: nat, attempt: nat)
    | PublishWait(batch: Batch, slot: nat, pubEpoch: nat, attempt: nat, next: State, rid: nat)

  /**
   `current` and `nextSlot` are the object's own fields; `own`, `fenceSlot` and `rounds` are history
   variables: the epoch this object last acquired, where its fence went, and how many times the
   present Start has gone round its scan loop.
  */
  datatype Writer = Writer(
    maxAttempts: nat,
    current: Option<State>,
    nextSlot: nat,
    pc: Pc,
    answer: Answer,
    own: nat,
    fenceSlot: nat,
    rounds: nat
  )

  datatype Input = CallStart | CallImport(batch: Batch) | Go | Got(reply: Reply) | Throw

  /** `adopted` marks the step that stores another writer's epoch as this writer's own. */
  datatype Out = Out(store: Store, writer: Writer, ack: Option<Ack>, adopted: bool)

  function NewWriter(maxAttempts: nat): Writer {
    Writer(maxAttempts, None, 0, Idle, NoAnswer, 0, 0, 0)
  }

  predicate Distinct<T(==)>(s: seq<T>) {
    forall i, j :: 0 <= i < j < |s| ==> s[i] != s[j]
  }

  predicate IsValidBatch(b: Batch, schema: Schema) {
    && b.ids != [] && b.chunks != []
    && (forall i :: 0 <= i < |b.ids| ==> b.ids[i] != [])
    && Distinct(b.ids)
    && AllFull(b.chunks, schema)
  }

  function Decimal(n: nat): Bytes {
    if n < 10 then [48 + n] else Decimal(n / 10) + [48 + n % 10]
  }

  function FenceWal(epoch: nat, slot: nat): Wal {
    Wal(Fence, slot, epoch, Ascii("fence-") + Decimal(epoch), [], [])
  }

  function AppendWal(b: Batch, epoch: nat, slot: nat): Wal
    requires b.ids != []
  {
    Wal(Append, slot, epoch, b.ids[0], b.ids, b.chunks)
  }

  /** Insert entries into the map of known ids; an id already present keeps its entry. */
  function Emplace(known: map<Id, Entry>, entries: seq<Entry>): map<Id, Entry> {
    if entries == [] then known
    else
      var before := Emplace(known, entries[..|entries| - 1]);
      var e := entries[|entries| - 1];
      if e.id in before then before else before[e.id := e]
  }

  datatype Dedup = Mismatch | Seen(already: nat, prior: nat)

  /** Compare a request's ids with the known ones: how many are known, and in which one slot. */
  function CheckKnown(known: map<Id, Entry>, ids: seq<Id>, op: Id, digest: Digest): Dedup {
    if ids == [] then Seen(0, 0)
    else
      var before := CheckKnown(known, ids[..|ids| - 1], op, digest);
      var id := ids[|ids| - 1];
      if before.Mismatch? || id !in known then before
      else
        var e := known[id];
        if e.op != op || e.digest != digest || (before.prior != 0 && before.prior != e.slot) then Mismatch
        else Seen(before.already + 1, e.slot)
  }

  function Quiet(st: Store, w: Writer): Option<Out> {
    Some(Out(st, w, None, false))
  }

  function Jump(st: Store, w: Writer, pc: Pc): Option<Out> {
    Quiet(st, w.(pc := pc))
  }

  function FinishStart(st: Store, w: Writer, code: StartCode, epoch: nat): Option<Out> {
    Quiet(st, w.(pc := Idle, answer := StartAnswer(code, epoch)))
  }

  function ImportResult(w: Writer, code: ImportCode, slot: nat): Answer {
    if w.current.Some?
    then ImportAnswer(code, w.current.value.epoch, w.current.value.published, slot)
    else ImportAnswer(code, 0, 0, slot)
  }

  function FinishImport(st: Store, w: Writer, code: ImportCode, slot: nat, ack: Option<Ack>): Option<Out> {
    Some(Out(st, w.(pc := Idle, answer := ImportResult(w, code, slot)), ack, false))
  }

  /** The call ends in an exception; the object keeps its fields. */
  function Raise(st: Store, w: Writer): Option<Out> {
    Quiet(st, w.(pc := Idle, answer := NoAnswer))
  }

  function Send(st: Store, id: nat, own: nat, op: Op, w: Writer, pc: Pc): Option<Out> {
    Quiet(Issue(st, WriterId(id), own, op), w.(pc := pc))
  }

  function Call(st: Store, w: Writer, inp: Input): Option<Out> {
    if !w.pc.Idle? then None
    else
      match inp
      case CallStart =>
        if w.current.Some? then FinishStart(st, w, Started, w.current.value.epoch) else Jump(st, w, StartLoad)
      case CallImport(b) =>
        if w.current.None? then FinishImport(st, w, NotStarted, 0, None)
        else if !IsValidBatch(b, st.schema) then FinishImport(st, w, InvalidRequest, 0, None)
        else Jump(st, w, ImportLoad(b))
      case _ => None
  }

  /** Start up to the acquisition of an epoch. */
  function StartGo(id: nat, st: Store, w: Writer): Option<Out> {
    match w.pc
    case StartLoad =>
      if HasCurrent(st) then Jump(st, w, Acquire(Current(st), 0)) else Jump(st, w, InitManifest)
    case InitManifest =>
      Send(st, id, w.own, PutManifest(INITIAL_KEY, INITIAL_MANIFEST), w, InitManifestWait(|st.requests|))
    case InitCheck =>
      if INITIAL_KEY in st.manifests && st.manifests[INITIAL_KEY] == INITIAL_MANIFEST
      then Jump(st, w, InitCurrent) else Raise(st, w)
    case InitCurrent =>
      Send(st, id, w.own, PutCurrent(INITIAL_STATE), w, InitCurrentWait(|st.requests|))
    case StartReload =>
      if HasCurrent(st) then Jump(st, w, Acquire(Current(st), 0)) else FinishStart(st, w, StartRetry, 0)
    case Acquire(seen, attempt) =>
      if attempt >= w.maxAttempts then FinishStart(st, w, Contended, 0)
      else if seen.epoch == MAX_U64 then FinishStart(st, w, InvalidTable, 0)
      else
        var next := seen.(epoch := seen.epoch + 1, version := seen.version + 1);
        Send(st, id, w.own, Cas(seen, next), w, AcquireWait(seen, next, attempt, |st.requests|))
    case AcquireReload(attempt) =>
      if HasCurrent(st) then Jump(st, w, Acquire(Current(st), attempt + 1)) else FinishStart(st, w, StartRetry, 0)
    case _ => None
  }

  function StartGot(st: Store, w: Writer, r: Reply): Option<Out> {
    match w.pc
    case InitManifestWait(rid) =>
      if !ReplyOk(st, rid, r) then None
      else (match r
        case Applied => Jump(st, w, InitCurrent)
        case Rejected => Jump(st, w, InitCheck)
        case Unknown => FinishStart(st, w, StartRetry, 0))
    case InitCurrentWait(rid) =>
      if !ReplyOk(st, rid, r) then None
      else if r.Unknown? then FinishStart(st, w, StartRetry, 0)
      else Jump(st, w, StartReload)
    case AcquireWait(seen, next, attempt, rid) =>
      if !ReplyOk(st, rid, r) then None
      else (match r
        case Applied => Quiet(st, w.(pc := ScanCheck(next, next.indexed + 1), rounds := 0))
        case Rejected => Jump(st, w, AcquireReload(attempt))
        case Unknown => FinishStart(st, w, StartRetry, 0))
    case _ => None
  }

  /** Start's slot scan and fence. */
  function ScanGo(id: nat, st: Store, w: Writer): Option<Out> {
    match w.pc
    case ScanCheck(acquired, slot) =>
      if !HasCurrent(st) then FinishStart(st, w, StartRetry, 0)
      else if Current(st).epoch != acquired.epoch then FinishStart(st, w, Contended, 0)
      else
        var from := if slot <= Current(st).indexed then Current(st).indexed + 1 else slot;
        Quiet(st, w.(pc := ScanProbe(acquired, from), rounds := w.rounds + 1))
    case ScanProbe(acquired, slot) =>
      if slot in st.slots then Jump(st, w, ScanCheck(acquired, slot + 1)) else Jump(st, w, PlantFence(acquired, slot))
    case PlantFence(acquired, slot) =>
      Send(st, id, acquired.epoch, PutWal(FenceWal(acquired.epoch, slot)), w, PlantWait(acquired, slot, |st.requests|))
    case PlantResolve(acquired, slot, _) =>
      if slot in st.slots && st.slots[slot].kind == Fence && st.slots[slot].epoch == acquired.epoch &&
         st.slots[slot].op == FenceWal(acquired.epoch, slot).op
      then Jump(st, w, Confirm(acquired, slot)) else FinishStart(st, w, StartRetry, 0)
    case Confirm(acquired, slot) =>
      if !HasCurrent(st) || Current(st).epoch != acquired.epoch then FinishStart(st, w, Contended, 0)
      else
        Quiet(st, w.(pc := Idle, current := Some(Current(st)), nextSlot := slot + 1,
                     own := acquired.epoch, fenceSlot := slot,
                     answer := StartAnswer(Started, acquired.epoch)))
    case _ => None
  }

  function ScanGot(st: Store, w: Writer, r: Reply): Option<Out> {
    match w.pc
    case PlantWait(acquired, slot, rid) =>
      if !ReplyOk(st, rid, r) then None
      else (match r
        case Applied => Jump(st, w, Confirm(acquired, slot))
        case Rejected => Jump(st, w, ScanCheck(acquired, slot + 1))
        case Unknown => Jump(st, w, PlantResolve(acquired, slot, rid)))
    case _ => None
  }

  /** Import up to the decision what to do with the batch. */
  function ImportGo(st: Store, w: Writer): Option<Out> {
    match w.pc
    case ImportLoad(b) =>
      if !HasCurrent(st) then FinishImport(st, w, ImportRetry, 0, None)
      else if w.current.None? || Current(st).epoch != w.current.value.epoch then
        FinishImport(st, w.(current := None), Fenced, 0, None)
      else Quiet(st, w.(current := Some(Current(st)), pc := ImportManifest(b, Current(st))))
    case ImportManifest(b, latest) =>
      if latest.manifest in st.manifests && st.manifests[latest.manifest].covered == latest.indexed
      then Jump(st, w, ImportIndex(b, latest, st.manifests[latest.manifest].indexKeys, 0, []))
      else Raise(st, w)
    case ImportIndex(b, latest, keys, k, entries) =>
      if k >= |keys| then Jump(st, w, ImportScan(b, latest, Emplace(map[], entries), latest.indexed + 1))
      else if keys[k] in st.indexes
      then Jump(st, w, ImportIndex(b, latest, keys, k + 1, entries + st.indexes[keys[k]]))
      else Raise(st, w)
    case ImportScan(b, latest, known, slot) =>
      if slot >= w.nextSlot then None
      else if slot in st.slots then
        var wal := st.slots[slot];
        Jump(st, w, ImportScan(b, latest, Emplace(known, WalEntries(wal, wal.ids)), slot + 1))
      else FinishImport(st, w, ImportRetry, 0, None)
    case _ => None
  }

  /** The batch's WAL is in its slot: count it and publish if asked to. */
  function ImportDone(st: Store, w: Writer, b: Batch, wal: Wal): Option<Out> {
    var w1 := w.(nextSlot := w.nextSlot + 1);
    if b.immediate then Jump(st, w1, Publishing(b, wal.slot, wal.epoch, 0))
    else FinishImport(st, w1, Durable, wal.slot, Some(Ack(b, wal.slot, false)))
  }

  /** All ids have been looked up in slots 1..nextSlot-1: answer, reject or write. */
  function Decide(id: nat, st: Store, w: Writer): Option<Out> {
    match w.pc
    case ImportScan(b, latest, known, slot) =>
      if slot < w.nextSlot || w.current.None? || b.ids == [] then None
      else
        (match CheckKnown(known, b.ids, b.ids[0], Digest(b.ids, b.chunks))
        case Mismatch => FinishImport(st, w, InvalidRequest, 0, None)
        case Seen(already, prior) =>
          if already == |b.ids| then
            if prior <= latest.published then
              FinishImport(st, w, AlreadyCommitted, prior, Some(Ack(b, prior, true)))
            else if b.immediate then Jump(st, w, Publishing(b, prior, latest.epoch, 0))
            else FinishImport(st, w, Durable, prior, Some(Ack(b, prior, false)))
          else if already != 0 || w.nextSlot == MAX_U64 then FinishImport(st, w, InvalidRequest, 0, None)
          else
            var wal := AppendWal(b, w.current.value.epoch, w.nextSlot);
            Send(st, id, w.own, PutWal(wal), w, ImportWait(b, wal, |st.requests|)))
    case _ => None
  }

  function ImportGot(st: Store, w: Writer, r: Reply): Option<Out> {
    match w.pc
    case ImportWait(b, wal, rid) =>
      if !ReplyOk(st, rid, r) then None
      else if r.Applied? then ImportDone(st, w, b, wal)
      else Jump(st, w, ImportResolve(b, wal))
    case _ => None
  }

  /** The create did not report success: read the slot to learn whose entry it holds. */
  function Resolve(st: Store, w: Writer): Option<Out> {
    match w.pc
    case ImportResolve(b, wal) =>
      if wal.slot !in st.slots then FinishImport(st, w, ImportRetry, 0, None)
      else if st.slots[wal.slot].epoch != wal.epoch then FinishImport(st, w.(current := None), Fenced, 0, None)
      else if st.slots[wal.slot] != wal then FinishImport(st, w, ImportRetry, 0, None)
      else ImportDone(st, w, b, wal)
    case _ => None
  }

  function PublishGo(id: nat, st: Store, w: Writer): Option<Out> {
    match w.pc
    case Publishing(b, slot, epoch, attempt) =>
      if attempt >= w.maxAttempts || !HasCurrent(st) then FinishImport(st, w, ImportRetry, slot, None)
      else
        var latest := Current(st);
        if latest.published >= slot then
          var w1 := w.(current := Some(latest));
          Some(Out(st, w1.(pc := Idle, answer := ImportResult(w1, Committed, slot)),
                   Some(Ack(b, slot, true)), latest.epoch != epoch))
        else if latest.epoch != epoch then FinishImport(st, w, ImportRetry, slot, None)
        else
          var next := latest.(published := slot, version := latest.version + 1);
          Send(st, id, w.own, Cas(latest, next), w, PublishWait(b, slot, epoch, attempt, next, |st.requests|))
    case _ => None
  }

  function PublishGot(st: Store, w: Writer, r: Reply): Option<Out> {
    match w.pc
    case PublishWait(b, slot, epoch, attempt, next, rid) =>
      if !ReplyOk(st, rid, r) then None
      else if r.Applied? then
        FinishImport(st, w.(current := Some(next)), Committed, slot, Some(Ack(b, slot, true)))
      else Jump(st, w, Publishing(b, slot, epoch, attempt + 1))
    case _ => None
  }

  function FirstOf(a: Option<Out>, b: Option<Out>): Option<Out> {
    if a.Some? then a else b
  }

  /** One step of writer `id`; None when the input does not fit where the writer stands. */
  function Next(id: nat, st: Store, w: Writer, inp: Input): Option<Out> {
    match inp
    case CallStart => Call(st, w, inp)
    case CallImport(_) => Call(st, w, inp)
    case Throw => if w.pc.Idle? then None else Raise(st, w)
    case Go =>
      FirstOf(StartGo(id, st, w), FirstOf(ScanGo(id, st, w), FirstOf(ImportGo(st, w),
        FirstOf(Decide(id, st, w), FirstOf(Resolve(st, w), PublishGo(id, st, w))))))
    case Got(r) =>
      FirstOf(StartGot(st, w, r), FirstOf(ScanGot(st, w, r), FirstOf(ImportGot(st, w, r), PublishGot(st, w, r))))
  }
}
