/** The snapshot loader: pin CURRENT, read its manifest, replay the published tail, probe further. */
module Reader {
  import opened Table
  import opened Store
  import Writer

  const MAX_LOAD_ATTEMPTS: nat := 2

  datatype Snapshot = Snapshot(
    state: State,
    files: seq<DataFile>,
    walSlots: seq<nat>,
    chunks: seq<Chunk>,
    probed: nat,
    limitReached: bool,
    limit: nat,
    acked: set<Writer.Ack>
  )

  /**
   `limit` and `acked` of a snapshot are history variables: how far the load was allowed to probe, and the positive
   answers given before CURRENT was read.
  */
  datatype Pc =
    | Idle
    | Load(limit: nat, attempt: nat)
    | LoadManifest(limit: nat, attempt: nat, cur: State, acked: set<Writer.Ack>)
    | Required(limit: nat, attempt: nat, part: Snapshot, slot: nat)
    | Probing(limit: nat, part: Snapshot, slot: nat)
    | Failed

  datatype Input = CallLoad(limit: nat) | Go | Throw
  datatype Out = Out(pc: Pc, done: Option<Snapshot>)

  function Replay(part: Snapshot, wal: Wal): Snapshot {
    var p := part.(walSlots := part.walSlots + [wal.slot]);
    if wal.kind == Append then p.(chunks := p.chunks + wal.chunks) else p
  }

  function Step(st: Store, acks: set<Writer.Ack>, pc: Pc): Option<Out> {
    match pc
    case Idle => None
    case Failed => None
    case Load(limit, attempt) =>
      if attempt >= MAX_LOAD_ATTEMPTS then Some(Out(Failed, None))
      else if !HasCurrent(st) then Some(Out(Idle, None))
      else Some(Out(LoadManifest(limit, attempt, Current(st), acks), None))
    case LoadManifest(limit, attempt, cur, acked) =>
      if cur.manifest in st.manifests && st.manifests[cur.manifest].covered == cur.indexed then
        var part := Snapshot(cur, st.manifests[cur.manifest].files, [], [], 0, false, limit, acked);
        Some(Out(Required(limit, attempt, part, cur.indexed), None))
      else Some(Out(Failed, None))
    case Required(limit, attempt, part, slot) =>
      if slot >= part.state.published then Some(Out(Probing(limit, part, slot), None))
      else if slot + 1 in st.slots then
        Some(Out(Required(limit, attempt, Replay(part, st.slots[slot + 1]), slot + 1), None))
      else Some(Out(Load(limit, attempt + 1), None))
    case Probing(limit, part, slot) =>
      if part.probed < limit && slot < MAX_U64 && slot + 1 in st.slots then
        Some(Out(Probing(limit, Replay(part, st.slots[slot + 1]).(probed := part.probed + 1), slot + 1), None))
      else
        Some(Out(Idle, Some(part.(limitReached := limit > 0 && part.probed == limit))))
  }

  /** One step of a reader; a finished load hands out its snapshot. */
  function Next(st: Store, acks: set<Writer.Ack>, pc: Pc, inp: Input): Option<Out> {
    match inp
    case CallLoad(limit) => if pc.Idle? then Some(Out(Load(limit, 0), None)) else None
    case Throw => if pc.Idle? then None else Some(Out(Idle, None))
    case Go => Step(st, acks, pc)
  }

  /** What a scan over the snapshot yields: the data files, then the replayed WAL chunks. */
  function ScanRows(st: Store, s: Snapshot): seq<Row> {
    FileRows(st.files, s.files) + ConcatRows(s.chunks)
  }
}
