/** Any number of writers, indexers and readers over the shared stores, in any interleaving. */
module System {
  import opened Table
  import opened Store
  import Writer
  import Indexer
  import Reader

  datatype System = System(
    store: Store,
    writers: map<nat, Writer.Writer>,
    indexers: map<nat, Indexer.Indexer>,
    readers: map<nat, Reader.Pc>,
    acks: set<Writer.Ack>,
    snapshots: set<Reader.Snapshot>,
    adopted: bool
  )

  datatype Event =
    | LandRequest(rid: nat)
    | AddWriter(id: nat, maxAttempts: nat)
    | AddIndexer(id: nat, maxAttempts: nat)
    | AddReader(id: nat)
    | WriterStep(id: nat, winp: Writer.Input)
    | IndexerStep(id: nat, xinp: Indexer.Input)
    | ReaderStep(id: nat, rinp: Reader.Input)

  function Init(schema: Schema): System {
    System(Store(schema, map[], map[], map[], map[], [], [], {}, map[], map[], map[]),
           map[], map[], map[], {}, {}, false)
  }

  function AddAck(acks: set<Writer.Ack>, a: Option<Writer.Ack>): set<Writer.Ack> {
    if a.Some? then acks + {a.value} else acks
  }

  function StepWriter(s: System, id: nat, inp: Writer.Input): Option<System> {
    if id !in s.writers then None
    else
      var out := Writer.Next(id, s.store, s.writers[id], inp);
      if out.None? then None
      else Some(s.(store := out.value.store, writers := s.writers[id := out.value.writer],
                   acks := AddAck(s.acks, out.value.ack), adopted := s.adopted || out.value.adopted))
  }

  function StepIndexer(s: System, id: nat, inp: Indexer.Input): Option<System> {
    if id !in s.indexers then None
    else
      var out := Indexer.Next(id, s.store, s.indexers[id], inp);
      if out.None? then None
      else Some(s.(store := out.value.store, indexers := s.indexers[id := out.value.indexer]))
  }

  function StepReader(s: System, id: nat, inp: Reader.Input): Option<System> {
    if id !in s.readers then None
    else
      var out := Reader.Next(s.store, s.acks, s.readers[id], inp);
      if out.None? then None
      else Some(s.(readers := s.readers[id := out.value.pc],
                   snapshots := if out.value.done.Some? then s.snapshots + {out.value.done.value} else s.snapshots))
  }

  function Step(s: System, ev: Event): Option<System> {
    match ev
    case LandRequest(rid) => if CanLand(s.store, rid) then Some(s.(store := Land(s.store, rid))) else None
    case AddWriter(id, m) =>
      if id in s.writers then None else Some(s.(writers := s.writers[id := Writer.NewWriter(m)]))
    case AddIndexer(id, m) =>
      if id in s.indexers then None else Some(s.(indexers := s.indexers[id := Indexer.NewIndexer(m)]))
    case AddReader(id) =>
      if id in s.readers then None else Some(s.(readers := s.readers[id := Reader.Idle]))
    case WriterStep(id, inp) => StepWriter(s, id, inp)
    case IndexerStep(id, inp) => StepIndexer(s, id, inp)
    case ReaderStep(id, inp) => StepReader(s, id, inp)
  }

  /** The state after a run, or None if some event of it was not enabled. */
  function Run(schema: Schema, events: seq<Event>): Option<System> {
    if events == [] then Some(Init(schema))
    else
      var before := Run(schema, events[..|events| - 1]);
      if before.None? then None else Step(before.value, events[|events| - 1])
  }
}
