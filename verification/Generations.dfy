/** CURRENT as bytes: compare-and-swap by content is as strong as by a generation counter. */
module Generations {
  import opened Table
  import opened StoredObjects
  import C = ObjectCodec
  import St = Store
  import Sys = System
  import I = Invariant
  import SS = SystemSafety

  /** In every run no two CURRENT values encode alike, so equal bytes mean the same generation. */
  lemma CurrentBytesNeverRepeat(schema: Schema, events: seq<Sys.Event>, tableId: Bytes, i: nat, j: nat)
    requires Sys.Run(schema, events).Some? && TableOk(tableId, schema)
    requires var h := Sys.Run(schema, events).value.store.history;
      i < |h| && j < |h| && StateFits(h[i]) && StateFits(h[j])
    ensures var h := Sys.Run(schema, events).value.store.history;
      C.EncodeState(StoredState(h[i], tableId)) == C.EncodeState(StoredState(h[j], tableId)) <==> i == j
  {
    hide Sys.Run, C.EncodeState, SS.ActorsOk, SS.RecordsOk;
    SS.Safety(schema, events);
    var st := Sys.Run(schema, events).value.store;
    Versions(st, i, j);
    StateEncodes(st, st.history[i], tableId, schema);
    var a, b := StoredState(st.history[i], tableId), StoredState(st.history[j], tableId);
    if C.EncodeState(a) == C.EncodeState(b) && i != j {
      C.StateBytesDiffer(a, b);
    }
  }

  lemma Versions(st: St.Store, i: nat, j: nat)
    requires I.StoreInv(st) && i < |st.history| && j < |st.history|
    ensures st.history[i].version == i && st.history[j].version == j
  {
  }

  /** What a reader decodes from CURRENT's bytes is the state that was written. */
  lemma CurrentReadsBack(schema: Schema, events: seq<Sys.Event>, tableId: Bytes, s: St.State)
    requires Sys.Run(schema, events).Some? && TableOk(tableId, schema)
    requires s in Sys.Run(schema, events).value.store.history && StateFits(s)
    ensures C.EncodeState(StoredState(s, tableId)).Some?
    ensures C.DecodeState(C.EncodeState(StoredState(s, tableId)).value) == Some(StoredState(s, tableId))
  {
    hide Sys.Run, C.EncodeState, C.DecodeState, SS.ActorsOk, SS.RecordsOk;
    SS.Safety(schema, events);
    StateEncodes(Sys.Run(schema, events).value.store, s, tableId, schema);
    C.StateCodecExact(C.EncodeState(StoredState(s, tableId)).value, StoredState(s, tableId));
  }
}
