/** What the log means for the stored documents, and why replaying it after a crash is harmless:
    whatever part of it had already reached the store, and however often the replay itself is
    cut short, the same documents come out. */
module WalReplay {
  import opened Options

  type Source = seq<int>

  datatype Input = Input(id: string, source: Source)

  datatype Record =
    | Create(inputs: seq<Input>)
    | Upsert(inputs: seq<Input>)
    | Replace(inputs: seq<Input>)
    | Delete(ids: seq<string>)
    | Clear

  /** The document store: source by external id. */
  type Docs = map<string, Source>

  // ---------------------------------------------------------------------------------------
  // Applying a record for the first time.
  // ---------------------------------------------------------------------------------------

  /** A batch of new documents; an id already stored or seen in the batch is rejected. */
  function PutAll(docs: Docs, inputs: seq<Input>): Docs
    decreases |inputs|
  {
    if inputs == [] then docs
    else PutAll(if inputs[0].id in docs then docs else docs[inputs[0].id := inputs[0].source], inputs[1..])
  }

  function UpsertAll(docs: Docs, inputs: seq<Input>): Docs
    decreases |inputs|
  {
    if inputs == [] then docs else UpsertAll(docs[inputs[0].id := inputs[0].source], inputs[1..])
  }

  function RemoveAll(docs: Docs, ids: seq<string>): Docs
    decreases |ids|
  {
    if ids == [] then docs else RemoveAll(docs - {ids[0]}, ids[1..])
  }

  function ApplyRecord(docs: Docs, r: Record): Docs
  {
    match r
    case Create(inputs) => PutAll(docs, inputs)
    case Upsert(inputs) => UpsertAll(docs, inputs)
    case Replace(inputs) => UpsertAll(docs, inputs)
    case Delete(ids) => RemoveAll(docs, ids)
    case Clear => map[]
  }

  function ApplyAll(docs: Docs, records: seq<Record>): Docs
    decreases |records|
  {
    if records == [] then docs else ApplyAll(ApplyRecord(docs, records[0]), records[1..])
  }

  // ---------------------------------------------------------------------------------------
  // The replay loops of `start`.
  // ---------------------------------------------------------------------------------------

  function NotStored(docs: Docs, inputs: seq<Input>): seq<Input>
  {
    if inputs == [] then []
    else (if inputs[0].id in docs then [] else [inputs[0]]) + NotStored(docs, inputs[1..])
  }

  const MIN_INDEX_BATCH: nat := 4096

  /** The import pipeline: `seen` covers documents of the batch not yet handed to the store. A
      batch is handed over at `batchSize`, or earlier when the index is idle. */
  method PutDocuments(docs: Docs, inputs: seq<Input>, batchSize: nat, idle: nat -> bool) returns (stored: Docs)
    requires batchSize > 0
    ensures stored == PutAll(docs, inputs)
  {
    stored := docs;
    var seen: set<string>, batch: seq<Input> := {}, [];
    for k := 0 to |inputs|
      invariant PutAll(UpsertAll(stored, batch), inputs[k..]) == PutAll(docs, inputs)
      invariant forall id :: id in UpsertAll(stored, batch) <==> id in stored || id in seen
    {
      ghost var before := UpsertAll(stored, batch);
      assert inputs[k..][0] == inputs[k] && inputs[k..][1..] == inputs[k + 1..];
      if !(inputs[k].id in seen || inputs[k].id in stored) {
        seen := seen + {inputs[k].id};
        UpsertAllConcat(stored, batch, [inputs[k]]);
        batch := batch + [inputs[k]];
        assert UpsertAll(stored, batch) == before[inputs[k].id := inputs[k].source];
      }
      if |batch| >= batchSize || (|batch| >= MIN_INDEX_BATCH && idle(k)) {
        stored, batch := UpsertAll(stored, batch), [];
      }
    }
    stored := UpsertAll(stored, batch);
    assert inputs[|inputs|..] == [];
  }

  lemma {:induction false} UpsertAllConcat(docs: Docs, a: seq<Input>, b: seq<Input>)
    ensures UpsertAll(docs, a + b) == UpsertAll(UpsertAll(docs, a), b)
    decreases |a|
  {
    if a == [] { assert a + b == b; }
    else { assert (a + b)[1..] == a[1..] + b; UpsertAllConcat(docs[a[0].id := a[0].source], a[1..], b); }
  }

  /** Stored documents with the same source are indexed again, others are left alone. Neither
      changes the stored documents; the rest is collected. */
  method KeepStored(docs: Docs, inputs: seq<Input>) returns (stored: Docs, unstored: seq<Input>)
    ensures stored == docs && unstored == NotStored(docs, inputs)
  {
    stored, unstored := docs, [];
    for k := 0 to |inputs|
      invariant stored == docs
      invariant unstored + NotStored(docs, inputs[k..]) == NotStored(docs, inputs)
    {
      var input := inputs[k];
      assert inputs[k..][0] == input && inputs[k..][1..] == inputs[k + 1..];
      if input.id !in stored {
        assert unstored + ([input] + NotStored(docs, inputs[k + 1..])) == unstored + [input] + NotStored(docs, inputs[k + 1..]);
        unstored := unstored + [input];
      } else if stored[input.id] == input.source {
        stored := stored[input.id := input.source];
      }
    }
    assert inputs[|inputs|..] == [];
  }

  /** Replay of a Create, which for the documents is a first application. */
  method ReplayCreate(docs: Docs, inputs: seq<Input>, batchSize: nat, idle: nat -> bool) returns (stored: Docs)
    requires batchSize > 0
    ensures stored == PutAll(docs, inputs)
  {
    var kept, unstored := KeepStored(docs, inputs);
    StoredInputsChangeNothing(docs, docs, inputs);
    stored := PutDocuments(kept, unstored, batchSize, idle);
  }

  lemma {:induction false} StoredInputsChangeNothing(docs: Docs, later: Docs, inputs: seq<Input>)
    requires docs.Keys <= later.Keys
    ensures PutAll(later, NotStored(docs, inputs)) == PutAll(later, inputs)
    decreases |inputs|
  {
    if inputs != [] {
      var next := if inputs[0].id in later then later else later[inputs[0].id := inputs[0].source];
      StoredInputsChangeNothing(docs, next, inputs[1..]);
      if inputs[0].id in docs {
        assert NotStored(docs, inputs) == NotStored(docs, inputs[1..]);
      } else {
        assert NotStored(docs, inputs)[1..] == NotStored(docs, inputs[1..]);
      }
    }
  }

  /** Position after the last Clear, 0 if there is none. */
  function AfterLastClear(records: seq<Record>): (at: nat)
    ensures at <= |records|
    ensures forall k :: at <= k < |records| ==> records[k] != Clear
    ensures at > 0 ==> records[at - 1] == Clear
  {
    if records == [] then 0
    else if records[|records| - 1] == Clear then |records|
    else AfterLastClear(records[..|records| - 1])
  }

  lemma {:induction false} LastClearIsAt(records: seq<Record>, from: nat)
    requires from <= |records| && forall k :: from <= k < |records| ==> records[k] != Clear
    requires from > 0 ==> records[from - 1] == Clear
    ensures from == AfterLastClear(records)
    decreases |records|
  {
    if from < |records| { LastClearIsAt(records[..|records| - 1], from); }
  }

  /** `start`: finish an interrupted clear, then replay what follows it. */
  method Start(stored: Docs, records: seq<Record>, batchSize: nat, idle: nat -> bool) returns (docs: Docs)
    requires batchSize > 0
    ensures docs == ApplyAll(if AfterLastClear(records) > 0 then map[] else stored,
                             records[AfterLastClear(records)..])
  {
    var from := |records|;
    while from > 0 && records[from - 1] != Clear
      invariant 0 <= from <= |records| && forall k :: from <= k < |records| ==> records[k] != Clear
    {
      from := from - 1;
    }
    LastClearIsAt(records, from);
    docs := if from > 0 then map[] else stored;
    ghost var origin := docs;
    for k := from to |records|
      invariant ApplyAll(docs, records[k..]) == ApplyAll(origin, records[from..])
    {
      assert records[k..][0] == records[k] && records[k..][1..] == records[k + 1..];
      match records[k]
      case Create(inputs) => docs := ReplayCreate(docs, inputs, batchSize, idle);
      case Upsert(inputs) => docs := UpsertAll(docs, inputs);
      case Replace(inputs) => docs := UpsertAll(docs, inputs);
      case Delete(ids) => docs := RemoveAll(docs, ids);
      case Clear => assert false;
    }
    assert records[|records|..] == [];
  }

  // ---------------------------------------------------------------------------------------
  // One document at a time.
  // ---------------------------------------------------------------------------------------

  /** What one entry of a record does to its document. */
  datatype Op = PutNew(source: Source) | Set(source: Source) | Remove

  function Get(docs: Docs, id: string): Option<Source>
  {
    if id in docs then Some(docs[id]) else None
  }

  function Act(v: Option<Source>, op: Op): Option<Source>
  {
    match op
    case PutNew(source) => if v.Some? then v else Some(source)
    case Set(source) => Some(source)
    case Remove => None
  }

  function ActAll(v: Option<Source>, ops: seq<Op>): Option<Source>
    decreases |ops|
  {
    if ops == [] then v else ActAll(Act(v, ops[0]), ops[1..])
  }

  function InputOps(inputs: seq<Input>, id: string, creates: bool): seq<Op>
  {
    if inputs == [] then []
    else (if inputs[0].id != id then []
          else if creates then [PutNew(inputs[0].source)] else [Set(inputs[0].source)])
         + InputOps(inputs[1..], id, creates)
  }

  function RemoveOps(ids: seq<string>, id: string): seq<Op>
  {
    if ids == [] then [] else (if ids[0] == id then [Remove] else []) + RemoveOps(ids[1..], id)
  }

  function RecordOps(r: Record, id: string): seq<Op>
  {
    match r
    case Create(inputs) => InputOps(inputs, id, true)
    case Upsert(inputs) => InputOps(inputs, id, false)
    case Replace(inputs) => InputOps(inputs, id, false)
    case Delete(ids) => RemoveOps(ids, id)
    case Clear => [Remove]
  }

  /** Everything the log does to document `id`, in order. */
  function OpsOn(records: seq<Record>, id: string): seq<Op>
  {
    if records == [] then [] else RecordOps(records[0], id) + OpsOn(records[1..], id)
  }

  lemma {:induction false} ActAllConcat(v: Option<Source>, a: seq<Op>, b: seq<Op>)
    ensures ActAll(v, a + b) == ActAll(ActAll(v, a), b)
    decreases |a|
  {
    if a == [] { assert a + b == b; }
    else { assert (a + b)[1..] == a[1..] + b; ActAllConcat(Act(v, a[0]), a[1..], b); }
  }

  lemma {:induction false} PutAllPerDocument(docs: Docs, inputs: seq<Input>, id: string)
    ensures Get(PutAll(docs, inputs), id) == ActAll(Get(docs, id), InputOps(inputs, id, true))
    decreases |inputs|
  {
    if inputs != [] {
      var next := if inputs[0].id in docs then docs else docs[inputs[0].id := inputs[0].source];
      PutAllPerDocument(next, inputs[1..], id);
      var first := if inputs[0].id == id then [PutNew(inputs[0].source)] else [];
      ActAllConcat(Get(docs, id), first, InputOps(inputs[1..], id, true));
    }
  }

  lemma {:induction false} UpsertAllPerDocument(docs: Docs, inputs: seq<Input>, id: string)
    ensures Get(UpsertAll(docs, inputs), id) == ActAll(Get(docs, id), InputOps(inputs, id, false))
    decreases |inputs|
  {
    if inputs != [] {
      UpsertAllPerDocument(docs[inputs[0].id := inputs[0].source], inputs[1..], id);
      var first := if inputs[0].id == id then [Set(inputs[0].source)] else [];
      ActAllConcat(Get(docs, id), first, InputOps(inputs[1..], id, false));
    }
  }

  lemma {:induction false} RemoveAllPerDocument(docs: Docs, ids: seq<string>, id: string)
    ensures Get(RemoveAll(docs, ids), id) == ActAll(Get(docs, id), RemoveOps(ids, id))
    decreases |ids|
  {
    if ids != [] {
      RemoveAllPerDocument(docs - {ids[0]}, ids[1..], id);
      ActAllConcat(Get(docs, id), if ids[0] == id then [Remove] else [], RemoveOps(ids[1..], id));
    }
  }

  /** The log acts on each document separately. */
  lemma {:induction false} ApplyAllPerDocument(docs: Docs, records: seq<Record>, id: string)
    ensures Get(ApplyAll(docs, records), id) == ActAll(Get(docs, id), OpsOn(records, id))
    decreases |records|
  {
    if records != [] {
      var r := records[0];
      ApplyAllPerDocument(ApplyRecord(docs, r), records[1..], id);
      ActAllConcat(Get(docs, id), RecordOps(r, id), OpsOn(records[1..], id));
      match r
      case Create(inputs) => PutAllPerDocument(docs, inputs, id);
      case Upsert(inputs) => UpsertAllPerDocument(docs, inputs, id);
      case Replace(inputs) => UpsertAllPerDocument(docs, inputs, id);
      case Delete(ids) => RemoveAllPerDocument(docs, ids, id);
      case Clear =>
    }
  }

  // ---------------------------------------------------------------------------------------
  // Replaying over any part of the effect.
  // ---------------------------------------------------------------------------------------

  /** An entry that fixes the document whatever was stored before. */
  predicate Fixes(op: Op) { !op.PutNew? }

  ghost predicate SomeFixes(ops: seq<Op>) { exists k :: 0 <= k < |ops| && Fixes(ops[k]) }

  /** From `v` the log ends where it ends from `origin`: an entry fixes the document on the way,
      or `v` is what `origin` is, or becomes by the first entry. */
  ghost predicate Recoverable(v: Option<Source>, origin: Option<Source>, ops: seq<Op>)
  {
    SomeFixes(ops) || v == origin || (ops != [] && v == Act(origin, ops[0]))
  }

  lemma {:induction false} FixedValueIsKnown(v: Option<Source>, w: Option<Source>, ops: seq<Op>)
    requires SomeFixes(ops)
    ensures ActAll(v, ops) == ActAll(w, ops)
    decreases |ops|
  {
    if !Fixes(ops[0]) {
      var k :| 0 <= k < |ops| && Fixes(ops[k]);
      assert ops[1..][k - 1] == ops[k];
      FixedValueIsKnown(Act(v, ops[0]), Act(w, ops[0]), ops[1..]);
    }
  }

  lemma {:induction false} PresentDocumentStays(v: Option<Source>, ops: seq<Op>)
    requires v.Some? && !SomeFixes(ops)
    ensures ActAll(v, ops) == v
  {
    if ops != [] {
      assert !Fixes(ops[0]);
      assert forall k :: 0 <= k < |ops[1..]| ==> ops[1..][k] == ops[k + 1];
      PresentDocumentStays(v, ops[1..]);
    }
  }

  lemma RecoverableReplays(v: Option<Source>, origin: Option<Source>, ops: seq<Op>)
    requires Recoverable(v, origin, ops)
    ensures ActAll(v, ops) == ActAll(origin, ops)
  {
    if SomeFixes(ops) {
      FixedValueIsKnown(v, origin, ops);
    } else if v != origin {
      assert !Fixes(ops[0]);
      assert Act(v, ops[0]) == v;
    }
  }

  /** Every prefix of the log leaves a recoverable value. */
  lemma {:induction false} PrefixIsRecoverable(origin: Option<Source>, ops: seq<Op>, k: nat)
    requires k <= |ops|
    ensures Recoverable(ActAll(origin, ops[..k]), origin, ops)
  {
    if k > 0 && !SomeFixes(ops) {
      assert !Fixes(ops[0]);
      assert ops[..k][1..] == ops[1..k];
      assert !SomeFixes(ops[1..k]) by {
        assert forall i :: 0 <= i < k - 1 ==> ops[1..k][i] == ops[i + 1];
      }
      PresentDocumentStays(Act(origin, ops[0]), ops[1..k]);
    }
  }

  /** So does every prefix of a replay that is itself cut short. */
  lemma {:induction false} CutReplayIsRecoverable(v: Option<Source>, origin: Option<Source>, ops: seq<Op>, k: nat)
    requires Recoverable(v, origin, ops) && k <= |ops|
    ensures Recoverable(ActAll(v, ops[..k]), origin, ops)
  {
    if k > 0 && !SomeFixes(ops) {
      assert !Fixes(ops[0]);
      assert ops[..k][1..] == ops[1..k];
      assert !SomeFixes(ops[1..k]) by {
        assert forall i :: 0 <= i < k - 1 ==> ops[1..k][i] == ops[i + 1];
      }
      PresentDocumentStays(Act(v, ops[0]), ops[1..k]);
    }
  }

  /** Per document, the store holds the effect of some prefix of the log on `origin`, or what a
      cut-short replay made of it. */
  ghost predicate StoreRecoverable(stored: Docs, origin: Docs, records: seq<Record>)
  {
    forall id :: Recoverable(Get(stored, id), Get(origin, id), OpsOn(records, id))
  }

  /** What `start` leaves in the store. */
  function Recovered(stored: Docs, records: seq<Record>): Docs
  {
    var from := AfterLastClear(records);
    ApplyAll(if from > 0 then map[] else stored, records[from..])
  }

  lemma DocsEqual(a: Docs, b: Docs)
    requires forall id :: Get(a, id) == Get(b, id)
    ensures a == b
  {
    forall id ensures (id in a <==> id in b) && (id in a ==> a[id] == b[id]) {
      assert Get(a, id) == Get(b, id);
    }
  }

  lemma {:induction false} ApplyAllConcat(docs: Docs, a: seq<Record>, b: seq<Record>)
    ensures ApplyAll(docs, a + b) == ApplyAll(ApplyAll(docs, a), b)
    decreases |a|
  {
    if a == [] { assert a + b == b; }
    else { assert (a + b)[1..] == a[1..] + b; ApplyAllConcat(ApplyRecord(docs, a[0]), a[1..], b); }
  }

  /** A logged Clear leaves exactly the effect of the records after it, from any store. */
  lemma ClearStartsOver(stored: Docs, origin: Docs, records: seq<Record>)
    requires AfterLastClear(records) > 0
    ensures Recovered(stored, records) == ApplyAll(map[], records[AfterLastClear(records)..])
    ensures Recovered(stored, records) == ApplyAll(origin, records)
  {
    var from := AfterLastClear(records);
    assert records == records[..from] + records[from..];
    assert records[..from] == records[..from - 1] + [Clear];
    ApplyAllConcat(origin, records[..from], records[from..]);
    ApplyAllConcat(origin, records[..from - 1], [Clear]);
    assert [Clear][1..] == [];
  }

  /** Replay is idempotent: from any recoverable store `start` ends with the documents that
      applying the whole log once would give. */
  lemma ReplayIsIdempotent(stored: Docs, origin: Docs, records: seq<Record>)
    requires StoreRecoverable(stored, origin, records)
    ensures Recovered(stored, records) == ApplyAll(origin, records)
  {
    if AfterLastClear(records) > 0 {
      ClearStartsOver(stored, origin, records);
    } else {
      assert records[0..] == records;
      forall id ensures Get(Recovered(stored, records), id) == Get(ApplyAll(origin, records), id) {
        ApplyAllPerDocument(stored, records, id);
        ApplyAllPerDocument(origin, records, id);
        assert Recoverable(Get(stored, id), Get(origin, id), OpsOn(records, id));
        RecoverableReplays(Get(stored, id), Get(origin, id), OpsOn(records, id));
      }
      DocsEqual(Recovered(stored, records), ApplyAll(origin, records));
    }
  }

  /** A crash at any point, per document after `done(id)` entries of the first application. */
  lemma CrashLeavesRecoverableStore(stored: Docs, origin: Docs, records: seq<Record>, done: string -> nat)
    requires forall id :: done(id) <= |OpsOn(records, id)|
    requires forall id :: Get(stored, id) == ActAll(Get(origin, id), OpsOn(records, id)[..done(id)])
    ensures StoreRecoverable(stored, origin, records)
  {
    forall id ensures Recoverable(Get(stored, id), Get(origin, id), OpsOn(records, id)) {
      PrefixIsRecoverable(Get(origin, id), OpsOn(records, id), done(id));
    }
  }

  /** A crash in the middle of a replay, per document after `done(id)` entries of it. */
  lemma CrashedReplayLeavesRecoverableStore(
      stored: Docs, cut: Docs, origin: Docs, records: seq<Record>, done: string -> nat)
    requires StoreRecoverable(stored, origin, records)
    requires forall id :: done(id) <= |OpsOn(records, id)|
    requires forall id :: Get(cut, id) == ActAll(Get(stored, id), OpsOn(records, id)[..done(id)])
    ensures StoreRecoverable(cut, origin, records)
  {
    forall id ensures Recoverable(Get(cut, id), Get(origin, id), OpsOn(records, id)) {
      assert Recoverable(Get(stored, id), Get(origin, id), OpsOn(records, id));
      CutReplayIsRecoverable(Get(stored, id), Get(origin, id), OpsOn(records, id), done(id));
    }
  }
}
