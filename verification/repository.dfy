/** The durable tables, the repository functions on them, and the session that holds them. */
module Repository {
  import opened Wrappers
  import opened Text
  import opened Projector
  import opened Consumer
  import opened EventIds
  import opened Reconcile

  datatype Status = Canonical | Unfinalized | Uncertain

  /** The payload column holds sorted JSON, which stands for the dictionary of the payload pairs. */
  datatype EventRow = EventRow(
    key: EventKey, blockNumber: int, blockHash: string, name: string, payload: map<string, string>, status: Status)

  datatype RawRow = RawRow(
    chainId: int, contractAddress: string, transactionHash: string, logIndex: int,
    blockNumber: int, blockHash: string, topics: seq<string>, dataHex: string)

  datatype CheckpointRow = CheckpointRow(blockHash: string, finalized: bool)

  datatype Tables = Tables(
    events: map<string, EventRow>,
    rawLogs: map<string, RawRow>,
    checkpoints: map<(int, int), CheckpointRow>,
    findings: Findings)

  const NO_ROWS := Tables(map[], map[], map[], map[])

  function Dictionary(pairs: seq<(string, string)>): map<string, string> {
    if pairs == [] then map[]
    else Dictionary(pairs[..|pairs| - 1])[pairs[|pairs| - 1].0 := pairs[|pairs| - 1].1]
  }

  // ---------- the repository functions on values ----------

  predicate Matches(raw: RawChainLog, e: CanonicalEvent) {
    && raw.blockNumber == e.blockNumber && raw.blockHash == e.blockHash
    && Lower(raw.transactionHash) == Lower(e.key.transactionHash)
    && raw.logIndex == e.key.logIndex
    && Lower(raw.address) == Lower(e.key.contractAddress)
  }

  function RawRowOf(e: CanonicalEvent, topics: seq<string>, dataHex: string): RawRow {
    RawRow(e.key.chainId, Lower(e.key.contractAddress), Lower(e.key.transactionHash), e.key.logIndex,
           e.blockNumber, e.blockHash, topics, dataHex)
  }

  /** `insert_raw_chain_log`. */
  function InsertedRawLog(t: Tables, e: CanonicalEvent, raw: RawChainLog): (Tables, Outcome<()>) {
    if !ValidKey(e.key) then (t, Raised(ValueError))
    else if !Matches(raw, e) then (t, Raised(PersistenceConflict))
    else
      var id, row := EventId(e.key), RawRowOf(e, raw.topics, Lower(raw.data));
      if id in t.rawLogs then (t, if t.rawLogs[id] != row then Raised(PersistenceConflict) else Returned(()))
      else (t.(rawLogs := t.rawLogs[id := row]), Returned(()))
  }

  function EventRowOf(e: CanonicalEvent, status: Status): EventRow {
    EventRow(e.key, e.blockNumber, e.blockHash, e.name, Dictionary(e.payload), status)
  }

  predicate SameContent(row: EventRow, e: CanonicalEvent) {
    row.blockNumber == e.blockNumber && row.blockHash == e.blockHash && row.name == e.name
    && row.payload == Dictionary(e.payload)
  }

  /** `insert_canonical_event`: an existing row is returned as it is, whatever its status. */
  function InsertedEvent(t: Tables, e: CanonicalEvent, status: Status): (Tables, Outcome<EventRow>) {
    if !ValidKey(e.key) then (t, Raised(ValueError))
    else
      var id := EventId(e.key);
      if id in t.events then
        (t, if !SameContent(t.events[id], e) then Raised(PersistenceConflict) else Returned(t.events[id]))
      else (t.(events := t.events[id := EventRowOf(e, status)]), Returned(EventRowOf(e, status)))
  }

  /** `record_block_checkpoint`. */
  function RecordedCheckpoint(t: Tables, chainId: int, number: int, hash: string, finalized: bool)
    : (Tables, Outcome<()>)
  {
    if chainId < 1 || number < 0 || !IsText(hash, 66) then (t, Raised(ValueError))
    else if (chainId, number) in t.checkpoints then
      var row := t.checkpoints[(chainId, number)];
      if row.blockHash != hash then (t, Raised(PersistenceConflict))
      else (t.(checkpoints := t.checkpoints[(chainId, number) := row.(finalized := row.finalized || finalized)]),
            Returned(()))
    else (t.(checkpoints := t.checkpoints[(chainId, number) := CheckpointRow(hash, finalized)]), Returned(()))
  }

  predicate Selected(row: EventRow, chainId: int, contract: string) {
    row.key.chainId == chainId && row.key.contractAddress == Lower(contract)
  }

  predicate ToWithhold(row: EventRow, chainId: int, contract: string, number: int) {
    Selected(row, chainId, contract) && row.blockNumber >= number && row.status != Uncertain
  }

  /** `mark_events_uncertain_from`: one UPDATE statement, and its row count. */
  function MarkedUncertain(t: Tables, chainId: int, contract: string, number: int): (Tables, Outcome<nat>) {
    if chainId < 1 || number < 0 || !IsText(contract, 42) then (t, Raised(ValueError))
    else
      (t.(events := map id | id in t.events ::
                      if ToWithhold(t.events[id], chainId, contract, number) then t.events[id].(status := Uncertain)
                      else t.events[id]),
       Returned(|set id | id in t.events && ToWithhold(t.events[id], chainId, contract, number)|))
  }

  predicate ToFinalize(row: EventRow, chainId: int, contract: string, through: int) {
    Selected(row, chainId, contract) && row.blockNumber <= through && row.status == Unfinalized
  }

  /** `finalize_events_through`. */
  function FinalizedThrough(t: Tables, chainId: int, contract: string, through: int): (Tables, Outcome<()>) {
    if chainId < 1 || through < 0 || !IsText(contract, 42) then (t, Raised(ValueError))
    else
      (t.(events := map id | id in t.events ::
                      if ToFinalize(t.events[id], chainId, contract, through) then t.events[id].(status := Canonical)
                      else t.events[id]),
       Returned(()))
  }

  /** `remove_checkpoints_from`. */
  function RemovedCheckpoints(t: Tables, chainId: int, number: int): (Tables, Outcome<()>) {
    if chainId < 1 || number < 0 then (t, Raised(ValueError))
    else
      (t.(checkpoints := map k | k in t.checkpoints && !(k.0 == chainId && k.1 >= number) :: t.checkpoints[k]),
       Returned(()))
  }

  /** `restore_replayed_event`: the restored row becomes canonical, whatever its depth. */
  function Restored(t: Tables, e: CanonicalEvent): (Tables, Outcome<EventRow>) {
    var (t1, r) := InsertedEvent(t, e, Canonical);
    if r.Raised? || r.value.status != Uncertain then (t1, r)
    else
      var row := r.value.(status := Canonical);
      (t1.(events := t1.events[EventId(e.key) := row]), Returned(row))
  }

  // ---------- the session ----------

  class Session {
    var events: map<string, EventRow>
    var rawLogs: map<string, RawRow>
    var checkpoints: map<(int, int), CheckpointRow>
    var findings: Findings

    ghost function View(): Tables
      reads this
    {
      Tables(events, rawLogs, checkpoints, findings)
    }

    constructor ()
      ensures View() == NO_ROWS
    {
      events, rawLogs, checkpoints, findings := map[], map[], map[], map[];
    }

    method InsertRawChainLog(e: CanonicalEvent, raw: RawChainLog) returns (r: Outcome<()>)
      modifies this`rawLogs
      ensures (View(), r) == InsertedRawLog(old(View()), e, raw)
    {
      if !ValidKey(e.key) {
        return Raised(ValueError);
      }
      if !Matches(raw, e) {
        return Raised(PersistenceConflict);
      }
      var id := EventId(e.key);
      var row := RawRowOf(e, raw.topics, Lower(raw.data));
      if id in rawLogs {
        return if rawLogs[id] != row then Raised(PersistenceConflict) else Returned(());
      }
      rawLogs := rawLogs[id := row];
      return Returned(());
    }

    method InsertCanonicalEvent(e: CanonicalEvent, status: Status) returns (r: Outcome<EventRow>)
      modifies this`events
      ensures (View(), r) == InsertedEvent(old(View()), e, status)
    {
      if !ValidKey(e.key) {
        return Raised(ValueError);
      }
      var id := EventId(e.key);
      if id in events {
        return if !SameContent(events[id], e) then Raised(PersistenceConflict) else Returned(events[id]);
      }
      var row := EventRowOf(e, status);
      events := events[id := row];
      return Returned(row);
    }

    method RecordBlockCheckpoint(chainId: int, number: int, hash: string, finalized: bool) returns (r: Outcome<()>)
      modifies this`checkpoints
      ensures (View(), r) == RecordedCheckpoint(old(View()), chainId, number, hash, finalized)
    {
      if chainId < 1 || number < 0 || !IsText(hash, 66) {
        return Raised(ValueError);
      }
      if (chainId, number) in checkpoints {
        var row := checkpoints[(chainId, number)];
        if row.blockHash != hash {
          return Raised(PersistenceConflict);
        }
        if finalized && !row.finalized {
          checkpoints := checkpoints[(chainId, number) := row.(finalized := true)];
        }
        assert checkpoints == old(checkpoints)[(chainId, number) := row.(finalized := row.finalized || finalized)];
        return Returned(());
      }
      checkpoints := checkpoints[(chainId, number) := CheckpointRow(hash, finalized)];
      return Returned(());
    }

    method MarkEventsUncertainFrom(chainId: int, contract: string, number: int) returns (r: Outcome<nat>)
      modifies this`events
      ensures (View(), r) == MarkedUncertain(old(View()), chainId, contract, number)
    {
      if chainId < 1 || number < 0 || !IsText(contract, 42) {
        return Raised(ValueError);
      }
      var affected := set id | id in events && ToWithhold(events[id], chainId, contract, number);
      events := map id | id in events ::
                  if ToWithhold(events[id], chainId, contract, number) then events[id].(status := Uncertain)
                      else events[id];
      return Returned(|affected|);
    }

    method FinalizeEventsThrough(chainId: int, contract: string, through: int) returns (r: Outcome<()>)
      modifies this`events
      ensures (View(), r) == FinalizedThrough(old(View()), chainId, contract, through)
    {
      if chainId < 1 || through < 0 || !IsText(contract, 42) {
        return Raised(ValueError);
      }
      events := map id | id in events ::
                  if ToFinalize(events[id], chainId, contract, through) then events[id].(status := Canonical)
                      else events[id];
      return Returned(());
    }

    method RemoveCheckpointsFrom(chainId: int, number: int) returns (r: Outcome<()>)
      modifies this`checkpoints
      ensures (View(), r) == RemovedCheckpoints(old(View()), chainId, number)
    {
      if chainId < 1 || number < 0 {
        return Raised(ValueError);
      }
      checkpoints := map k | k in checkpoints && !(k.0 == chainId && k.1 >= number) :: checkpoints[k];
      return Returned(());
    }

    method RestoreReplayedEvent(e: CanonicalEvent) returns (r: Outcome<EventRow>)
      modifies this`events
      ensures (View(), r) == Restored(old(View()), e)
    {
      r := InsertCanonicalEvent(e, Canonical);
      if r.Returned? && r.value.status == Uncertain {
        r := Returned(r.value.(status := Canonical));
        events := events[EventId(e.key) := r.value];
      }
    }

    method InsertReconciliationFinding(d: Drift) returns (r: Outcome<()>)
      modifies this`findings
      ensures (findings, r) == InsertedFinding(old(findings), d)
    {
      if !Storable(d) {
        return Raised(ValueError);
      }
      if d in findings {
        return if findings[d].content != d then Raised(PersistenceConflict) else Returned(());
      }
      findings := findings[d := Finding(d, true)];
      return Returned(());
    }

    /** The database's rollback to an earlier content of the tables. */
    method Restore(events: map<string, EventRow>, rawLogs: map<string, RawRow>,
                   checkpoints: map<(int, int), CheckpointRow>, findings: Findings)
      modifies this
      ensures View() == Tables(events, rawLogs, checkpoints, findings)
    {
      this.events, this.rawLogs, this.checkpoints, this.findings := events, rawLogs, checkpoints, findings;
    }
  }
}
