/** The classes of the durable side: the projection, its scanner, and the all-or-nothing runner. */
module Persistent {
  import opened Wrappers
  import opened Text
  import opened Projector
  import opened Consumer
  import opened Reconcile
  import opened Repository
  import opened DurableSteps
  import opened Abi
  import opened ScanRuns
  import opened StoredRows
  import Finality

  /** `store` is the function Store, as a value: this keeps the recursive definition out of the loop proofs. */
  ghost predicate IsStore(store: (Tables, seq<Step>) -> (Tables, Outcome<nat>), scope: Scope, head: int) {
    forall t, xs {:trigger Store(t, scope, head, xs)} :: store(t, xs) == Store(t, scope, head, xs)
  }

  predicate PlausibleAddress(address: string) {
    |address| == 42 && HasPrefix0x(address)
  }

  /** The part of a scan that fetches and stores. */
  function StoredRange(t: Tables, scope: Scope, head: int, chain: Chain, start: int, through: int,
                       address: string, decode: Decoder): (Tables, Outcome<ScanResult>)
  {
    var (t1, r) := Store(t, scope, head, ScanSteps(chain, start, through, address, decode));
    (t1, if r.Raised? then Raised(r.error)
         else Returned(ScanResult(head, through, through + 1 - start, Observed(chain, start, through), r.value)))
  }

  /** A whole call of the durable `scan`; a malformed contract address raises before anything is fetched. */
  function StoredScan(t: Tables, chainId: int, address: string, confirmations: int, provider: Provider, start: int)
    : (Tables, Outcome<ScanResult>)
  {
    if start < 0 || confirmations < 0 then (t, Raised(ValueError))
    else if provider.head.None? then (t, Raised(RpcError))
    else
      var head := provider.head.value;
      var through := head - confirmations;
      if through < start then (t, Returned(ScanResult(head, through, 0, 0, 0)))
      else if !PlausibleAddress(address) then (t, Raised(ValueError))
      else StoredRange(t, Scope(chainId, Lower(address), confirmations), head, provider.chain, start, through,
                       address, DecoderFor(chainId, address))
  }

  /** The tables after a scan of start..head - confirmations: rows in sight that are not withheld are canonical exactly
      at depth, and the checkpoints of the range are there, and final. */
  ghost predicate FinalAt(t: Tables, scope: Scope, start: int, head: int) {
    && (forall id :: id in t.events && t.events[id].key.chainId == scope.chainId
                     && t.events[id].key.contractAddress == scope.contract && t.events[id].status != Uncertain ==>
                       (t.events[id].status == Canonical <==> t.events[id].blockNumber <= head - scope.confirmations))
    && (forall n :: start <= n <= head - scope.confirmations ==>
                      (scope.chainId, n) in t.checkpoints && t.checkpoints[(scope.chainId, n)].finalized)
  }

  lemma ScanStepsNotNegative(chain: Chain, start: int, through: int, address: string, decode: Decoder)
    requires start >= 0 && CopiesBlock(decode)
    ensures Finality.NoNegatives(ScanSteps(chain, start, through, address, decode))
  {
    forall x | x in ScanSteps(chain, start, through, address, decode) && x.Project? ensures x.event.blockNumber >= 0 {
      ScanStepsInRange(chain, start, through, address, decode, x);
    }
  }

  /** A successful scan has marked each block of its range with the hash of its reply. */
  lemma BlockMarked(t: Tables, scope: Scope, head: int, chain: Chain, start: int, through: int, address: string,
                    decode: Decoder, n: int)
    requires start <= n <= through
             && Store(t, scope, head, ScanSteps(chain, start, through, address, decode)).1.Returned?
    ensures chain(n).Block?
    ensures Left(Store(t, scope, head, ScanSteps(chain, start, through, address, decode)).0, scope, head,
                 Mark(n, chain(n).hash))
  {
    StoreLeaves(t, scope, head, ScanSteps(chain, start, through, address, decode));
    BlockInScan(chain, start, n, through, address, decode);
    StoreCounts(t, scope, head, ScanSteps(chain, start, through, address, decode));
  }

  lemma StoredRangeExact(t: Tables, scope: Scope, head: int, chain: Chain, start: int, through: int, address: string,
                         decode: Decoder)
    requires Configured(scope) && Finality.NoEarlyFinality(t, scope, head) && CopiesBlock(decode)
    requires 0 <= start <= through
             && Store(t, scope, head, ScanSteps(chain, start, through, address, decode)).1.Returned?
    ensures Finality.FinalityExact(Store(t, scope, head, ScanSteps(chain, start, through, address, decode)).0, scope,
                head)
  {
    var xs := ScanSteps(chain, start, through, address, decode);
    ScanStepsNotNegative(chain, start, through, address, decode);
    ScanStepsAt(chain, start, through, address, decode);
    BlockMarked(t, scope, head, chain, start, through, address, decode, start);
    assert xs[0] == Mark(start, chain(start).hash);
    Finality.StoreIsFinal(t, scope, head, xs);
  }

  lemma StoredRangeIsFinal(t: Tables, scope: Scope, head: int, chain: Chain, start: int, through: int, address: string,
                           decode: Decoder)
    requires Configured(scope) && Finality.NoEarlyFinality(t, scope, head) && CopiesBlock(decode)
    requires 0 <= start <= through == head - scope.confirmations
    requires Store(t, scope, head, ScanSteps(chain, start, through, address, decode)).1.Returned?
    ensures FinalAt(Store(t, scope, head, ScanSteps(chain, start, through, address, decode)).0, scope, start, head)
  {
    var t1 := Store(t, scope, head, ScanSteps(chain, start, through, address, decode)).0;
    LowerIsLower(scope.contract);
    StoredRangeExact(t, scope, head, chain, start, through, address, decode);
    forall n | start <= n <= through
      ensures (scope.chainId, n) in t1.checkpoints && t1.checkpoints[(scope.chainId, n)].finalized
    {
      BlockMarked(t, scope, head, chain, start, through, address, decode, n);
    }
  }

  /** A decoder that turns every log into an event or refuses it. */
  ghost predicate NeverSkips(decode: Decoder) {
    forall log :: !decode(log).Skip?
  }

  /** What a scan that returned has stored and counted. The approved decoder is known by what the laws need of it. */
  lemma StoredScanIsStore(t: Tables, chainId: int, address: string, confirmations: int, provider: Provider, start: int)
    returns (head: int, through: int, decode: Decoder)
    requires StoredScan(t, chainId, address, confirmations, provider, start).1.Returned?
    ensures 0 <= start && 0 <= confirmations && provider.head == Some(head)
    ensures StoredScan(t, chainId, address, confirmations, provider, start).1.value.head == head
    ensures CopiesBlock(decode) && NeverSkips(decode)
    ensures through == head - confirmations
    ensures start <= through ==>
              var stored := Store(t, Scope(chainId, Lower(address), confirmations), head,
                                  ScanSteps(provider.chain, start, through, address, decode));
              && stored.1.Returned? && StoredScan(t, chainId, address, confirmations, provider, start).0 == stored.0
              && StoredScan(t, chainId, address, confirmations, provider, start).1.value ==
                 ScanResult(head, through, through + 1 - start, Observed(provider.chain, start, through),
                            stored.1.value)
    ensures start > through ==>
              StoredScan(t, chainId, address, confirmations, provider, start) ==
              (t, Returned(ScanResult(head, through, 0, 0, 0)))
  {
    head, decode := provider.head.value, DecoderFor(chainId, address);
    through := head - confirmations;
    DecoderFaithful(chainId, address);
    ApprovedNeverSkips(chainId, address);
  }

  lemma ApprovedNeverSkips(chainId: int, address: string)
    ensures NeverSkips(DecoderFor(chainId, address))
  {
  }

  /** The promise of a durable scan that returned, read off its result: a scan of at least one block, over tables in
      which nothing is final too early for the reported head, ends with finality exact at that head. */
  ghost predicate KeepsPromise(t: Tables, t1: Tables, scope: Scope, start: int, r: Outcome<ScanResult>) {
    scope.chainId >= 1 && r.Returned? && r.value.scannedBlocks > 0
        && Finality.NoEarlyFinality(t, scope, r.value.head) ==>
      FinalAt(t1, scope, start, r.value.head)
  }

  lemma PromiseKept(t: Tables, t1: Tables, scope: Scope, start: int, r: Outcome<ScanResult>, head: int, chain: Chain,
                    through: int, address: string, decode: Decoder)
    requires CopiesBlock(decode) && through == head - scope.confirmations
    requires 0 <= start <= through && scope.confirmations >= 0 && IsLower(scope.contract)
    requires Store(t, scope, head, ScanSteps(chain, start, through, address, decode)).1.Returned?
    requires t1 == Store(t, scope, head, ScanSteps(chain, start, through, address, decode)).0
    requires r.Returned? && r.value.head == head
    ensures KeepsPromise(t, t1, scope, start, r)
  {
    if scope.chainId >= 1 && Finality.NoEarlyFinality(t, scope, head) {
      StoredRangeIsFinal(t, scope, head, chain, start, through, address, decode);
    }
  }

  lemma ScanKeepsPromise(t: Tables, chainId: int, address: string, confirmations: int, provider: Provider, start: int)
    ensures var (t1, r) := StoredScan(t, chainId, address, confirmations, provider, start);
            KeepsPromise(t, t1, Scope(chainId, Lower(address), confirmations), start, r)
  {
    var (t1, r) := StoredScan(t, chainId, address, confirmations, provider, start);
    if r.Returned? {
      var head, through, decode := StoredScanIsStore(t, chainId, address, confirmations, provider, start);
      LowerIsLower(address);
      if start <= through {
        PromiseKept(t, t1, Scope(chainId, Lower(address), confirmations), start, r, head, provider.chain, through,
                    address,
                    decode);
      }
    }
  }

  // ---------- the classes ----------

  class PersistentProjection {
    const session: Session
    const scope: Scope

    constructor (session: Session, chainId: int, contract: string, confirmations: int)
      requires chainId >= 1 && confirmations >= 0
      ensures this.session == session && scope == Scope(chainId, Lower(contract), confirmations)
    {
      this.session, scope := session, Scope(chainId, Lower(contract), confirmations);
    }

    method Checkpoint(number: int, hash: string, head: int) returns (r: Outcome<()>)
      modifies session
      ensures (session.View(), r) == MarkBlock(old(session.View()), scope, number, hash, head)
    {
      if head < 0 {
        return Raised(ValueError);
      }
      var through := head - scope.confirmations;
      r := session.RecordBlockCheckpoint(scope.chainId, number, hash, number <= through);
      if r.Returned? && through >= 0 {
        r := session.FinalizeEventsThrough(scope.chainId, scope.contract, through);
      }
    }

    method Ingest(e: CanonicalEvent, raw: RawChainLog, head: int) returns (r: Outcome<EventRow>)
      modifies session
      ensures (session.View(), r) == IngestRow(old(session.View()), scope, e, raw, head)
    {
      if head < 0 {
        return Raised(ValueError);
      }
      if !InScope(e.key, scope) {
        return Raised(PersistenceConflict);
      }
      var stored := session.InsertRawChainLog(e, raw);
      if stored.Raised? {
        return Raised(stored.error);
      }
      r := session.InsertCanonicalEvent(e, StatusAt(scope, e.blockNumber, head));
    }

    method RollbackFrom(number: int) returns (r: Outcome<nat>)
      modifies session
      ensures (session.View(), r) == WithholdRows(old(session.View()), scope, number)
    {
      r := session.MarkEventsUncertainFrom(scope.chainId, scope.contract, number);
      if r.Returned? {
        var _ := session.RemoveCheckpointsFrom(scope.chainId, number);
      }
    }

    method RestoreReplayed(e: CanonicalEvent) returns (r: Outcome<EventRow>)
      modifies session
      ensures (session.View(), r) == RestoreRow(old(session.View()), scope, e)
    {
      if !InScope(e.key, scope) {
        return Raised(PersistenceConflict);
      }
      r := session.RestoreReplayedEvent(e);
    }

    method RecordReconciliation(canonical: map<string, string>, projected: map<string, string>)
      returns (r: Outcome<seq<Drift>>)
      modifies session`findings
      ensures "" in canonical || "" in projected ==>
              r == Raised(ValueError) && session.findings == old(session.findings)
      ensures "" !in canonical && "" !in projected ==>
                exists drifts :: IsReport(drifts, canonical, projected)
                  && session.findings == InsertedAll(old(session.findings), drifts).0
                  && r == (if InsertedAll(old(session.findings), drifts).1.Raised?
                           then Raised(InsertedAll(old(session.findings), drifts).1.error) else Returned(drifts))
    {
      var found := FindDrift(canonical, projected);
      if found.Raised? {
        return Raised(found.error);
      }
      var drifts := found.value;
      ghost var whole := InsertedAll(session.findings, drifts);
      for i := 0 to |drifts|
        invariant whole == InsertedAll(session.findings, drifts[i..])
      {
        assert drifts[i..][0] == drifts[i] && drifts[i..][1..] == drifts[i + 1..];
        var stored := session.InsertReconciliationFinding(drifts[i]);
        if stored.Raised? {
          return Raised(stored.error);
        }
      }
      return Returned(drifts);
    }
  }

  class PersistentConfirmedScanner {
    const chainId: int
    const contractAddress: string
    const confirmations: int
    const projection: PersistentProjection

    constructor (session: Session, chainId: int, contractAddress: string, confirmations: int)
      requires chainId >= 1 && confirmations >= 0
      ensures this.chainId == chainId && this.contractAddress == contractAddress && this.confirmations == confirmations
      ensures projection.session == session && projection.scope == Scope(chainId, Lower(contractAddress), confirmations)
    {
      this.chainId, this.contractAddress, this.confirmations := chainId, contractAddress, confirmations;
      projection := new PersistentProjection(session, chainId, contractAddress, confirmations);
    }

    ghost predicate Valid() {
      projection.scope == Scope(chainId, Lower(contractAddress), confirmations)
    }

    /** `decode` is the approved decoder for this chain and contract. */
    ghost predicate Decodes(decode: Decoder) {
      forall log {:trigger Decode(log, chainId, contractAddress, 1)} ::
          decode(log) == Decode(log, chainId, contractAddress, 1)
    }

    lemma ApprovedDecoder()
      ensures Decodes(DecoderFor(chainId, contractAddress))
    {
    }

    method Scan(provider: Provider, start: int) returns (r: Outcome<ScanResult>)
      requires Valid()
      modifies projection.session
      ensures (projection.session.View(), r) ==
              StoredScan(old(projection.session.View()), chainId, contractAddress, confirmations, provider, start)
      ensures KeepsPromise(old(projection.session.View()), projection.session.View(), projection.scope, start, r)
    {
      ScanKeepsPromise(projection.session.View(), chainId, contractAddress, confirmations, provider, start);
      if start < 0 || confirmations < 0 {
        return Raised(ValueError);
      }
      if provider.head.None? {
        return Raised(RpcError);
      }
      var head := provider.head.value;
      var through := head - confirmations;
      if through < start {
        return Returned(ScanResult(head, through, 0, 0, 0));
      }
      if !PlausibleAddress(contractAddress) {
        return Raised(ValueError);
      }
      ApprovedDecoder();
      ghost var scope := projection.scope;
      ghost var store := (t: Tables, xs: seq<Step>) => Store(t, scope, head, xs);
      var raised, scanned, observed, projected :=
        StoreRange(provider.chain, start, through, head, DecoderFor(chainId, contractAddress), store);
      if raised.Some? {
        return Raised(raised.value);
      }
      return Returned(ScanResult(head, through, scanned, observed, projected));
    }

    /** The loop over the confirmed blocks. */
    method StoreRange(chain: Chain, start: int, through: int, head: int, ghost decode: Decoder,
                      ghost store: (Tables, seq<Step>) -> (Tables, Outcome<nat>))
      returns (raised: Option<Error>, scanned: int, observed: int, projected: nat)
      requires start <= through && Decodes(decode) && IsStore(store, projection.scope, head)
      modifies projection.session
      ensures store(old(projection.session.View()), ScanSteps(chain, start, through, contractAddress, decode)) ==
              (projection.session.View(), if raised.Some? then Raised(raised.value) else Returned(projected))
      ensures raised.None? ==> scanned == through + 1 - start && observed == Observed(chain, start, through)
    {
      ghost var rest := ScanSteps(chain, start, through, contractAddress, decode);
      ghost var end := store(projection.session.View(), rest);
      ghost var whole := end;
      raised, scanned, observed, projected := None, 0, 0, 0;
      for number := start to through + 1
        invariant raised == None && scanned == number - start
        invariant observed + Observed(chain, number, through) == Observed(chain, start, through)
        invariant rest == ScanSteps(chain, number, through, contractAddress, decode)
        invariant end == store(projection.session.View(), rest)
        invariant whole == Add(projected, end)
      {
        ScanStepsAt(chain, number, through, contractAddress, decode);
        rest := ScanSteps(chain, number + 1, through, contractAddress, decode);
        var failed, count := StoreBlock(chain(number), number, head, decode, store, rest);
        if failed.Some? {
          raised := failed;
          return;
        }
        ghost var after := store(projection.session.View(), rest);
        CountedRows(whole, projected, end, count, after);
        end := after;
        scanned := scanned + 1;
        observed := observed + |chain(number).logs|;
        projected := projected + count;
      }
      StoreNothing(projection.session.View(), projection.scope, head);
    }

    method StoreBlock(reply: BlockReply, number: int, head: int, ghost decode: Decoder,
                      ghost store: (Tables, seq<Step>) -> (Tables, Outcome<nat>), ghost later: seq<Step>)
      returns (raised: Option<Error>, count: nat)
      requires Decodes(decode) && IsStore(store, projection.scope, head)
      modifies projection.session
      ensures raised.None? ==> reply.Block?
      ensures store(old(projection.session.View()), BlockSteps(reply, number, contractAddress, decode) + later) ==
              if raised.Some? then (projection.session.View(), Raised(raised.value))
              else Add(count, store(projection.session.View(), later))
    {
      ghost var before := projection.session.View();
      if reply.Unavailable? {
        StoreCons(before, projection.scope, head, Halt(RpcError), later);
        return Some(RpcError), 0;
      }
      var logs := ParseLogs(reply.logs, number, reply.hash, contractAddress);
      ghost var rest := LogSteps(logs, decode) + later;
      BlockStepsAre(reply.hash, reply.logs, number, contractAddress, decode, later);
      StoreCons(before, projection.scope, head, Mark(number, reply.hash), rest);
      var marked := projection.Checkpoint(number, reply.hash, head);
      if marked.Raised? {
        return Some(marked.error), 0;
      }
      raised, count := StoreLogs(logs, head, decode, store, later);
    }

    /** The inner loop over the logs of one block. */
    method StoreLogs(logs: seq<RawChainLog>, head: int, ghost decode: Decoder,
                     ghost store: (Tables, seq<Step>) -> (Tables, Outcome<nat>), ghost later: seq<Step>)
      returns (raised: Option<Error>, count: nat)
      requires Decodes(decode) && IsStore(store, projection.scope, head)
      modifies projection.session
      ensures store(old(projection.session.View()), LogSteps(logs, decode) + later) ==
              if raised.Some? then (projection.session.View(), Raised(raised.value))
              else Add(count, store(projection.session.View(), later))
    {
      ghost var ahead := LogSteps(logs, decode) + later;
      ghost var end := store(projection.session.View(), ahead);
      ghost var whole := end;
      raised, count := None, 0;
      LogStepsEnds(logs, decode, later);
      for i := 0 to |logs|
        invariant raised == None
        invariant ahead == LogSteps(logs[i..], decode) + later
        invariant end == store(projection.session.View(), ahead)
        invariant whole == Add(count, end)
      {
        LogStepsAt(logs, i, decode, later);
        ahead := LogSteps(logs[i + 1..], decode) + later;
        var failed := StoreLog(logs[i], head, decode, store, ahead);
        if failed.Some? {
          raised := failed;
          return;
        }
        ghost var after := store(projection.session.View(), ahead);
        CountedRows(whole, count, end, 1, after);
        end := after;
        count := count + 1;
      }
    }

    method StoreLog(log: RawChainLog, head: int, ghost decode: Decoder,
                    ghost store: (Tables, seq<Step>) -> (Tables, Outcome<nat>), ghost rest: seq<Step>)
      returns (raised: Option<Error>)
      requires Decodes(decode) && IsStore(store, projection.scope, head)
      modifies projection.session
      ensures store(old(projection.session.View()), DecodeStep(log, decode) + rest) ==
              if raised.Some? then (projection.session.View(), Raised(raised.value))
              else Add(1, store(projection.session.View(), rest))
    {
      var decoded := DecodeSecureAssetLog(log, chainId, contractAddress, 1);
      if decoded.Raised? {
        StoreCons(projection.session.View(), projection.scope, head, Halt(AbiDecodeError), rest);
        return Some(decoded.error);
      }
      StoreCons(projection.session.View(), projection.scope, head, Project(decoded.value, log), rest);
      var stored := projection.Ingest(decoded.value, log, head);
      if stored.Raised? {
        return Some(stored.error);
      }
      return None;
    }
  }

  class PersistentConfirmedScanOnce {
    const chainId: int
    const contractAddress: string
    const confirmations: int

    constructor (chainId: int, contractAddress: string, confirmations: int)
      ensures this.chainId == chainId && this.contractAddress == contractAddress && this.confirmations == confirmations
    {
      this.chainId, this.contractAddress, this.confirmations := chainId, contractAddress, confirmations;
    }

    /** One scan in one transaction: either the whole scan is committed, or the tables stay as they were. */
    method RunOnce(session: Session, provider: Provider, start: int) returns (r: Outcome<ScanResult>)
      modifies session
      ensures chainId < 1 || confirmations < 0 ==> r == Raised(ValueError)
      ensures r.Raised? ==> session.View() == old(session.View())
      ensures r.Returned? ==>
                (session.View(), r) ==
                    StoredScan(old(session.View()), chainId, contractAddress, confirmations, provider, start)
      ensures chainId >= 1 ==>
                r == StoredScan(old(session.View()), chainId, contractAddress, confirmations, provider, start).1
      ensures KeepsPromise(old(session.View()), session.View(), Scope(chainId, Lower(contractAddress), confirmations),
                           start, r)
    {
      ScanKeepsPromise(session.View(), chainId, contractAddress, confirmations, provider, start);
      if chainId < 1 || confirmations < 0 {
        return Raised(ValueError);
      }
      var events, rawLogs, checkpoints, findings := session.events, session.rawLogs, session.checkpoints,
          session.findings;
      var scanner := new PersistentConfirmedScanner(session, chainId, contractAddress, confirmations);
      r := scanner.Scan(provider, start);
      if r.Raised? {
        session.Restore(events, rawLogs, checkpoints, findings);
      }
    }
  }
}
