/** The durable scanner against the in-memory scanner, with the approved decoder on both sides. */
module DurableScan {
  import opened Wrappers
  import opened Text
  import opened Projector
  import opened Consumer
  import opened ScanLaws
  import opened ScanRuns
  import opened EventIds
  import opened Repository
  import opened DurableSteps
  import opened Persistent
  import opened WireLaws
  import opened Abi
  import opened Simulation

  /** The text of the log that an event was decoded from; decoding is injective, so there is only one in lower case. */
  ghost function TextOf(chainId: int, address: string): RawText {
    e => if exists log :: Decode(log, chainId, address, 1) == Event(e) then
           var log :| Decode(log, chainId, address, 1) == Event(e); (LowerAll(log.topics), Lower(log.data))
         else ([], "")
  }

  lemma TextOfDecoded(chainId: int, address: string, log: RawChainLog)
    requires Decode(log, chainId, address, 1).Event?
    ensures TextOf(chainId, address)(Decode(log, chainId, address, 1).event) == (LowerAll(log.topics), Lower(log.data))
  {
    var e := Decode(log, chainId, address, 1).event;
    assert Decode(log, chainId, address, 1) == Event(e);
    var other :| Decode(other, chainId, address, 1) == Event(e)
                 && TextOf(chainId, address)(e) == (LowerAll(other.topics), Lower(other.data));
    DecodedDeterminesText(log, other, chainId, address, 1);
  }

  /** A log as the tables take it: if it decodes, its transaction hash is printable, and its topics and data are those
      that `text` has for its event. */
  predicate Storable(log: RawChainLog, scope: Scope, address: string, text: RawText) {
    var decoded := Decode(log, scope.chainId, address, 1);
    decoded.Event? ==> IsText(log.transactionHash, 66) && text(decoded.event) == (log.topics, Lower(log.data))
  }

  predicate StorableReply(reply: BlockReply, number: int, scope: Scope, address: string, text: RawText) {
    reply.Block? ==>
      && IsText(reply.hash, 66)
      && forall i :: 0 <= i < |reply.logs| ==>
           Storable(ParseLog(reply.logs[i], number, reply.hash, address), scope, address, text)
  }

  ghost predicate StorableRange(chain: Chain, low: int, high: int, scope: Scope, address: string, text: RawText) {
    forall n :: low <= n <= high ==> StorableReply(chain(n), n, scope, address, text)
  }

  /** When topics arrive in lower case, `TextOf` is such a text, whatever the logs. */
  lemma LowerCaseIsStorable(log: RawChainLog, scope: Scope, address: string)
    requires IsText(log.transactionHash, 66) && LowerAll(log.topics) == log.topics
    ensures Storable(log, scope, address, TextOf(scope.chainId, address))
  {
    if Decode(log, scope.chainId, address, 1).Event? {
      TextOfDecoded(scope.chainId, address, log);
    }
  }

  lemma LowerText(s: string, maximum: nat)
    requires IsText(s, maximum)
    ensures IsText(Lower(s), maximum)
  {
  }

  lemma AddressText(address: string)
    requires NormalizeAddress(address).Some?
    ensures IsText(address, 42) && IsText(Lower(address), 42) && PlausibleAddress(address)
  {
    forall i | 0 <= i < |address| ensures address[i] as int >= 32 {
      if i >= 2 {
        assert IsHexChar(address[2..][i - 2]);
      }
    }
    LowerText(address, 42);
  }

  lemma DecodedStepFits(raw: RawChainLog, address: string, scope: Scope, text: RawText)
    requires scope.chainId >= 1 && scope.contract == Lower(address) && Storable(raw, scope, address, text)
    requires Decode(raw, scope.chainId, address, 1).Event? && raw.address == address && raw.logIndex >= 0
    ensures StepFits(Project(Decode(raw, scope.chainId, address, 1).event, raw), scope, text)
  {
    DecoderFaithful(scope.chainId, address);
    AddressText(address);
    LowerText(raw.transactionHash, 66);
    LowerIsLower(address);
    LowerIsLower(raw.transactionHash);
  }

  /** A step that the in-memory projection could take. */
  predicate Sensible(x: Step) {
    x.Project? ==> x.raw.logIndex >= 0
  }

  lemma {:induction false} LogStepsFit(raws: seq<RawChainLog>, address: string, scope: Scope, text: RawText, x: Step)
    requires scope.chainId >= 1 && scope.contract == Lower(address) && Sensible(x)
    requires forall i :: 0 <= i < |raws| ==> Storable(raws[i], scope, address, text) && raws[i].address == address
    requires x in LogSteps(raws, DecoderFor(scope.chainId, address))
    ensures StepFits(x, scope, text)
    decreases |raws|
  {
    var decode := DecoderFor(scope.chainId, address);
    if x in DecodeStep(raws[0], decode) {
      if decode(raws[0]).Event? {
        DecodedStepFits(raws[0], address, scope, text);
      }
    } else {
      LogStepsFit(raws[1..], address, scope, text, x);
    }
  }

  lemma {:induction false} ScanStepsFit(chain: Chain, low: int, high: int, address: string, scope: Scope, text: RawText,
                                        x: Step)
    requires scope.chainId >= 1 && scope.contract == Lower(address) && Sensible(x)
    requires StorableRange(chain, low, high, scope, address, text)
    requires x in ScanSteps(chain, low, high, address, DecoderFor(scope.chainId, address))
    ensures StepFits(x, scope, text)
    decreases high - low
  {
    var decode := DecoderFor(scope.chainId, address);
    ScanStepsAt(chain, low, high, address, decode);
    if x in BlockSteps(chain(low), low, address, decode) {
      assert StorableReply(chain(low), low, scope, address, text);
      if chain(low).Block? && x != Mark(low, chain(low).hash) {
        LogStepsFit(ParseLogs(chain(low).logs, low, chain(low).hash, address), address, scope, text, x);
      }
    } else {
      ScanStepsFit(chain, low + 1, high, address, scope, text, x);
    }
  }

  lemma {:induction false} DecodedKeepsIndex(logs: seq<RawChainLog>, chainId: int, address: string, x: Step)
    requires x in LogSteps(logs, DecoderFor(chainId, address)) && x.Project?
    ensures x.event.key.logIndex == x.raw.logIndex
    decreases |logs|
  {
    if x !in DecodeStep(logs[0], DecoderFor(chainId, address)) {
      DecodedKeepsIndex(logs[1..], chainId, address, x);
    }
  }

  lemma {:induction false} ScannedKeepsIndex(chain: Chain, low: int, high: int, chainId: int, address: string, x: Step)
    requires x in ScanSteps(chain, low, high, address, DecoderFor(chainId, address)) && x.Project?
    ensures x.event.key.logIndex == x.raw.logIndex
    decreases high - low
  {
    var decode := DecoderFor(chainId, address);
    ScanStepsAt(chain, low, high, address, decode);
    if x in BlockSteps(chain(low), low, address, decode) {
      DecodedKeepsIndex(ParseLogs(chain(low).logs, low, chain(low).hash, address), chainId, address, x);
    } else {
      ScannedKeepsIndex(chain, low + 1, high, chainId, address, x);
    }
  }

  /** A scan that succeeds in memory fits the tables when its logs do. */
  lemma SuccessfulStepsFit(s: State, chain: Chain, low: int, high: int, address: string, scope: Scope, text: RawText)
    requires scope.chainId >= 1 && scope.contract == Lower(address)
    requires StorableRange(chain, low, high, scope, address, text)
    requires Run(s, ScanSteps(chain, low, high, address, DecoderFor(scope.chainId, address))).1.Returned?
    ensures forall x :: x in ScanSteps(chain, low, high, address, DecoderFor(scope.chainId, address)) ==>
            StepFits(x, scope, text)
  {
    var xs := ScanSteps(chain, low, high, address, DecoderFor(scope.chainId, address));
    RunMakesDone(s, xs);
    forall x | x in xs ensures StepFits(x, scope, text) {
      assert Done(Run(s, xs).0, x);
      if x.Project? {
        ScannedKeepsIndex(chain, low, high, scope.chainId, address, x);
      }
      ScanStepsFit(chain, low, high, address, scope, text, x);
    }
  }

  /** The two scanners, side by side, from any related state: when the in-memory scan of a range succeeds, so does the
      durable one, no row changes between uncertain and not, and they agree afterwards exactly when the uncertain rows
      were those of the withheld events and the scan met none of them. */
  lemma DurableScanAgreesExactlyWhen(s: State, t: Tables, scope: Scope, address: string, text: RawText,
                                     off: set<EventKey>, chain: Chain, low: int, high: int, head: int)
    requires scope.chainId >= 1 && scope.confirmations >= 0 && scope.contract == Lower(address)
    requires NormalizeAddress(address).Some? && head >= 0 && StorableRange(chain, low, high, scope, address, text)
    requires Sound(s) && Related(s, t, scope, text, off)
    requires Run(s, ScanSteps(chain, low, high, address, DecoderFor(scope.chainId, address))).1.Returned?
    ensures var xs := ScanSteps(chain, low, high, address, DecoderFor(scope.chainId, address));
            && Store(t, scope, head, xs).1.Returned?
            && Related(Run(s, xs).0, Store(t, scope, head, xs).0, scope, text, off)
            && (Agrees(Run(s, xs).0, Store(t, scope, head, xs).0, scope, text) <==>
                off == s.uncertain.Keys && forall k :: k in s.uncertain ==> !Projects(xs, k))
  {
    AddressText(address);
    LowerIsLower(address);
    SuccessfulStepsFit(s, chain, low, high, address, scope, text);
    StoreAgreesExactlyWhen(s, t, scope, text, off,
                           ScanSteps(chain, low, high, address, DecoderFor(scope.chainId, address)), head);
  }

  lemma StoredRangeReturns(s: State, t: Tables, scope: Scope, address: string, text: RawText, off: set<EventKey>,
                           chain: Chain, start: int, through: int, head: int)
    requires scope.chainId >= 1 && scope.confirmations >= 0 && scope.contract == Lower(address)
    requires NormalizeAddress(address).Some? && head >= 0 && StorableRange(chain, start, through, scope, address, text)
    requires Sound(s) && Related(s, t, scope, text, off)
    requires Run(s, ScanSteps(chain, start, through, address, DecoderFor(scope.chainId, address))).1.Returned?
    ensures PlausibleAddress(address)
    ensures StoredRange(t, scope, head, chain, start, through, address, DecoderFor(scope.chainId, address)).1.Returned?
  {
    AddressText(address);
    DurableScanAgreesExactlyWhen(s, t, scope, address, text, off, chain, start, through, head);
  }

  lemma ScannedIsRun(s: State, provider: Provider, start: int, confirmations: int, address: string, decode: Decoder)
    returns (through: int)
    requires Scanned(s, provider, start, confirmations, address, decode).1.Returned?
    ensures 0 <= start && 0 <= confirmations && provider.head.Some? && through == provider.head.value - confirmations
    ensures start <= through ==> Run(s, ScanSteps(provider.chain, start, through, address, decode)).1.Returned?
  {
    through := provider.head.value - confirmations;
  }

  lemma StoredScanByRange(t: Tables, chainId: int, address: string, confirmations: int, provider: Provider, start: int,
                          through: int, decode: Decoder)
    requires 0 <= start && 0 <= confirmations && provider.head.Some? && through == provider.head.value - confirmations
    requires start <= through ==> PlausibleAddress(address) && decode == DecoderFor(chainId, address)
    requires start <= through ==>
               StoredRange(t, Scope(chainId, Lower(address), confirmations), provider.head.value, provider.chain, start,
                           through, address, decode).1.Returned?
    ensures StoredScan(t, chainId, address, confirmations, provider, start).1.Returned?
  {
  }

  /** When the in-memory `scan` returns, so does the durable one. */
  lemma StoredScanReturns(s: State, t: Tables, chainId: int, address: string, confirmations: int, text: RawText,
                          off: set<EventKey>, provider: Provider, start: int)
    requires chainId >= 1 && NormalizeAddress(address).Some?
    requires Sound(s) && Related(s, t, Scope(chainId, Lower(address), confirmations), text, off)
    requires Scanned(s, provider, start, confirmations, address, DecoderFor(chainId, address)).1.Returned?
    requires StorableRange(provider.chain, start, provider.head.value - confirmations,
                           Scope(chainId, Lower(address), confirmations), address, text)
    ensures StoredScan(t, chainId, address, confirmations, provider, start).1.Returned?
  {
    var through := ScannedIsRun(s, provider, start, confirmations, address, DecoderFor(chainId, address));
    if start <= through {
      StoredRangeReturns(s, t, Scope(chainId, Lower(address), confirmations), address, text, off, provider.chain,
                         start, through, provider.head.value);
    }
    StoredScanByRange(t, chainId, address, confirmations, provider, start, through, DecoderFor(chainId, address));
  }

  lemma ReportsAgree(provider: Provider, start: int, confirmations: int, r: ScanResult, q: ScanResult)
    requires provider.head.Some? && Reports(provider, start, confirmations, r)
             && Reports(provider, start, confirmations, q)
    ensures q.(projectedEvents := 0) == r.(projectedEvents := 0)
  {
  }

  /** Both `scan` calls then report the same head, range and observed logs; only the projected counts may differ, since
      the durable scanner counts every decoded log. */
  lemma ScansReportTheSame(s: State, t: Tables, chainId: int, address: string, confirmations: int,
                           provider: Provider, start: int)
    requires Scanned(s, provider, start, confirmations, address, DecoderFor(chainId, address)).1.Returned?
    requires StoredScan(t, chainId, address, confirmations, provider, start).1.Returned?
    ensures var r := Scanned(s, provider, start, confirmations, address, DecoderFor(chainId, address)).1;
            var q := StoredScan(t, chainId, address, confirmations, provider, start).1;
            q.value.(projectedEvents := 0) == r.value.(projectedEvents := 0)
  {
    ScanReports(s, provider, start, confirmations, address, DecoderFor(chainId, address));
    StoredScanReports(t, chainId, address, confirmations, provider, start);
    ReportsAgree(provider, start, confirmations,
                 Scanned(s, provider, start, confirmations, address, DecoderFor(chainId, address)).1.value,
                 StoredScan(t, chainId, address, confirmations, provider, start).1.value);
  }

  /** A first scan from nothing leaves both sides in agreement. */
  lemma FirstScanAgrees(scope: Scope, address: string, text: RawText, chain: Chain, low: int, high: int, head: int)
    requires scope.chainId >= 1 && scope.confirmations >= 0 && scope.contract == Lower(address)
    requires NormalizeAddress(address).Some? && head >= 0 && StorableRange(chain, low, high, scope, address, text)
    requires Run(EMPTY, ScanSteps(chain, low, high, address, DecoderFor(scope.chainId, address))).1.Returned?
    ensures var xs := ScanSteps(chain, low, high, address, DecoderFor(scope.chainId, address));
            Agrees(Run(EMPTY, xs).0, Store(NO_ROWS, scope, head, xs).0, scope, text)
  {
    EmptyAgrees(scope, text);
    DurableScanAgreesExactlyWhen(EMPTY, NO_ROWS, scope, address, text, {}, chain, low, high, head);
  }

  /** Conservation for scans that decode with the approved decoder, which copies the block it is given. */
  lemma ApprovedScansConserve(chainId: int, address: string, acts: seq<Action>, e: CanonicalEvent)
    ensures var decode := DecoderFor(chainId, address);
            var s := Play(EMPTY, acts, address, decode);
            && (e in EverAccepted(EMPTY, acts, address, decode) <==> s.Find(e.key) == Some(e))
            && !(e.key in s.events && e.key in s.uncertain)
  {
    DecoderFaithful(chainId, address);
    Conservation(acts, address, DecoderFor(chainId, address), e);
  }
}
