/** The confirmed scanner: provider replies, the steps they turn into, and the scanning class. */
module Consumer {
  import opened Wrappers
  import opened Text
  import opened Projector

  /** One log object of an `eth_getLogs` reply. */
  datatype WireLog = WireLog(transactionHash: string, logIndex: int, topics: seq<string>, data: string)

  datatype RawChainLog = RawChainLog(
    blockNumber: int, blockHash: string, transactionHash: string, logIndex: int,
    address: string, topics: seq<string>, data: string)

  /** What fetching one block gives; every failed or malformed reply is `Unavailable`. */
  datatype BlockReply = Unavailable | Block(hash: string, logs: seq<WireLog>)

  type Chain = int -> BlockReply

  /** The provider as one scan sees it: it asks for the head once and for each block once. */
  datatype Provider = Provider(head: Option<nat>, chain: Chain)

  datatype Decoded = Event(event: CanonicalEvent) | Skip | Malformed

  type Decoder = RawChainLog -> Decoded

  datatype ScanResult = ScanResult(
    head: int, confirmedThrough: int, scannedBlocks: int, observedLogs: int, projectedEvents: int)

  /** A decoder copies the block identity of the log it decodes. */
  ghost predicate CopiesBlock(decode: Decoder) {
    forall log :: decode(log).Event? ==>
                    decode(log).event.blockNumber == log.blockNumber && decode(log).event.blockHash == log.blockHash
  }

  /** The number, the hash and the address come from the scanner, not from the log. */
  function ParseLog(log: WireLog, number: int, hash: string, address: string): RawChainLog {
    RawChainLog(number, hash, log.transactionHash, log.logIndex, address, log.topics, log.data)
  }

  function ParseLogs(logs: seq<WireLog>, number: int, hash: string, address: string): (r: seq<RawChainLog>)
    ensures |r| == |logs|
    ensures forall i :: 0 <= i < |r| ==> r[i] == ParseLog(logs[i], number, hash, address)
  {
    seq(|logs|, i requires 0 <= i < |logs| => ParseLog(logs[i], number, hash, address))
  }

  // ---------- a scan as a list of steps ----------

  datatype Step =
    | Mark(number: int, hash: string)
    | Project(event: CanonicalEvent, raw: RawChainLog)
    | Halt(error: Error)

  /** One step on the in-memory projection; the number counts newly projected events. */
  function Perform(s: State, x: Step): (State, Outcome<nat>) {
    match x
    case Mark(number, hash) =>
      var (s1, r) := Checkpointed(s, number, hash, false);
      (s1, if r.Raised? then Raised(r.error) else Returned(0))
    case Project(event, _) =>
      var (s1, r) := Ingested(s, event);
      (s1, if r.Raised? then Raised(r.error) else Returned(if r.value then 1 else 0))
    case Halt(error) => (s, Raised(error))
  }

  function Plus(n: nat, end: (State, Outcome<nat>)): (State, Outcome<nat>) {
    (end.0, if end.1.Raised? then end.1 else Returned(n + end.1.value))
  }

  lemma PlusPlus(m: nat, n: nat, end: (State, Outcome<nat>))
    ensures Plus(m, Plus(n, end)) == Plus(m + n, end)
  {
  }

  /** Moves the count of one turn from what is still to come to what has been counted. */
  lemma Counted(whole: (State, Outcome<nat>), m: nat, before: (State, Outcome<nat>), n: nat,
                after: (State, Outcome<nat>))
    requires whole == Plus(m, before) && before == Plus(n, after)
    ensures whole == Plus(m + n, after)
  {
  }

  /** Performs the steps in order, up to the first one that raises. */
  function Run(s: State, xs: seq<Step>): (State, Outcome<nat>)
    decreases |xs|
  {
    if xs == [] then (s, Returned(0))
    else
      var (s1, r) := Perform(s, xs[0]);
      if r.Raised? then (s1, r) else Plus(r.value, Run(s1, xs[1..]))
  }

  function DecodeStep(log: RawChainLog, decode: Decoder): seq<Step> {
    match decode(log)
    case Event(event) => [Project(event, log)]
    case Skip => []
    case Malformed => [Halt(AbiDecodeError)]
  }

  function LogSteps(logs: seq<RawChainLog>, decode: Decoder): seq<Step> {
    if logs == [] then [] else DecodeStep(logs[0], decode) + LogSteps(logs[1..], decode)
  }

  lemma LogStepsAt(logs: seq<RawChainLog>, i: nat, decode: Decoder, later: seq<Step>)
    requires i < |logs|
    ensures LogSteps(logs[i..], decode) + later ==
            DecodeStep(logs[i], decode) + (LogSteps(logs[i + 1..], decode) + later)
  {
    assert logs[i..][1..] == logs[i + 1..];
  }

  lemma LogStepsEnds(logs: seq<RawChainLog>, decode: Decoder, later: seq<Step>)
    ensures LogSteps(logs[0..], decode) == LogSteps(logs, decode)
    ensures LogSteps(logs[|logs|..], decode) + later == later
  {
    assert logs[0..] == logs;
  }

  function BlockSteps(reply: BlockReply, number: int, address: string, decode: Decoder): seq<Step> {
    match reply
    case Unavailable => [Halt(RpcError)]
    case Block(hash, logs) => [Mark(number, hash)] + LogSteps(ParseLogs(logs, number, hash, address), decode)
  }

  lemma BlockStepsAre(hash: string, logs: seq<WireLog>, number: int, address: string, decode: Decoder, later: seq<Step>)
    ensures BlockSteps(Block(hash, logs), number, address, decode) + later ==
            [Mark(number, hash)] + (LogSteps(ParseLogs(logs, number, hash, address), decode) + later)
  {
  }

  /** The steps of scanning the blocks from `low` up to and including `high`. */
  function ScanSteps(chain: Chain, low: int, high: int, address: string, decode: Decoder): seq<Step>
    decreases high - low
  {
    if low > high then []
    else BlockSteps(chain(low), low, address, decode) + ScanSteps(chain, low + 1, high, address, decode)
  }

  lemma ScanStepsAt(chain: Chain, low: int, high: int, address: string, decode: Decoder)
    requires low <= high
    ensures ScanSteps(chain, low, high, address, decode) ==
            BlockSteps(chain(low), low, address, decode) + ScanSteps(chain, low + 1, high, address, decode)
  {
  }

  function Observed(chain: Chain, low: int, high: int): nat
    decreases high - low
  {
    if low > high then 0
    else (if chain(low).Block? then |chain(low).logs| else 0) + Observed(chain, low + 1, high)
  }

  /** A whole call of `scan`. */
  function Scanned(s: State, provider: Provider, start: int, confirmations: int, address: string, decode: Decoder)
    : (State, Outcome<ScanResult>)
  {
    if start < 0 || confirmations < 0 then (s, Raised(ValueError))
    else if provider.head.None? then (s, Raised(RpcError))
    else
      var head := provider.head.value;
      var through := head - confirmations;
      if through < start then (s, Returned(ScanResult(head, through, 0, 0, 0)))
      else
        var (s1, r) := Run(s, ScanSteps(provider.chain, start, through, address, decode));
        (s1, if r.Raised? then Raised(r.error)
             else Returned(ScanResult(head, through, through + 1 - start,
                                      Observed(provider.chain, start, through), r.value)))
  }

  lemma RunCons(s: State, x: Step, xs: seq<Step>)
    ensures Run(s, [x] + xs) ==
            var (s1, r) := Perform(s, x); if r.Raised? then (s1, r) else Plus(r.value, Run(s1, xs))
  {
    assert ([x] + xs)[1..] == xs;
  }

  lemma RunNothing(s: State)
    ensures Run(s, []) == (s, Returned(0))
  {
  }

  const SKIP_ALL: Decoder := log => Skip

  /** `run` is the function Run, as a value: this keeps the recursive definition out of the loop proofs. */
  ghost predicate IsRun(run: (State, seq<Step>) -> (State, Outcome<nat>)) {
    forall s, xs {:trigger Run(s, xs)} :: run(s, xs) == Run(s, xs)
  }

  /** Without a decoder the logs are only counted. */
  function Effective(decoder: Option<Decoder>): Decoder {
    if decoder.Some? then decoder.value else SKIP_ALL
  }

  lemma {:induction false} SkipAllHasNoSteps(logs: seq<RawChainLog>)
    ensures LogSteps(logs, SKIP_ALL) == []
  {
    if logs != [] { SkipAllHasNoSteps(logs[1..]); }
  }

  class ConfirmedScanner {
    const contractAddress: string
    const projection: InMemoryProjection

    constructor (contractAddress: string, projection: InMemoryProjection)
      requires |contractAddress| == 42 && HasPrefix0x(contractAddress)
      ensures this.contractAddress == contractAddress && this.projection == projection
    {
      this.contractAddress, this.projection := contractAddress, projection;
    }

    method Scan(provider: Provider, start: int, confirmations: int, decoder: Option<Decoder>)
      returns (r: Outcome<ScanResult>)
      requires projection.Valid()
      modifies projection
      ensures projection.Valid()
      ensures (projection.View(), r) ==
              Scanned(old(projection.View()), provider, start, confirmations, contractAddress,
                      Effective(decoder))
    {
      if start < 0 || confirmations < 0 {
        return Raised(ValueError);
      }
      if provider.head.None? {
        return Raised(RpcError);
      }
      var head := provider.head.value;
      var through := head - confirmations;
      if through < start {
        return Returned(ScanResult(head, through, 0, 0, 0));
      }
      ghost var run := (s: State, xs: seq<Step>) => Run(s, xs);
      var raised, scanned, observed, projected := ScanRange(provider.chain, start, through, decoder, run);
      if raised.Some? {
        return Raised(raised.value);
      }
      return Returned(ScanResult(head, through, scanned, observed, projected));
    }

    /** The loop over the confirmed blocks. */
    method ScanRange(chain: Chain, start: int, through: int, decoder: Option<Decoder>,
                     ghost run: (State, seq<Step>) -> (State, Outcome<nat>))
      returns (raised: Option<Error>, scanned: int, observed: int, projected: nat)
      requires projection.Valid() && start <= through && IsRun(run)
      modifies projection
      ensures projection.Valid()
      ensures run(old(projection.View()), ScanSteps(chain, start, through, contractAddress, Effective(decoder))) ==
              (projection.View(), if raised.Some? then Raised(raised.value) else Returned(projected))
      ensures raised.None? ==> scanned == through + 1 - start && observed == Observed(chain, start, through)
    {
      ghost var decode := Effective(decoder);
      ghost var rest := ScanSteps(chain, start, through, contractAddress, decode);
      ghost var end := run(projection.View(), rest);
      ghost var whole := end;
      raised, scanned, observed, projected := None, 0, 0, 0;
      for number := start to through + 1
        invariant projection.Valid() && raised == None
        invariant scanned == number - start
        invariant observed + Observed(chain, number, through) == Observed(chain, start, through)
        invariant rest == ScanSteps(chain, number, through, contractAddress, decode)
        invariant end == run(projection.View(), rest)
        invariant whole == Plus(projected, end)
      {
        ScanStepsAt(chain, number, through, contractAddress, decode);
        rest := ScanSteps(chain, number + 1, through, contractAddress, decode);
        var failed, count := ScanBlock(chain(number), number, decoder, run, rest);
        if failed.Some? {
          raised := failed;
          return;
        }
        ghost var after := run(projection.View(), rest);
        Counted(whole, projected, end, count, after);
        end := after;
        scanned := scanned + 1;
        observed := observed + |chain(number).logs|;
        projected := projected + count;
      }
      RunNothing(projection.View());
    }

    /** One turn of the block loop; `later` are the steps of the turns still to come. */
    method ScanBlock(reply: BlockReply, number: int, decoder: Option<Decoder>,
                     ghost run: (State, seq<Step>) -> (State, Outcome<nat>), ghost later: seq<Step>)
      returns (raised: Option<Error>, count: nat)
      requires projection.Valid() && IsRun(run)
      modifies projection
      ensures projection.Valid()
      ensures raised.None? ==> reply.Block?
      ensures var decode := Effective(decoder);
              run(old(projection.View()), BlockSteps(reply, number, contractAddress, decode) + later) ==
              if raised.Some? then (projection.View(), Raised(raised.value))
              else Plus(count, run(projection.View(), later))
    {
      count := 0;
      if reply.Unavailable? {
        RunCons(projection.View(), Halt(RpcError), later);
        return Some(RpcError), 0;
      }
      ghost var decode := Effective(decoder);
      var logs := ParseLogs(reply.logs, number, reply.hash, contractAddress);
      BlockStepsAre(reply.hash, reply.logs, number, contractAddress, decode, later);
      RunCons(projection.View(), Mark(number, reply.hash), LogSteps(logs, decode) + later);
      var marked := projection.Checkpoint(number, reply.hash, false);
      if marked.Raised? {
        return Some(marked.error), 0;
      }
      if decoder.Some? {
        raised, count := IngestLogs(logs, decoder.value, run, later);
      } else {
        SkipAllHasNoSteps(logs);
        assert [] + later == later;
        raised := None;
      }
    }

    /** The inner loop over the logs of one block. */
    method IngestLogs(logs: seq<RawChainLog>, decode: Decoder,
                      ghost run: (State, seq<Step>) -> (State, Outcome<nat>), ghost later: seq<Step>)
      returns (raised: Option<Error>, count: nat)
      requires projection.Valid() && IsRun(run)
      modifies projection
      ensures projection.Valid()
      ensures run(old(projection.View()), LogSteps(logs, decode) + later) ==
              if raised.Some? then (projection.View(), Raised(raised.value))
              else Plus(count, run(projection.View(), later))
    {
      raised, count := None, 0;
      ghost var ahead := LogSteps(logs, decode) + later;
      ghost var end := run(projection.View(), ahead);
      ghost var whole := end;
      LogStepsEnds(logs, decode, later);
      for i := 0 to |logs|
        invariant projection.Valid() && raised == None
        invariant ahead == LogSteps(logs[i..], decode) + later
        invariant end == run(projection.View(), ahead)
        invariant whole == Plus(count, end)
      {
        LogStepsAt(logs, i, decode, later);
        ahead := LogSteps(logs[i + 1..], decode) + later;
        var failed, added := IngestLog(logs[i], decode, run, ahead);
        if failed.Some? {
          raised := failed;
          return;
        }
        ghost var after := run(projection.View(), ahead);
        Counted(whole, count, end, added, after);
        end := after;
        count := count + added;
      }
    }

    method IngestLog(log: RawChainLog, decode: Decoder,
                     ghost run: (State, seq<Step>) -> (State, Outcome<nat>), ghost rest: seq<Step>)
      returns (raised: Option<Error>, count: nat)
      requires projection.Valid() && IsRun(run)
      modifies projection
      ensures projection.Valid()
      ensures run(old(projection.View()), DecodeStep(log, decode) + rest) ==
              if raised.Some? then (projection.View(), Raised(raised.value))
              else Plus(count, run(projection.View(), rest))
    {
      match decode(log) {
        case Event(event) =>
          RunCons(projection.View(), Project(event, log), rest);
          var added := projection.Ingest(event);
          if added.Raised? {
            return Some(added.error), 0;
          }
          return None, if added.value then 1 else 0;
        case Skip =>
          assert [] + rest == rest;
          return None, 0;
        case Malformed =>
          RunCons(projection.View(), Halt(AbiDecodeError), rest);
          return Some(AbiDecodeError), 0;
      }
    }
  }
}
