/** The text identity under which an event is stored, and when it tells events apart. */
module EventIds {
  import opened Text
  import opened Projector

  /** `_event_id`. */
  function EventId(k: EventKey): string {
    Str(k.chainId) + ":" + IdTail(k)
  }

  function IdTail(k: EventKey): string {
    Place(k) + ":" + NumberTail(k)
  }

  /** Address and hash as they stand in the id. */
  function Place(k: EventKey): string {
    Lower(k.contractAddress) + ":" + Lower(k.transactionHash)
  }

  function NumberTail(k: EventKey): string {
    Str(k.logIndex) + ":" + Str(k.eventVersion)
  }

  /** `_validate_event_key`. */
  predicate ValidKey(k: EventKey) {
    k.chainId >= 1 && k.logIndex >= 0 && k.eventVersion >= 1
    && IsText(k.contractAddress, 42) && IsText(k.transactionHash, 66)
  }

  /** The field widths that the decoder enforces. */
  predicate FixedWidth(k: EventKey) {
    |k.contractAddress| == 42 && |k.transactionHash| == 66
  }

  /** The shape of the keys that the decoder produces. */
  predicate DecoderShaped(k: EventKey) {
    FixedWidth(k) && IsLower(k.contractAddress) && IsLower(k.transactionHash)
  }

  lemma FirstColon(a: string, b: string)
    requires ':' !in a
    ensures (a + ":" + b)[|a|] == ':' && forall i :: 0 <= i < |a| ==> (a + ":" + b)[i] != ':'
  {
    forall i | 0 <= i < |a| ensures (a + ":" + b)[i] != ':' {
      assert (a + ":" + b)[i] == a[i] && a[i] in a;
    }
  }

  lemma SplitAtColon(a: string, b: string, c: string, d: string)
    requires ':' !in a && ':' !in c
    requires a + ":" + b == c + ":" + d
    ensures a == c && b == d
  {
    var s := a + ":" + b;
    FirstColon(a, b);
    FirstColon(c, d);
    assert |a| == |c|;
    assert a == s[..|a|] && c == s[..|c|];
    assert b == s[|a| + 1..] && d == s[|c| + 1..];
  }

  lemma StrHasNoColon(n: int)
    ensures ':' !in Str(n)
  {
    forall i | 0 <= i < |Str(n)| ensures Str(n)[i] != ':' {
      assert IsDigit(Str(n)[i]) || Str(n)[i] == MINUS;
    }
  }

  lemma LastColon(a: string, b: string)
    requires ':' !in b
    ensures (a + ":" + b)[|a|] == ':' && forall i :: |a| < i < |a + ":" + b| ==> (a + ":" + b)[i] != ':'
  {
    forall i | |a| < i < |a + ":" + b| ensures (a + ":" + b)[i] != ':' {
      assert (a + ":" + b)[i] == b[i - |a| - 1] && b[i - |a| - 1] in b;
    }
  }

  lemma SplitAtLastColon(a: string, b: string, c: string, d: string)
    requires ':' !in b && ':' !in d
    requires a + ":" + b == c + ":" + d
    ensures a == c && b == d
  {
    var s := a + ":" + b;
    LastColon(a, b);
    LastColon(c, d);
    assert |a| == |c|;
    assert a == s[..|a|] && c == s[..|c|];
    assert b == s[|a| + 1..] && d == s[|c| + 1..];
  }

  /** An id read from its ends: the chain id, then the text of address and hash, then the two small numbers. */
  lemma IdParts(k: EventKey)
    ensures IdTail(k) == Place(k) + ":" + Str(k.logIndex) + ":" + Str(k.eventVersion)
  {
  }

  /** Ids are equal exactly when the three numbers are, and address and hash, joined by a colon, up to case. */
  lemma EventIdsEqualExactlyWhen(j: EventKey, k: EventKey)
    ensures EventId(j) == EventId(k) <==>
            && j.chainId == k.chainId && j.logIndex == k.logIndex && j.eventVersion == k.eventVersion
            && Place(j) == Place(k)
  {
    IdParts(j);
    IdParts(k);
    if EventId(j) == EventId(k) {
      StrHasNoColon(j.chainId);
      StrHasNoColon(k.chainId);
      SplitAtColon(Str(j.chainId), IdTail(j), Str(k.chainId), IdTail(k));
      StrHasNoColon(j.eventVersion);
      StrHasNoColon(k.eventVersion);
      SplitAtLastColon(Place(j) + ":" + Str(j.logIndex), Str(j.eventVersion),
                       Place(k) + ":" + Str(k.logIndex), Str(k.eventVersion));
      StrHasNoColon(j.logIndex);
      StrHasNoColon(k.logIndex);
      SplitAtLastColon(Place(j), Str(j.logIndex), Place(k), Str(k.logIndex));
      StrInjective(j.chainId, k.chainId);
      StrInjective(j.logIndex, k.logIndex);
      StrInjective(j.eventVersion, k.eventVersion);
    }
  }

  /** Equal up to the letter case of address and hash. */
  predicate SameUpToCase(j: EventKey, k: EventKey) {
    && j.chainId == k.chainId && j.logIndex == k.logIndex && j.eventVersion == k.eventVersion
    && Lower(j.contractAddress) == Lower(k.contractAddress)
    && Lower(j.transactionHash) == Lower(k.transactionHash)
  }

  lemma LowerKeepsColons(s: string)
    ensures ':' in Lower(s) <==> ':' in s
  {
    forall i | 0 <= i < |s| ensures Lower(s)[i] == ':' <==> s[i] == ':' {
    }
    if ':' in s {
      var i :| 0 <= i < |s| && s[i] == ':';
      assert Lower(s)[i] == ':';
    }
  }

  /** Address and hash are told apart when the addresses have one width, or no address, or no hash, has a colon. */
  lemma IdsTellKeysApart(j: EventKey, k: EventKey)
    requires || |j.contractAddress| == |k.contractAddress|
             || (':' !in j.contractAddress && ':' !in k.contractAddress)
             || (':' !in j.transactionHash && ':' !in k.transactionHash)
    ensures EventId(j) == EventId(k) <==> SameUpToCase(j, k)
  {
    EventIdsEqualExactlyWhen(j, k);
    var a, b := Lower(j.contractAddress), Lower(j.transactionHash);
    var c, d := Lower(k.contractAddress), Lower(k.transactionHash);
    LowerKeepsColons(j.contractAddress);
    LowerKeepsColons(k.contractAddress);
    LowerKeepsColons(j.transactionHash);
    LowerKeepsColons(k.transactionHash);
    if Place(j) == Place(k) {
      if |a| == |c| {
        assert a == Place(j)[..|a|] && c == Place(k)[..|c|];
        assert b == Place(j)[|a| + 1..] && d == Place(k)[|c| + 1..];
      } else if ':' !in a && ':' !in c {
        SplitAtColon(a, b, c, d);
      } else {
        SplitAtLastColon(a, b, c, d);
      }
    }
  }

  /** The decoder's keys are told apart by their ids. */
  lemma DecoderIdsInjective(j: EventKey, k: EventKey)
    requires DecoderShaped(j) && DecoderShaped(k)
    ensures EventId(j) == EventId(k) <==> j == k
  {
    IdsTellKeysApart(j, k);
    LowerIsLower(j.contractAddress);
    LowerIsLower(k.contractAddress);
    LowerIsLower(j.transactionHash);
    LowerIsLower(k.transactionHash);
  }

  /** Some such condition is needed: two keys that pass the repository's whole validation can share an id. */
  lemma UncheckedIdsCollide()
    ensures var j, k := EventKey(1, "0xa:b", "0xc", 0, 1), EventKey(1, "0xa", "b:0xc", 0, 1);
            ValidKey(j) && ValidKey(k) && !SameUpToCase(j, k) && EventId(j) == EventId(k)
  {
    var j, k := EventKey(1, "0xa:b", "0xc", 0, 1), EventKey(1, "0xa", "b:0xc", 0, 1);
    assert Lower("0xa:b") == "0xa:b" && Lower("0xc") == "0xc" && Lower("0xa") == "0xa" && Lower("b:0xc") == "b:0xc";
    assert "0xa:b" + ":" + "0xc" == "0xa:b:0xc" == "0xa" + ":" + "b:0xc";
    EventIdsEqualExactlyWhen(j, k);
  }
}
