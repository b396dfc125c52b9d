/** Where the money goes: when the gate opens, what returns to the wallet is exactly what went in
    less what the reviewed summary names, asset by asset. */
module Value {
  import opened Prelude
  import opened Clvm
  import opened Conditions
  import opened Settlement
  import opened Book
  import opened Verify
  import opened Text
  import opened Gate

  /** The asset a spent coin is denominated in: its CAT, or native XCH. */
  function DenominationOf(sdk: Sdk, spend: CoinSpend): Option<Bytes32> {
    match ArmFor(sdk, spend)
    case CatArm(cat) => Some(cat.assetId)
    case _ => None
  }

  /** The coins of `asset` that a bundle spends, summed. */
  function InputValue(sdk: Sdk, spends: seq<CoinSpend>, asset: Option<Bytes32>): nat {
    if spends == [] then 0
    else
      (if DenominationOf(sdk, spends[0]) == asset then spends[0].coin.amount else 0) +
      InputValue(sdk, spends[1..], asset)
  }

  /** The book's inputs are the bundle's coins, each in its own denomination. */
  lemma {:induction false} InputsAreTheCoins(sdk: Sdk, spends: seq<CoinSpend>, asset: Option<Bytes32>)
    requires AllAdmitted(sdk, spends)
    ensures Total(BookOf(sdk, spends).spent, asset) == InputValue(sdk, spends, asset)
  {
    if spends != [] {
      InputsAreTheCoins(sdk, spends[1..], asset);
      SpentOnce(sdk, spends[0]);
      TotalConcat(EntryOf(sdk, spends[0]).value.spent, BookOf(sdk, spends[1..]).spent, asset);
    }
  }

  lemma SpentOnce(sdk: Sdk, spend: CoinSpend)
    requires EntryOf(sdk, spend).Some?
    ensures EntryOf(sdk, spend).value.spent == Spent(spend.coin, DenominationOf(sdk, spend))
  {
  }

  /** What a summary says leaves the wallet in one asset, recipients and sinks alike. The asset is
      named in normal form: `None` for XCH, lower-case hex for a CAT. */
  function ReviewedValue(codec: Codec, outputs: seq<SpendOutput>, asset: Option<string>): nat {
    if outputs == [] then 0
    else
      (if NormalAsset(codec, outputs[0].assetId) == asset then outputs[0].amount else 0) +
      ReviewedValue(codec, outputs[1..], asset)
  }

  function KeyValue(keys: seq<ReviewKey>, asset: Option<string>): nat {
    if keys == [] then 0 else (if keys[0].asset == asset then keys[0].amount else 0) + KeyValue(keys[1..], asset)
  }

  lemma {:induction false} KeyValueConcat(a: seq<ReviewKey>, b: seq<ReviewKey>, asset: Option<string>)
    ensures KeyValue(a + b, asset) == KeyValue(a, asset) + KeyValue(b, asset)
  {
    if a == [] {
      assert a + b == b;
    } else {
      assert (a + b)[1..] == a[1..] + b;
      KeyValueConcat(a[1..], b, asset);
    }
  }

  lemma {:induction false} KeyValueReordering(a: seq<ReviewKey>, b: seq<ReviewKey>, asset: Option<string>)
    requires multiset(a) == multiset(b)
    ensures KeyValue(a, asset) == KeyValue(b, asset)
    decreases |a|
  {
    SameItemsLength(a, b);
    if a != [] {
      var k := HeadInReordering(a, b);
      KeyValueReordering(a[1..], Without(b, k), asset);
      KeyValueConcat(b[..k], b[k + 1..], asset);
      KeyValueConcat(b[..k], [a[0]] + b[k + 1..], asset);
      assert b == b[..k] + ([a[0]] + b[k + 1..]);
    }
  }

  lemma {:induction false} ReviewedSplits(codec: Codec, outputs: seq<SpendOutput>, asset: Option<string>)
    requires ReviewedRecipients(codec, outputs).Some?
    ensures ReviewedValue(codec, outputs, asset) ==
            KeyValue(ReviewedRecipients(codec, outputs).value, asset) + KeyValue(ReviewedSinks(codec, outputs), asset)
  {
    if outputs != [] {
      ReviewedSplits(codec, outputs[1..], asset);
      if outputs[0].IsProtocolSink() {
        assert ReviewedSinks(codec, outputs)[1..] == ReviewedSinks(codec, outputs[1..]);
      } else {
        assert ReviewedSinks(codec, outputs) == ReviewedSinks(codec, outputs[1..]);
      }
    }
  }

  /** Asset ids and their hex name the same asset. */
  lemma SameAsset(a: Option<Bytes32>, b: Option<Bytes32>)
    ensures HexAsset(a) == HexAsset(b) <==> a == b
  {
    if a.Some? && b.Some? && HexAsset(a) == HexAsset(b) {
      HexInjective(a.value.bytes, b.value.bytes);
    }
  }

  lemma {:induction false} KeysHoldTheValue(outputs: seq<DecodedOutput>, asset: Option<Bytes32>)
    ensures KeyValue(RecipientKeys(outputs), HexAsset(asset)) == Total(outputs, asset)
    ensures KeyValue(SinkKeys(outputs), HexAsset(asset)) == Total(outputs, asset)
  {
    if outputs != [] {
      KeysHoldTheValue(outputs[1..], asset);
      SameAsset(outputs[0].assetId, asset);
      assert RecipientKeys(outputs)[1..] == RecipientKeys(outputs[1..]);
      if outputs[0].amount > 0 {
        assert SinkKeys(outputs)[1..] == SinkKeys(outputs[1..]);
      } else {
        assert SinkKeys(outputs) == SinkKeys(outputs[1..]);
      }
    }
  }

  lemma {:induction false} OwnershipSplits(owner: Owner, outputs: seq<DecodedOutput>, asset: Option<Bytes32>)
    ensures Total(outputs, asset) ==
            Total(Owned(owner, outputs, true), asset) + Total(Owned(owner, outputs, false), asset)
    ensures forall o :: o in Owned(owner, outputs, true) ==> owner.Owns(o.puzzleHash)
    ensures forall o :: o in Owned(owner, outputs, false) ==> !owner.Owns(o.puzzleHash)
  {
    if outputs != [] {
      OwnershipSplits(owner, outputs[1..], asset);
      var mine := owner.Owns(outputs[0].puzzleHash);
      TotalConcat([outputs[0]], Owned(owner, outputs[1..], mine), asset);
      assert Owned(owner, outputs, !mine) == Owned(owner, outputs[1..], !mine);
    }
  }

  /** The value the wallet keeps: the outputs of `asset` it holds a key for. */
  ghost function KeptValue(sdk: Sdk, owner: Owner, spends: seq<CoinSpend>, asset: Option<Bytes32>): nat
    requires Accepted(sdk, spends)
  {
    Total(Owned(owner, EffectOf(sdk, spends).outputs, true), asset)
  }

  lemma ReviewedIsDerived(codec: Codec, summary: TransactionSummary, split: OwnedSplit, asset: Option<Bytes32>)
    requires codec.Lawful() && SameSummary(codec, summary, SummarizeEgress(codec, split))
    ensures ReviewedValue(codec, summary.outputs, HexAsset(asset)) ==
            Total(split.recipients, asset) + Total(split.protocolSink, asset)
    ensures summary.fee == split.fee
  {
    ReadBack(codec, split);
    ReviewedSplits(codec, summary.outputs, HexAsset(asset));
    KeyValueReordering(ReviewedRecipients(codec, summary.outputs).value, RecipientKeys(split.recipients),
                       HexAsset(asset));
    KeyValueReordering(ReviewedSinks(codec, summary.outputs), SinkKeys(split.protocolSink), HexAsset(asset));
    KeysHoldTheValue(split.recipients, asset);
    KeysHoldTheValue(split.protocolSink, asset);
  }

  /** What the wallet keeps of an asset is what it spent of it, less what the summary names, less the
      named fee when the asset is XCH. */
  ghost predicate Balanced(sdk: Sdk, owner: Owner, spends: seq<CoinSpend>, summary: TransactionSummary,
                           asset: Option<Bytes32>)
    requires Accepted(sdk, spends)
  {
    KeptValue(sdk, owner, spends, asset) ==
    InputValue(sdk, spends, asset) - ReviewedValue(owner.codec, summary.outputs, HexAsset(asset))
    - (if asset.None? then summary.fee else 0)
  }

  /** All value is accounted for. When the gate opens on a summary, XCH and every CAT balance against
      it, over unbounded integers and whatever mix of coins the bundle spends. */
  lemma KeptIsSpentLessReviewed(sdk: Sdk, owner: Owner, spends: seq<CoinSpend>, summary: TransactionSummary)
    requires owner.codec.Lawful() && Accepted(sdk, spends)
    requires SameSummary(owner.codec, summary, ReviewableSummary(sdk, owner, spends))
    ensures forall asset :: Balanced(sdk, owner, spends, summary, asset)
  {
    forall asset ensures Balanced(sdk, owner, spends, summary, asset) {
      KeptInAsset(sdk, owner, spends, summary, asset);
      AssetConserved(sdk, spends, asset);
    }
  }

  lemma AssetConserved(sdk: Sdk, spends: seq<CoinSpend>, asset: Option<Bytes32>)
    requires Accepted(sdk, spends)
    ensures var created := BookOf(sdk, spends).created;
            Total(BookOf(sdk, spends).spent, asset) ==
            Total(Routed(sdk, created, false), asset) + Total(Routed(sdk, created, true), asset)
            + (if asset.None? then EffectOf(sdk, spends).fee else 0)
  {
    if asset.None? {
      AcceptedFee(sdk, spends);
    } else {
      assert Some(asset.value) == asset;
      RoutedTotals(sdk, BookOf(sdk, spends).created, asset);
    }
  }

  lemma KeptInAsset(sdk: Sdk, owner: Owner, spends: seq<CoinSpend>, summary: TransactionSummary, asset: Option<Bytes32>)
    requires owner.codec.Lawful() && Accepted(sdk, spends)
    requires SameSummary(owner.codec, summary, ReviewableSummary(sdk, owner, spends))
    ensures KeptValue(sdk, owner, spends, asset) + ReviewedValue(owner.codec, summary.outputs, HexAsset(asset)) ==
            Total(Routed(sdk, BookOf(sdk, spends).created, false), asset) +
            Total(Routed(sdk, BookOf(sdk, spends).created, true), asset)
    ensures Total(BookOf(sdk, spends).spent, asset) == InputValue(sdk, spends, asset)
    ensures summary.fee == EffectOf(sdk, spends).fee
  {
    var effect := EffectOf(sdk, spends);
    ReviewedIsDerived(owner.codec, summary, ReclassifyByOwnership(owner, effect), asset);
    OwnershipSplits(owner, effect.outputs, asset);
    InputsAreTheCoins(sdk, spends, asset);
  }
}
