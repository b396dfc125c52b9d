/** Laws of whole bundles: the analysis does not depend on the order of the coin spends, and
    accepted bundles compose. */
module Bundles {
  import opened Prelude
  import opened Clvm
  import opened Conditions
  import opened Settlement
  import opened Book
  import opened Verify

  // ---- reorderings ----

  /** Two books with the same items in every list, and the same sums and sets. */
  ghost predicate Similar(x: Book, y: Book) {
    && multiset(x.spent) == multiset(y.spent)
    && multiset(x.created) == multiset(y.created)
    && x.fee == y.fee && x.melted == y.melted
    && multiset(x.melts) == multiset(y.melts)
    && multiset(x.operations) == multiset(y.operations)
    && multiset(x.bindings) == multiset(y.bindings)
    && multiset(x.launches) == multiset(y.launches)
    && multiset(x.eveParents) == multiset(y.eveParents)
    && x.asserted == y.asserted
  }

  /** An entry may be moved from the front to the middle. */
  lemma SimilarMoved(entry: Book, rest: Book, left: Book, right: Book)
    requires Similar(rest, left.Plus(right))
    ensures Similar(entry.Plus(rest), left.Plus(entry.Plus(right)))
  {
  }

  lemma BookAround(sdk: Sdk, spends: seq<CoinSpend>, k: nat)
    requires k < |spends| && AllAdmitted(sdk, spends)
    ensures AllAdmitted(sdk, spends[..k]) && AllAdmitted(sdk, spends[k + 1..]) && AllAdmitted(sdk, Without(spends, k))
    ensures BookOf(sdk, Without(spends, k)) == BookOf(sdk, spends[..k]).Plus(BookOf(sdk, spends[k + 1..]))
    ensures BookOf(sdk, spends) ==
            BookOf(sdk, spends[..k]).Plus(EntryOf(sdk, spends[k]).value.Plus(BookOf(sdk, spends[k + 1..])))
  {
    assert spends == spends[..k] + spends[k..];
    assert spends[k..][1..] == spends[k + 1..];
    BookOfConcat(sdk, spends[..k], spends[k..]);
    BookOfConcat(sdk, spends[..k], spends[k + 1..]);
  }

  lemma {:induction false} BookReordering(sdk: Sdk, a: seq<CoinSpend>, b: seq<CoinSpend>)
    requires multiset(a) == multiset(b) && AllAdmitted(sdk, a)
    ensures AllAdmitted(sdk, b)
    ensures Similar(BookOf(sdk, a), BookOf(sdk, b))
    decreases |a|
  {
    SameItemsMember(a, b);
    SameItemsLength(a, b);
    if a != [] {
      var k := HeadInReordering(a, b);
      SameItemsMember(a[1..], Without(b, k));
      BookReordering(sdk, a[1..], Without(b, k));
      BookAround(sdk, b, k);
      SimilarMoved(EntryOf(sdk, a[0]).value, BookOf(sdk, a[1..]), BookOf(sdk, b[..k]), BookOf(sdk, b[k + 1..]));
    }
  }

  lemma {:induction false} TotalReordering(a: seq<DecodedOutput>, b: seq<DecodedOutput>, asset: Option<Bytes32>)
    requires multiset(a) == multiset(b)
    ensures Total(a, asset) == Total(b, asset)
    decreases |a|
  {
    SameItemsLength(a, b);
    if a != [] {
      var k := HeadInReordering(a, b);
      TotalReordering(a[1..], Without(b, k), asset);
      TotalConcat(b[..k], b[k + 1..], asset);
      TotalConcat(b[..k], [a[0]] + b[k + 1..], asset);
      assert b == b[..k] + ([a[0]] + b[k + 1..]);
    }
  }

  /** Routing around one output: what comes before it, the output if it is routed there, what comes after. */
  lemma RoutedAround(sdk: Sdk, outputs: seq<DecodedOutput>, k: nat, sink: bool)
    requires k < |outputs|
    ensures var before, after := Routed(sdk, outputs[..k], sink), Routed(sdk, outputs[k + 1..], sink);
            && Routed(sdk, outputs, sink) == before + (Routed(sdk, [outputs[k]], sink) + after)
            && Routed(sdk, Without(outputs, k), sink) == before + after
  {
    var tail := [outputs[k]] + outputs[k + 1..];
    assert outputs == outputs[..k] + tail;
    RoutedConcat(sdk, outputs[..k], tail, sink);
    RoutedConcat(sdk, [outputs[k]], outputs[k + 1..], sink);
    RoutedConcat(sdk, outputs[..k], outputs[k + 1..], sink);
  }

  lemma {:induction false} RoutedReordering(sdk: Sdk, a: seq<DecodedOutput>, b: seq<DecodedOutput>, sink: bool)
    requires multiset(a) == multiset(b)
    ensures multiset(Routed(sdk, a, sink)) == multiset(Routed(sdk, b, sink))
    decreases |a|
  {
    SameItemsLength(a, b);
    if a != [] {
      var k := HeadInReordering(a, b);
      RoutedReordering(sdk, a[1..], Without(b, k), sink);
      RoutedAround(sdk, a, 0, sink);
      RoutedAround(sdk, b, k, sink);
      MovedItems(Routed(sdk, [a[0]], sink), Routed(sdk, a[1..], sink), Routed(sdk, b[..k], sink),
                 Routed(sdk, b[k + 1..], sink));
    }
  }

  lemma {:induction false} CoinIdsReordering(sdk: Sdk, a: seq<CoinSpend>, b: seq<CoinSpend>)
    requires multiset(a) == multiset(b)
    ensures multiset(CoinIds(sdk, a)) == multiset(CoinIds(sdk, b))
    decreases |a|
  {
    SameItemsLength(a, b);
    if a != [] {
      var k := HeadInReordering(a, b);
      CoinIdsReordering(sdk, a[1..], Without(b, k));
      var tail := [a[0]] + b[k + 1..];
      CoinIdsConcat(sdk, b[..k], b[k + 1..]);
      CoinIdsConcat(sdk, b[..k], tail);
      assert b == b[..k] + tail && tail[1..] == b[k + 1..];
      MovedItems([sdk.IdOf(a[0].coin)], CoinIds(sdk, a[1..]), CoinIds(sdk, b[..k]), CoinIds(sdk, b[k + 1..]));
    }
  }

  /** Bindings are made by coins of the bundle, one each, so distinct coins bind distinctly. */
  lemma {:induction false} BindingsOfCoins(sdk: Sdk, spends: seq<CoinSpend>)
    requires AllAdmitted(sdk, spends) && Distinct(CoinIds(sdk, spends))
    ensures forall b :: b in BookOf(sdk, spends).bindings ==> b.coinId in CoinIds(sdk, spends)
    ensures DistinctCoins(BookOf(sdk, spends).bindings)
  {
    if spends != [] {
      var ids, rest := CoinIds(sdk, spends), spends[1..];
      CoinIdAt(sdk, rest);
      assert ids == [ids[0]] + CoinIds(sdk, rest);
      assert Distinct(CoinIds(sdk, rest)) by {
        forall i, j | 0 <= i < j < |rest| ensures CoinIds(sdk, rest)[i] != CoinIds(sdk, rest)[j] {
          assert ids[i + 1] != ids[j + 1];
        }
      }
      BindingsOfCoins(sdk, rest);
      OneBinding(sdk, spends[0]);
      var first, others := EntryOf(sdk, spends[0]).value.bindings, BookOf(sdk, rest).bindings;
      assert BookOf(sdk, spends).bindings == first + others;
      forall i | 0 <= i < |others| ensures others[i].coinId != ids[0] {
        assert others[i] in others;
        var k :| 0 <= k < |rest| && CoinIds(sdk, rest)[k] == others[i].coinId;
        assert ids[k + 1] == others[i].coinId && ids[0] != ids[k + 1];
      }
    }
  }

  /** The coins a bundle spends under a signed send are distinct; a coin that binds nothing may repeat. */
  ghost predicate SignedCoinsDistinct(sdk: Sdk, spends: seq<CoinSpend>) {
    AllAdmitted(sdk, spends) ==> DistinctCoins(BookOf(sdk, spends).bindings)
  }

  lemma SignedCoinsReordering(sdk: Sdk, a: seq<CoinSpend>, b: seq<CoinSpend>)
    requires multiset(a) == multiset(b) && SignedCoinsDistinct(sdk, a)
    ensures SignedCoinsDistinct(sdk, b)
  {
    SameItemsMember(a, b);
    if AllAdmitted(sdk, b) {
      BookReordering(sdk, a, b);
      DistinctCoinsReordering(BookOf(sdk, a).bindings, BookOf(sdk, b).bindings);
    }
  }

  lemma DistinctCoinsReordering(x: seq<CoinBinding>, y: seq<CoinBinding>)
    requires DistinctCoins(x) && multiset(x) == multiset(y)
    ensures DistinctCoins(y)
  {
    assert Distinct(x);
    DistinctReordering(x, y);
    SameItemsMember(x, y);
    forall i, j | 0 <= i < j < |y| ensures y[i].coinId != y[j].coinId {
      assert y[i] in x && y[j] in x && y[i] != y[j];
      var k: nat, m: nat :| k < |x| && m < |x| && x[k] == y[i] && x[m] == y[j];
      assert k < m || m < k;
    }
  }

  lemma OneBinding(sdk: Sdk, spend: CoinSpend)
    requires EntryOf(sdk, spend).Some?
    ensures var bindings := EntryOf(sdk, spend).value.bindings;
            |bindings| <= 1 && forall b :: b in bindings ==> b.coinId == sdk.IdOf(spend.coin)
  {
  }

  lemma MintBoundReordering(sdk: Sdk, x: Book, y: Book, idsX: seq<Bytes32>, idsY: seq<Bytes32>)
    requires Similar(x, y) && multiset(idsX) == multiset(idsY) && MintBound(sdk, x, idsX)
    ensures MintBound(sdk, y, idsY)
  {
    SameItemsMember(idsX, idsY);
    SameItemsMember(x.created, y.created);
    SameItemsMember(x.launches, y.launches);
    SameItemsMember(x.eveParents, y.eveParents);
    SameItemsLength(x.launches, y.launches);
    assert LaunchedIds(x.launches) == LaunchedIds(y.launches);
    if y.launches != [] {
      assert x.launches != [];
      var o :| o in x.created && o.puzzleHash == sdk.launcherHash;
      assert o in y.created;
    }
  }

  /** Effects that report the same things, in whatever order. */
  ghost predicate SameEffect(x: SpendEffect, y: SpendEffect) {
    && multiset(x.outputs) == multiset(y.outputs)
    && multiset(x.protocolSink) == multiset(y.protocolSink)
    && x.fee == y.fee
    && multiset(x.meltedSingletons) == multiset(y.meltedSingletons)
    && multiset(x.nftOperations) == multiset(y.nftOperations)
  }

  /** Order independence: with distinct signed coins every reordering of an accepted bundle is
      accepted, with the same fee and the same outputs, sinks, melts and NFT acts. */
  lemma AnalysisIgnoresOrder(sdk: Sdk, a: seq<CoinSpend>, b: seq<CoinSpend>)
    requires multiset(a) == multiset(b) && SignedCoinsDistinct(sdk, a)
    ensures Accepted(sdk, a) <==> Accepted(sdk, b)
    ensures Accepted(sdk, a) ==> SameEffect(EffectOf(sdk, a), EffectOf(sdk, b))
  {
    SignedCoinsReordering(sdk, a, b);
    if Accepted(sdk, a) {
      ReorderingAccepted(sdk, a, b);
    }
    if Accepted(sdk, b) {
      ReorderingAccepted(sdk, b, a);
    }
  }

  lemma ReorderingAccepted(sdk: Sdk, a: seq<CoinSpend>, b: seq<CoinSpend>)
    requires multiset(a) == multiset(b) && SignedCoinsDistinct(sdk, b) && Accepted(sdk, a)
    ensures Accepted(sdk, b) && SameEffect(EffectOf(sdk, a), EffectOf(sdk, b))
  {
    BookReordering(sdk, a, b);
    CoinIdsReordering(sdk, a, b);
    SameItemsMember(a, b);
    SameItemsLength(a, b);
    var x, y := BookOf(sdk, a), BookOf(sdk, b);
    SimilarConserved(sdk, x, y, IsOptionBundle(sdk, a));
    MintBoundReordering(sdk, x, y, CoinIds(sdk, a), CoinIds(sdk, b));
    SettlementBoundCarriesOver(x.bindings, y.bindings);
    assert IsOptionBundle(sdk, a) == IsOptionBundle(sdk, b);
    assert Accepted(sdk, b);
    RoutedReordering(sdk, x.created, y.created, true);
    RoutedReordering(sdk, x.created, y.created, false);
  }

  lemma SimilarConserved(sdk: Sdk, x: Book, y: Book, optionMode: bool)
    requires Similar(x, y)
    ensures Fits(x) ==> Fits(y)
    ensures CatsConserved(x) ==> CatsConserved(y)
    ensures XchConserved(x, optionMode) ==> XchConserved(y, optionMode)
    ensures ReportedFee(x, optionMode) == ReportedFee(y, optionMode)
  {
    forall asset
      ensures Total(x.spent, asset) == Total(y.spent, asset) && Total(x.created, asset) == Total(y.created, asset)
    {
      TotalReordering(x.spent, y.spent, asset);
      TotalReordering(x.created, y.created, asset);
    }
  }

  // ---- composition ----

  /** The one reason besides overflow for refusing two accepted bundles together: destroyed mojos
      in a bundle whose fee is implicit. */
  ghost predicate MeltMeetsOption(sdk: Sdk, spends: seq<CoinSpend>)
    requires AllAdmitted(sdk, spends)
  {
    IsOptionBundle(sdk, spends) && BookOf(sdk, spends).melted > 0
  }

  /** Composition: two accepted bundles whose signed coins are all distinct are accepted together exactly
      when every total still fits and no melt meets an option coin. */
  lemma AcceptedTogether(sdk: Sdk, a: seq<CoinSpend>, b: seq<CoinSpend>)
    requires Accepted(sdk, a) && Accepted(sdk, b) && SignedCoinsDistinct(sdk, a + b)
    ensures AllAdmitted(sdk, a + b)
    ensures Accepted(sdk, a + b) <==> Fits(BookOf(sdk, a).Plus(BookOf(sdk, b))) && !MeltMeetsOption(sdk, a + b)
  {
    BookOfConcat(sdk, a, b);
    var x, y := BookOf(sdk, a), BookOf(sdk, b);
    SettlementBoundTogether(x.bindings, y.bindings);
    MintBoundTogether(sdk, x, y, CoinIds(sdk, a), CoinIds(sdk, b));
    CoinIdsConcat(sdk, a, b);
    OptionTogether(sdk, a, b);
    ConservedTogether(x, y, IsOptionBundle(sdk, a), IsOptionBundle(sdk, b));
    assert a + b != [];
  }

  lemma ConservedTogether(x: Book, y: Book, optionX: bool, optionY: bool)
    requires XchConserved(x, optionX) && XchConserved(y, optionY) && CatsConserved(x) && CatsConserved(y)
    ensures CatsConserved(x.Plus(y))
    ensures XchConserved(x.Plus(y), optionX || optionY) <==> !((optionX || optionY) && x.Plus(y).melted > 0)
    ensures !((optionX || optionY) && x.Plus(y).melted > 0) ==>
              ReportedFee(x.Plus(y), optionX || optionY) == ReportedFee(x, optionX) + ReportedFee(y, optionY)
  {
    forall asset ensures Total(x.Plus(y).spent, asset) == Total(x.spent, asset) + Total(y.spent, asset) &&
                         Total(x.Plus(y).created, asset) == Total(x.created, asset) + Total(y.created, asset) {
      TotalConcat(x.spent, y.spent, asset);
      TotalConcat(x.created, y.created, asset);
    }
  }

  lemma OptionTogether(sdk: Sdk, a: seq<CoinSpend>, b: seq<CoinSpend>)
    ensures IsOptionBundle(sdk, a + b) <==> IsOptionBundle(sdk, a) || IsOptionBundle(sdk, b)
  {
  }

  lemma MintBoundTogether(sdk: Sdk, x: Book, y: Book, idsX: seq<Bytes32>, idsY: seq<Bytes32>)
    requires MintBound(sdk, x, idsX) && MintBound(sdk, y, idsY)
    ensures MintBound(sdk, x.Plus(y), idsX + idsY)
  {
    assert LaunchedIds(x.launches + y.launches) == LaunchedIds(x.launches) + LaunchedIds(y.launches);
    var both := x.Plus(y);
    if both.launches != [] {
      var o :| (o in x.created || o in y.created) && o.puzzleHash == sdk.launcherHash;
      assert o in both.created;
    }
  }

  /** The effect of two bundles together is one effect after the other, and the fees add up, even
      when one bundle states its fee and the other leaves it implicit. */
  lemma EffectsCompose(sdk: Sdk, a: seq<CoinSpend>, b: seq<CoinSpend>)
    requires Accepted(sdk, a) && Accepted(sdk, b) && Accepted(sdk, a + b)
    ensures var x, y, both := EffectOf(sdk, a), EffectOf(sdk, b), EffectOf(sdk, a + b);
            && both.outputs == x.outputs + y.outputs
            && both.protocolSink == x.protocolSink + y.protocolSink
            && both.fee == x.fee + y.fee
            && both.meltedSingletons == x.meltedSingletons + y.meltedSingletons
            && both.nftOperations == x.nftOperations + y.nftOperations
  {
    BookOfConcat(sdk, a, b);
    var x, y := BookOf(sdk, a), BookOf(sdk, b);
    RoutedConcat(sdk, x.created, y.created, true);
    RoutedConcat(sdk, x.created, y.created, false);
    OptionTogether(sdk, a, b);
    ConservedTogether(x, y, IsOptionBundle(sdk, a), IsOptionBundle(sdk, b));
  }
}
