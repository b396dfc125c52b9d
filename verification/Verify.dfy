/** `analyze`: the signer's re-derivation of a bundle's value flow. Accepted exactly when every
    coin spend has an entry, every total fits 64 bits, mints and settlement sinks are bound, and
    value is conserved; the effect is then read off the bundle's book. */
module Verify {
  import opened Prelude
  import opened Clvm
  import opened Conditions
  import opened Settlement
  import opened Book
  import opened Ledger

  datatype SpendEffect = SpendEffect(
    outputs: seq<DecodedOutput>,
    protocolSink: seq<DecodedOutput>,
    fee: U64,
    meltedSingletons: seq<Bytes32>,
    nftOperations: seq<NftOperation>)

  /** The ids of the coins a bundle spends, in bundle order. */
  function CoinIds(sdk: Sdk, spends: seq<CoinSpend>): seq<Bytes32> {
    if spends == [] then [] else [sdk.IdOf(spends[0].coin)] + CoinIds(sdk, spends[1..])
  }

  lemma {:induction false} CoinIdAt(sdk: Sdk, spends: seq<CoinSpend>)
    ensures |CoinIds(sdk, spends)| == |spends|
    ensures forall i :: 0 <= i < |spends| ==> CoinIds(sdk, spends)[i] == sdk.IdOf(spends[i].coin)
  {
    if spends != [] {
      CoinIdAt(sdk, spends[1..]);
    }
  }

  lemma {:induction false} CoinIdsConcat(sdk: Sdk, a: seq<CoinSpend>, b: seq<CoinSpend>)
    ensures CoinIds(sdk, a + b) == CoinIds(sdk, a) + CoinIds(sdk, b)
  {
    if a == [] {
      assert a + b == b;
    } else {
      assert (a + b)[1..] == a[1..] + b;
      CoinIdsConcat(sdk, a[1..], b);
    }
  }

  // ---- bundle-level checks ----

  predicate IsOptionCoin(sdk: Sdk, spend: CoinSpend) {
    && spend.puzzleReveal.Some? && spend.solution.Some?
    && (|| sdk.OptionOf(spend.coin, spend.puzzleReveal.value, spend.solution.value).Found?
        || sdk.OneOfManyOf(spend.puzzleReveal.value).Found?)
  }

  predicate IsOptionBundle(sdk: Sdk, spends: seq<CoinSpend>) {
    exists spend :: spend in spends && IsOptionCoin(sdk, spend)
  }

  method ScanForOption(sdk: Sdk, spends: seq<CoinSpend>) returns (found: bool)
    ensures found <==> IsOptionBundle(sdk, spends)
  {
    for i := 0 to |spends|
      invariant forall k :: 0 <= k < i ==> !IsOptionCoin(sdk, spends[k])
    {
      if IsOptionCoin(sdk, spends[i]) { return true; }
    }
    return false;
  }

  /** Each launcher and eve spend belongs to a mint this bundle performs, and what a launcher
      announces is asserted under a signature. */
  ghost predicate MintBound(sdk: Sdk, book: Book, spentIds: seq<Bytes32>) {
    && (book.launches != [] ==> exists o :: o in book.created && o.puzzleHash == sdk.launcherHash)
    && (forall l :: l in book.launches ==> l.parent in spentIds)
    && (forall p :: p in book.eveParents ==> exists l :: l in book.launches && l.coinId == p)
    && (forall l :: l in book.launches ==> l.coinId in book.eveParents)
    && (forall l :: l in book.launches ==> exists id :: id in l.announced && id in book.asserted)
  }

  method LauncherParentsSpent(ledger: SpendLedger, ghost spentIds: seq<Bytes32>) returns (ok: bool)
    requires ledger.Valid() && ledger.spentCoinIds == set id | id in spentIds
    ensures ok <==> forall l :: l in ledger.book.launches ==> l.parent in spentIds
  {
    ghost var launches := ledger.book.launches;
    for i := 0 to |ledger.launcherParents|
      invariant forall k :: 0 <= k < i ==> launches[k].parent in spentIds
    {
      if ledger.launcherParents[i] !in ledger.spentCoinIds {
        assert launches[i] in launches;
        return false;
      }
    }
    return true;
  }

  method EvesMatchLaunchers(ledger: SpendLedger) returns (ok: bool)
    requires ledger.Valid()
    ensures ok <==>
              && (forall p :: p in ledger.book.eveParents ==> exists l :: l in ledger.book.launches && l.coinId == p)
              && (forall l :: l in ledger.book.launches ==> l.coinId in ledger.book.eveParents)
  {
    assert ledger.eveParents == ledger.book.eveParents && ledger.launcherCoinIds == LaunchedIds(ledger.book.launches);
    for i := 0 to |ledger.eveParents|
      invariant forall k :: 0 <= k < i ==> ledger.eveParents[k] in ledger.launcherCoinIds
    {
      if ledger.eveParents[i] !in ledger.launcherCoinIds {
        assert ledger.eveParents[i] in ledger.book.eveParents;
        return false;
      }
    }
    var remaining := ledger.launcherCoinIds;
    while remaining != {}
      invariant remaining <= ledger.launcherCoinIds
      invariant forall id :: id in ledger.launcherCoinIds && id !in remaining ==> id in ledger.eveParents
    {
      var id :| id in remaining;
      if id !in ledger.eveParents { return false; }
      remaining := remaining - {id};
    }
    return true;
  }

  method LaunchersAsserted(ledger: SpendLedger) returns (ok: bool)
    requires ledger.Valid()
    ensures ok <==> forall l :: l in ledger.book.launches ==>
            exists id :: id in l.announced && id in ledger.book.asserted
  {
    ghost var launches := ledger.book.launches;
    for i := 0 to |ledger.launcherAnnouncements|
      invariant forall k :: 0 <= k < i ==> exists id :: id in launches[k].announced && id in ledger.book.asserted
    {
      var announced := ledger.launcherAnnouncements[i].1;
      if !exists id :: id in announced && id in ledger.signedAnnouncementAssertions {
        assert launches[i] in launches;
        return false;
      }
    }
    return true;
  }

  method EnforceBundleNftMintBinding(ledger: SpendLedger, ghost spentIds: seq<Bytes32>) returns (ok: bool)
    requires ledger.Valid() && ledger.spentCoinIds == set id | id in spentIds
    ensures ok <==> MintBound(ledger.sdk, ledger.book, spentIds)
  {
    if |ledger.launcherParents| == 0 && |ledger.eveParents| == 0 { return true; }
    var createsLauncher := exists o :: o in ledger.protocolSink && o.puzzleHash == ledger.sdk.launcherHash;
    SinkAmongCreated(ledger.sdk, ledger.book.created);
    if |ledger.launcherParents| > 0 && !createsLauncher { return false; }
    var spent := LauncherParentsSpent(ledger, spentIds);
    if !spent { return false; }
    var matched := EvesMatchLaunchers(ledger);
    if !matched { return false; }
    ok := LaunchersAsserted(ledger);
  }

  lemma {:induction false} SinkAmongCreated(sdk: Sdk, created: seq<DecodedOutput>)
    ensures (exists o :: o in Routed(sdk, created, true) && o.puzzleHash == sdk.launcherHash) <==>
            (exists o :: o in created && o.puzzleHash == sdk.launcherHash)
  {
    if created != [] {
      SinkAmongCreated(sdk, created[1..]);
      assert created == [created[0]] + created[1..];
      if created[0].puzzleHash == sdk.launcherHash {
        assert created[0] in Routed(sdk, created, true);
      }
    }
  }

  ghost predicate CatsConserved(book: Book) {
    forall asset :: Total(book.spent, Some(asset)) == Total(book.created, Some(asset))
  }

  /** XCH conservation: exact in a strict bundle; an option bundle may leave a surplus, which is
      its fee, but may neither mint nor melt. */
  ghost predicate XchConserved(book: Book, optionMode: bool) {
    if optionMode then book.melted == 0 && Total(book.created, None) <= Total(book.spent, None)
    else Total(book.spent, None) == Total(book.created, None) + book.fee + book.melted
  }

  function ReportedFee(book: Book, optionMode: bool): int {
    if optionMode then Total(book.spent, None) - Total(book.created, None) else book.fee + book.melted
  }

  // ---- acceptance ----

  ghost predicate Accepted(sdk: Sdk, spends: seq<CoinSpend>) {
    && spends != []
    && AllAdmitted(sdk, spends)
    && var book := BookOf(sdk, spends);
    && Fits(book)
    && MintBound(sdk, book, CoinIds(sdk, spends))
    && SettlementBound(book.bindings)
    && XchConserved(book, IsOptionBundle(sdk, spends))
    && CatsConserved(book)
  }

  /** Whatever is accepted satisfies XCH inputs = outputs + sinks + fee, in every mode, and its fee
      is a 64-bit number: the last addition of fee and melted mojos cannot fail. */
  lemma AcceptedFee(sdk: Sdk, spends: seq<CoinSpend>)
    requires Accepted(sdk, spends)
    ensures var book := BookOf(sdk, spends);
            var fee := ReportedFee(book, IsOptionBundle(sdk, spends));
            && 0 <= fee <= U64_MAX
            && Total(book.spent, None) ==
               Total(Routed(sdk, book.created, false), None) + Total(Routed(sdk, book.created, true), None) + fee
  {
    RoutedTotals(sdk, BookOf(sdk, spends).created, None);
  }

  ghost function EffectOf(sdk: Sdk, spends: seq<CoinSpend>): SpendEffect
    requires Accepted(sdk, spends)
  {
    AcceptedFee(sdk, spends);
    var book := BookOf(sdk, spends);
    SpendEffect(Routed(sdk, book.created, false), Routed(sdk, book.created, true),
                ReportedFee(book, IsOptionBundle(sdk, spends)), book.melts, book.operations)
  }

  /** The whole analysis, over the mutable ledger. */
  method Analyze(sdk: Sdk, spends: seq<CoinSpend>) returns (r: Option<SpendEffect>)
    ensures r.Some? <==> Accepted(sdk, spends)
    ensures r.Some? ==> r.value == EffectOf(sdk, spends)
  {
    if spends == [] { return None; }
    var ledger := new SpendLedger(sdk);
    var optionMode := ScanForOption(sdk, spends);
    var ids := CoinIds(sdk, spends);
    ledger.spentCoinIds := set id | id in ids;
    ledger.BookFits();
    for i := 0 to |spends|
      invariant ledger.Valid() && ledger.sdk == sdk && ledger.spentCoinIds == set id | id in ids
      invariant AllAdmitted(sdk, spends[..i]) && ledger.book == BookOf(sdk, spends[..i])
    {
      BookStep(sdk, spends, i);
      var ok := ledger.AccountCoin(spends[i]);
      if !ok { return None; }
    }
    assert spends[..|spends|] == spends;
    ledger.BookFits();
    var minted := EnforceBundleNftMintBinding(ledger, ids);
    if !minted { return None; }
    var bound := EnforceBundleSettlementBinding(ledger.bindings);
    if !bound { return None; }
    var fee := EffectiveFee(ledger, optionMode);
    if fee.None? { return None; }
    var conserved := ConservesCats(ledger);
    if !conserved { return None; }
    return Some(SpendEffect(ledger.outputs, ledger.protocolSink, fee.value, ledger.meltedSingletons,
                            ledger.nftOperations));
  }

  /** Conservation in the bundle's mode, and the fee it leaves. */
  method EffectiveFee(ledger: SpendLedger, optionMode: bool) returns (fee: Option<U64>)
    requires ledger.Valid()
    ensures fee.Some? <==> XchConserved(ledger.book, optionMode)
    ensures fee.Some? ==> fee.value == ReportedFee(ledger.book, optionMode)
  {
    if optionMode {
      if ledger.melted > 0 { return None; }
      if ledger.xchOut > ledger.xchIn { return None; }
      return Some(ledger.xchIn - ledger.xchOut);
    }
    var outAndFee := Accumulate(ledger.xchOut, ledger.fee);
    if outAndFee.None? { return None; }
    var accounted := Accumulate(outAndFee.value, ledger.melted);
    if accounted.None? || ledger.xchIn != accounted.value { return None; }
    return Accumulate(ledger.fee, ledger.melted);
  }

  method ConservesCats(ledger: SpendLedger) returns (ok: bool)
    requires ledger.Valid()
    ensures ok <==> CatsConserved(ledger.book)
  {
    var assets := ledger.catIn.Keys + ledger.catOut.Keys;
    var remaining := assets;
    while remaining != {}
      invariant remaining <= assets
      invariant forall a :: a in assets && a !in remaining ==> Entered(ledger.catIn, a) == Entered(ledger.catOut, a)
    {
      var a :| a in remaining;
      if Entered(ledger.catIn, a) != Entered(ledger.catOut, a) { return false; }
      remaining := remaining - {a};
    }
    forall a ensures Total(ledger.book.spent, Some(a)) == Total(ledger.book.created, Some(a)) {
      assert Entered(ledger.catIn, a) == Entered(ledger.catOut, a);
    }
    return true;
  }

  /** One more spend: the book grows by its entry. */
  lemma BookNext(sdk: Sdk, spends: seq<CoinSpend>, i: nat)
    requires i < |spends| && AllAdmitted(sdk, spends[..i]) && EntryOf(sdk, spends[i]).Some?
    ensures AllAdmitted(sdk, spends[..i + 1])
    ensures BookOf(sdk, spends[..i + 1]) == BookOf(sdk, spends[..i]).Plus(EntryOf(sdk, spends[i]).value)
  {
    var one := [spends[i]];
    assert spends[..i + 1] == spends[..i] + one;
    assert BookOf(sdk, one) == EntryOf(sdk, one[0]).value by {
      assert one[1..] == [];
      PlusEmpty(EntryOf(sdk, one[0]).value);
    }
    BookOfConcat(sdk, spends[..i], one);
  }

  /** A prefix of a bundle that is admitted and fits is admitted and fits. */
  lemma PrefixFits(sdk: Sdk, spends: seq<CoinSpend>, i: nat)
    requires i <= |spends| && AllAdmitted(sdk, spends) && Fits(BookOf(sdk, spends))
    ensures AllAdmitted(sdk, spends[..i]) && Fits(BookOf(sdk, spends[..i]))
  {
    assert spends == spends[..i] + spends[i..];
    BookOfConcat(sdk, spends[..i], spends[i..]);
    FitsEarlier(BookOf(sdk, spends[..i]), BookOf(sdk, spends));
  }

  lemma BookStep(sdk: Sdk, spends: seq<CoinSpend>, i: nat)
    requires i < |spends| && AllAdmitted(sdk, spends[..i])
    ensures EntryOf(sdk, spends[i]).Some? ==>
              && AllAdmitted(sdk, spends[..i + 1])
              && BookOf(sdk, spends[..i + 1]) == BookOf(sdk, spends[..i]).Plus(EntryOf(sdk, spends[i]).value)
    ensures AllAdmitted(sdk, spends) && Fits(BookOf(sdk, spends)) ==>
              EntryOf(sdk, spends[i]).Some? && Fits(BookOf(sdk, spends[..i]).Plus(EntryOf(sdk, spends[i]).value))
  {
    if EntryOf(sdk, spends[i]).Some? {
      BookNext(sdk, spends, i);
      if AllAdmitted(sdk, spends) && Fits(BookOf(sdk, spends)) {
        PrefixFits(sdk, spends, i + 1);
      }
    } else {
      assert spends[i] in spends;
    }
  }
}
