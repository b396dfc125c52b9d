/** The verdict over the coin spends themselves: value made and spent, fees, mints, sinks and what the effect
    reports, with no ledger in between. */
module Acceptance {
  import opened Prelude
  import opened Clvm
  import opened Conditions
  import opened Settlement
  import opened Book
  import opened Verify
  import opened Commitments
  import opened Text
  import opened Gate
  import opened Value
  import opened Mints
  import Reading
  import Offers

  // ---- value made ----

  /** How many coins of this amount a list makes at this hash. */
  function MakesTo(list: seq<Condition>, hash: Bytes32, amount: U64): nat {
    if list == [] then 0
    else
      (if list[0].CreateCoin? && list[0].puzzleHash == hash && list[0].amount == amount then 1 else 0) +
      MakesTo(list[1..], hash, amount)
  }

  /** The amounts of the coins a list makes, summed. */
  function MakesValue(list: seq<Condition>): nat {
    if list == [] then 0 else (if list[0].CreateCoin? then list[0].amount else 0) + MakesValue(list[1..])
  }

  /** How many coins a bundle makes at a hash, of an amount and an asset: the CREATE_COINs of the judged lists,
      each in the denomination of the coin that makes it. */
  function MadeTo(sdk: Sdk, spends: seq<CoinSpend>, hash: Bytes32, amount: U64, asset: Option<string>): nat {
    if spends == [] then 0
    else
      (if HexAsset(DenominationOf(sdk, spends[0])) == asset then MakesTo(Reading.Judged(sdk, spends[0]), hash, amount)
       else 0) + MadeTo(sdk, spends[1..], hash, amount, asset)
  }

  function MadeValue(sdk: Sdk, spends: seq<CoinSpend>, asset: Option<Bytes32>): nat {
    if spends == [] then 0
    else
      (if DenominationOf(sdk, spends[0]) == asset then MakesValue(Reading.Judged(sdk, spends[0])) else 0) +
      MadeValue(sdk, spends[1..], asset)
  }

  /** The fees the bundle's standard XCH spends reserve. */
  function ReservedFees(sdk: Sdk, spends: seq<CoinSpend>): nat {
    if spends == [] then 0
    else
      (if ArmFor(sdk, spends[0]).StandardArm? then Reserved(Reading.Judged(sdk, spends[0])) else 0) +
      ReservedFees(sdk, spends[1..])
  }

  lemma {:induction false} CreatesCounted(list: seq<Condition>, denomination: Option<Bytes32>, hash: Bytes32,
                                          amount: U64, asset: Option<string>)
    ensures PaymentsTo(Creates(list, denomination), hash, amount, asset) ==
            if HexAsset(denomination) == asset then MakesTo(list, hash, amount) else 0
  {
    if list != [] {
      CreatesCounted(list[1..], denomination, hash, amount, asset);
      if list[0].CreateCoin? {
        assert Creates(list, denomination)[1..] == Creates(list[1..], denomination);
      } else {
        assert Creates(list, denomination) == Creates(list[1..], denomination);
      }
    }
  }

  lemma {:induction false} CreatesValued(list: seq<Condition>, denomination: Option<Bytes32>, asset: Option<Bytes32>)
    ensures Total(Creates(list, denomination), asset) == if denomination == asset then MakesValue(list) else 0
  {
    if list != [] {
      CreatesValued(list[1..], denomination, asset);
      if list[0].CreateCoin? {
        assert Creates(list, denomination)[1..] == Creates(list[1..], denomination);
      } else {
        assert Creates(list, denomination) == Creates(list[1..], denomination);
      }
    }
  }

  lemma {:induction false} PaymentsConcat(a: seq<DecodedOutput>, b: seq<DecodedOutput>, hash: Bytes32, amount: U64,
                                          asset: Option<string>)
    ensures PaymentsTo(a + b, hash, amount, asset) ==
            PaymentsTo(a, hash, amount, asset) + PaymentsTo(b, hash, amount, asset)
  {
    if a == [] {
      assert a + b == b;
    } else {
      assert (a + b)[0] == a[0] && (a + b)[1..] == a[1..] + b;
      PaymentsConcat(a[1..], b, hash, amount, asset);
    }
  }

  /** An admitted spend makes what its judged list makes, in its own denomination. */
  lemma EntryMakes(sdk: Sdk, spend: CoinSpend)
    requires EntryOf(sdk, spend).Some?
    ensures EntryOf(sdk, spend).value.created == Creates(Reading.Judged(sdk, spend), DenominationOf(sdk, spend))
  {
    if !ArmFor(sdk, spend).CatArm? && !ArmFor(sdk, spend).OptionArm? {
      OuterCreates(sdk, spend);
      OuterJudged(sdk, spend);
    }
  }

  lemma OuterJudged(sdk: Sdk, spend: CoinSpend)
    requires EntryOf(sdk, spend).Some? && !ArmFor(sdk, spend).CatArm? && !ArmFor(sdk, spend).OptionArm?
    ensures Reading.Judged(sdk, spend) == Emitted(sdk, spend) && DenominationOf(sdk, spend).None?
  {
  }

  /** It reserves fees only as a standard XCH send. */
  lemma EntryReserves(sdk: Sdk, spend: CoinSpend)
    requires EntryOf(sdk, spend).Some?
    ensures EntryOf(sdk, spend).value.fee ==
            if ArmFor(sdk, spend).StandardArm? then Reserved(Reading.Judged(sdk, spend)) else 0
  {
  }

  lemma {:induction false} MadeIsCreated(sdk: Sdk, spends: seq<CoinSpend>, hash: Bytes32, amount: U64,
                                         asset: Option<string>)
    requires AllAdmitted(sdk, spends)
    ensures PaymentsTo(BookOf(sdk, spends).created, hash, amount, asset) == MadeTo(sdk, spends, hash, amount, asset)
  {
    if spends != [] {
      MadeIsCreated(sdk, spends[1..], hash, amount, asset);
      EntryMakes(sdk, spends[0]);
      CreatesCounted(Reading.Judged(sdk, spends[0]), DenominationOf(sdk, spends[0]), hash, amount, asset);
      PaymentsConcat(EntryOf(sdk, spends[0]).value.created, BookOf(sdk, spends[1..]).created, hash, amount, asset);
    }
  }

  lemma {:induction false} BookReads(sdk: Sdk, spends: seq<CoinSpend>, asset: Option<Bytes32>)
    requires AllAdmitted(sdk, spends)
    ensures Total(BookOf(sdk, spends).created, asset) == MadeValue(sdk, spends, asset)
    ensures BookOf(sdk, spends).fee == ReservedFees(sdk, spends)
  {
    if spends != [] {
      BookReads(sdk, spends[1..], asset);
      EntryMakes(sdk, spends[0]);
      EntryReserves(sdk, spends[0]);
      CreatesValued(Reading.Judged(sdk, spends[0]), DenominationOf(sdk, spends[0]), asset);
      TotalConcat(EntryOf(sdk, spends[0]).value.created, BookOf(sdk, spends[1..]).created, asset);
    }
  }

  // ---- conservation ----

  /** Some puzzle of the bundle is an option's, or locks what an option underlies. */
  ghost predicate OptionAmong(sdk: Sdk, spends: seq<CoinSpend>) {
    exists s :: s in spends && s.puzzleReveal.Some? && s.solution.Some? &&
                (|| sdk.parseOption(s.coin, s.puzzleReveal.value, s.solution.value).Found?
                 || sdk.parseOneOfMany(s.puzzleReveal.value).Found?)
  }

  lemma OptionRead(sdk: Sdk, spends: seq<CoinSpend>)
    ensures IsOptionBundle(sdk, spends) <==> OptionAmong(sdk, spends)
  {
    if s :| s in spends && IsOptionCoin(sdk, s) {
    }
    if s :| s in spends && s.puzzleReveal.Some? && s.solution.Some? &&
            (|| sdk.parseOption(s.coin, s.puzzleReveal.value, s.solution.value).Found?
             || sdk.parseOneOfMany(s.puzzleReveal.value).Found?)
    {
      assert IsOptionCoin(sdk, s);
    }
  }

  /** No total of the bundle leaves 64 bits. */
  ghost predicate ValueFits(sdk: Sdk, spends: seq<CoinSpend>) {
    && ReservedFees(sdk, spends) <= U64_MAX && DestroyedMojos(sdk, spends) <= U64_MAX
    && forall asset :: InputValue(sdk, spends, asset) <= U64_MAX && MadeValue(sdk, spends, asset) <= U64_MAX
  }

  /** Every CAT comes out as it went in. XCH comes out as coins, reserved fees and destroyed mojos; beside an
      option coin nothing may be destroyed and what does not come out is the fee. */
  ghost predicate Conserved(sdk: Sdk, spends: seq<CoinSpend>) {
    && (forall asset: Bytes32 :: InputValue(sdk, spends, Some(asset)) == MadeValue(sdk, spends, Some(asset)))
    && if OptionAmong(sdk, spends)
       then DestroyedMojos(sdk, spends) == 0 && MadeValue(sdk, spends, None) <= InputValue(sdk, spends, None)
       else InputValue(sdk, spends, None) ==
            MadeValue(sdk, spends, None) + ReservedFees(sdk, spends) + DestroyedMojos(sdk, spends)
  }

  /** The fee of a bundle: what it reserves and destroys, or beside an option coin what does not come out. */
  ghost function FeeOf(sdk: Sdk, spends: seq<CoinSpend>): int {
    if OptionAmong(sdk, spends)
    then InputValue(sdk, spends, None) - MadeValue(sdk, spends, None)
    else ReservedFees(sdk, spends) + DestroyedMojos(sdk, spends)
  }

  lemma ValueReads(sdk: Sdk, spends: seq<CoinSpend>)
    requires AllAdmitted(sdk, spends)
    ensures Fits(BookOf(sdk, spends)) <==> ValueFits(sdk, spends)
    ensures XchConserved(BookOf(sdk, spends), IsOptionBundle(sdk, spends)) && CatsConserved(BookOf(sdk, spends)) <==>
            Conserved(sdk, spends)
    ensures ReportedFee(BookOf(sdk, spends), IsOptionBundle(sdk, spends)) == FeeOf(sdk, spends)
  {
    var book := BookOf(sdk, spends);
    OptionRead(sdk, spends);
    EveryMeltIsNamed(sdk, spends);
    forall asset
      ensures Total(book.spent, asset) == InputValue(sdk, spends, asset)
      ensures Total(book.created, asset) == MadeValue(sdk, spends, asset)
    {
      InputsAreTheCoins(sdk, spends, asset);
      BookReads(sdk, spends, asset);
    }
    BookReads(sdk, spends, None);
    assert book.melted == DestroyedMojos(sdk, spends);
    CatsRead(sdk, spends);
  }

  lemma CatsRead(sdk: Sdk, spends: seq<CoinSpend>)
    requires AllAdmitted(sdk, spends)
    ensures CatsConserved(BookOf(sdk, spends)) <==>
            forall asset: Bytes32 :: InputValue(sdk, spends, Some(asset)) == MadeValue(sdk, spends, Some(asset))
  {
    var book := BookOf(sdk, spends);
    forall asset: Bytes32
      ensures Total(book.spent, Some(asset)) == Total(book.created, Some(asset)) <==>
              InputValue(sdk, spends, Some(asset)) == MadeValue(sdk, spends, Some(asset))
    {
      InputsAreTheCoins(sdk, spends, Some(asset));
      BookReads(sdk, spends, Some(asset));
    }
  }

  // ---- mints ----

  /** Some signed standard XCH spend asserts one of the launcher's announcements. */
  ghost predicate LaunchAsserted(sdk: Sdk, spends: seq<CoinSpend>, l: CoinSpend) {
    exists s, message ::
      && s in spends && ArmFor(sdk, s).StandardArm?
      && CreateCoinAnnouncement(message) in Emitted(sdk, l)
      && AssertCoinAnnouncement(sdk.announcementId(sdk.coinId(l.coin), message)) in Emitted(sdk, s)
  }

  ghost predicate LaunchTied(sdk: Sdk, spends: seq<CoinSpend>, l: CoinSpend) {
    && (exists s :: s in spends && sdk.coinId(s.coin) == l.coin.parent)
    && (exists e :: e in spends && ArmFor(sdk, e).NftEveArm? && e.coin.parent == sdk.coinId(l.coin))
    && LaunchAsserted(sdk, spends, l)
  }

  ghost predicate MakesLauncher(sdk: Sdk, spend: CoinSpend) {
    exists c :: c in Reading.Judged(sdk, spend) && c.CreateCoin? && c.puzzleHash == sdk.launcherHash
  }

  /** Every launcher is tied to a spent parent, an eve and a signed assertion, every eve to a launcher, and where
      there is a launcher some spend makes a launcher output. */
  ghost predicate MintsTied(sdk: Sdk, spends: seq<CoinSpend>) {
    && (forall l :: l in spends && ArmFor(sdk, l).LaunchArm? ==>
          LaunchTied(sdk, spends, l) && LauncherMade(sdk, spends))
    && (forall e :: e in spends && ArmFor(sdk, e).NftEveArm? ==> EveIsBound(sdk, spends, e))
  }

  lemma {:induction false} SpentIds(sdk: Sdk, spends: seq<CoinSpend>, id: Bytes32)
    ensures id in CoinIds(sdk, spends) <==> exists s :: s in spends && sdk.coinId(s.coin) == id
  {
    if spends != [] {
      SpentIds(sdk, spends[1..], id);
      assert spends == [spends[0]] + spends[1..];
    }
  }

  lemma {:induction false} CreateListed(list: seq<Condition>, asset: Option<Bytes32>, hash: Bytes32)
    ensures (exists o :: o in Creates(list, asset) && o.puzzleHash == hash) <==>
            exists c :: c in list && c.CreateCoin? && c.puzzleHash == hash
  {
    if list != [] {
      CreateListed(list[1..], asset, hash);
      assert list == [list[0]] + list[1..];
      if list[0].CreateCoin? {
        assert Creates(list, asset) ==
          [DecodedOutput(list[0].puzzleHash, list[0].amount, asset)] + Creates(list[1..], asset);
      } else {
        assert Creates(list, asset) == Creates(list[1..], asset);
      }
    }
  }

  ghost predicate LauncherAmong(sdk: Sdk, created: seq<DecodedOutput>) {
    exists o :: o in created && o.puzzleHash == sdk.launcherHash
  }

  ghost predicate LauncherMade(sdk: Sdk, spends: seq<CoinSpend>) {
    exists s :: s in spends && MakesLauncher(sdk, s)
  }

  lemma {:induction false} LauncherListed(sdk: Sdk, spends: seq<CoinSpend>)
    requires AllAdmitted(sdk, spends)
    ensures LauncherAmong(sdk, BookOf(sdk, spends).created) <==> LauncherMade(sdk, spends)
  {
    if spends != [] {
      LauncherListed(sdk, spends[1..]);
      OneLauncherListed(sdk, spends[0]);
      LauncherAhead(sdk, spends, EntryOf(sdk, spends[0]).value.created, BookOf(sdk, spends[1..]).created);
    }
  }

  lemma OneLauncherListed(sdk: Sdk, spend: CoinSpend)
    requires EntryOf(sdk, spend).Some?
    ensures LauncherAmong(sdk, EntryOf(sdk, spend).value.created) <==> MakesLauncher(sdk, spend)
  {
    EntryMakes(sdk, spend);
    CreateListed(Reading.Judged(sdk, spend), DenominationOf(sdk, spend), sdk.launcherHash);
  }

  lemma LauncherAhead(sdk: Sdk, spends: seq<CoinSpend>, first: seq<DecodedOutput>, rest: seq<DecodedOutput>)
    requires spends != []
    ensures LauncherMade(sdk, spends) <==> MakesLauncher(sdk, spends[0]) || LauncherMade(sdk, spends[1..])
    ensures LauncherAmong(sdk, first + rest) <==> LauncherAmong(sdk, first) || LauncherAmong(sdk, rest)
  {
    assert spends == [spends[0]] + spends[1..];
    if s :| s in spends && MakesLauncher(sdk, s) {
      assert s == spends[0] || s in spends[1..];
    }
    if o :| o in first + rest && o.puzzleHash == sdk.launcherHash {
      assert o in first || o in rest;
    }
  }

  lemma AssertedReads(sdk: Sdk, spends: seq<CoinSpend>, l: CoinSpend)
    ensures (exists id ::
               id in Announced(sdk, sdk.IdOf(l.coin), Emitted(sdk, l)) && SignedlyAsserted(sdk, spends, id)) <==>
            LaunchAsserted(sdk, spends, l)
  {
    var ids := Announced(sdk, sdk.coinId(l.coin), Emitted(sdk, l));
    Reading.AnnouncedReads(sdk, l.coin, Emitted(sdk, l));
    if id :| id in ids && SignedlyAsserted(sdk, spends, id) {
      var s :| s in spends && ArmFor(sdk, s).StandardArm? && id in AssertedAnnouncements(Emitted(sdk, s));
      var message :| CreateCoinAnnouncement(message) in Emitted(sdk, l) &&
                     sdk.announcementId(sdk.coinId(l.coin), message) == id;
      assert AssertCoinAnnouncement(id) in Emitted(sdk, s);
    }
    if s, message :| s in spends && ArmFor(sdk, s).StandardArm? && CreateCoinAnnouncement(message) in Emitted(sdk, l) &&
                     AssertCoinAnnouncement(sdk.announcementId(sdk.coinId(l.coin), message)) in Emitted(sdk, s)
    {
      var id := sdk.announcementId(sdk.coinId(l.coin), message);
      assert AssertCoinAnnouncement(id) in Emitted(sdk, s) && id in AssertedAnnouncements(Emitted(sdk, s));
      assert id in ids && SignedlyAsserted(sdk, spends, id);
    }
  }

  lemma LaunchRead(sdk: Sdk, spends: seq<CoinSpend>, l: CoinSpend)
    requires AllAdmitted(sdk, spends) && l in spends && ArmFor(sdk, l).LaunchArm?
    ensures var book, launch := BookOf(sdk, spends), LaunchOf(sdk, l);
            && launch in book.launches
            && (&& launch.parent in CoinIds(sdk, spends) && launch.coinId in book.eveParents
                && (exists id :: id in launch.announced && id in book.asserted)
                <==> LaunchTied(sdk, spends, l))
  {
    RecordsOfSpends(sdk, spends);
    SpentIds(sdk, spends, l.coin.parent);
    AssertedReads(sdk, spends, l);
  }

  lemma EveRead(sdk: Sdk, spends: seq<CoinSpend>, e: CoinSpend)
    requires AllAdmitted(sdk, spends) && e in spends && ArmFor(sdk, e).NftEveArm?
    ensures e.coin.parent in BookOf(sdk, spends).eveParents
    ensures (exists l :: l in BookOf(sdk, spends).launches && l.coinId == e.coin.parent) <==> EveIsBound(sdk, spends, e)
  {
    RecordsOfSpends(sdk, spends);
    var launches := BookOf(sdk, spends).launches;
    if l :| l in launches && l.coinId == e.coin.parent {
      var s :| s in spends && ArmFor(sdk, s).LaunchArm? && LaunchOf(sdk, s) == l;
    }
    if s :| s in spends && ArmFor(sdk, s).LaunchArm? && sdk.IdOf(s.coin) == e.coin.parent {
      assert LaunchOf(sdk, s) in launches;
    }
  }

  /** The mint check over the conditions, both ways. */
  lemma MintsExactly(sdk: Sdk, spends: seq<CoinSpend>)
    requires AllAdmitted(sdk, spends)
    ensures MintBound(sdk, BookOf(sdk, spends), CoinIds(sdk, spends)) <==> MintsTied(sdk, spends)
  {
    if MintBound(sdk, BookOf(sdk, spends), CoinIds(sdk, spends)) {
      BoundIsTied(sdk, spends);
    }
    if MintsTied(sdk, spends) {
      TiedIsBound(sdk, spends);
    }
  }

  lemma BoundIsTied(sdk: Sdk, spends: seq<CoinSpend>)
    requires AllAdmitted(sdk, spends) && MintBound(sdk, BookOf(sdk, spends), CoinIds(sdk, spends))
    ensures MintsTied(sdk, spends)
  {
    LauncherListed(sdk, spends);
    forall l | l in spends && ArmFor(sdk, l).LaunchArm?
      ensures LaunchTied(sdk, spends, l) && LauncherMade(sdk, spends)
    {
      LaunchRead(sdk, spends, l);
    }
    forall e | e in spends && ArmFor(sdk, e).NftEveArm? ensures EveIsBound(sdk, spends, e) {
      EveRead(sdk, spends, e);
    }
  }

  lemma TiedIsBound(sdk: Sdk, spends: seq<CoinSpend>)
    requires AllAdmitted(sdk, spends) && MintsTied(sdk, spends)
    ensures MintBound(sdk, BookOf(sdk, spends), CoinIds(sdk, spends))
  {
    var book := BookOf(sdk, spends);
    assert book.launches != [] ==> LauncherAmong(sdk, book.created) by {
      if book.launches != [] {
        TiedLaunch(sdk, spends, book.launches[0]);
        LauncherListed(sdk, spends);
      }
    }
    forall l | l in book.launches
      ensures l.parent in CoinIds(sdk, spends) && l.coinId in book.eveParents
      ensures exists id :: id in l.announced && id in book.asserted
    {
      TiedLaunch(sdk, spends, l);
    }
    forall p | p in book.eveParents ensures exists l :: l in book.launches && l.coinId == p {
      TiedEve(sdk, spends, p);
    }
  }

  lemma TiedLaunch(sdk: Sdk, spends: seq<CoinSpend>, l: Launch)
    requires AllAdmitted(sdk, spends) && MintsTied(sdk, spends) && l in BookOf(sdk, spends).launches
    ensures l.parent in CoinIds(sdk, spends) && l.coinId in BookOf(sdk, spends).eveParents
    ensures exists id :: id in l.announced && id in BookOf(sdk, spends).asserted
    ensures LauncherMade(sdk, spends)
  {
    RecordsOfSpends(sdk, spends);
    var s :| s in spends && ArmFor(sdk, s).LaunchArm? && LaunchOf(sdk, s) == l;
    LaunchRead(sdk, spends, s);
  }

  lemma TiedEve(sdk: Sdk, spends: seq<CoinSpend>, p: Bytes32)
    requires AllAdmitted(sdk, spends) && MintsTied(sdk, spends) && p in BookOf(sdk, spends).eveParents
    ensures exists l :: l in BookOf(sdk, spends).launches && l.coinId == p
  {
    RecordsOfSpends(sdk, spends);
    var e :| e in spends && ArmFor(sdk, e).NftEveArm? && e.coin.parent == p;
    EveRead(sdk, spends, e);
  }

  // ---- the verdict ----

  /** Accepted exactly when every spend is admitted, no total overflows, mints and sinks are tied and value is
      conserved: the whole analysis over puzzles, conditions and coins. */
  lemma AcceptedExactly(sdk: Sdk, spends: seq<CoinSpend>)
    ensures Accepted(sdk, spends) <==>
            && spends != [] && (forall s :: s in spends ==> Admitted(sdk, s))
            && ValueFits(sdk, spends) && Conserved(sdk, spends)
            && MintsTied(sdk, spends) && Offers.SinksPaid(sdk, Offers.SendsOf(sdk, spends))
  {
    forall s | s in spends ensures EntryOf(sdk, s).Some? <==> Admitted(sdk, s) {
      Reading.AdmittedExactly(sdk, s);
    }
    if AllAdmitted(sdk, spends) {
      ValueReads(sdk, spends);
      MintsExactly(sdk, spends);
      Offers.SettlementExactly(sdk, spends);
    }
  }

  /** The spend decodes, its reveal hashes to the coin, and it moves as the first layer it is says it may. */
  ghost predicate Admitted(sdk: Sdk, spend: CoinSpend) {
    && spend.puzzleReveal.Some? && spend.solution.Some?
    && sdk.treeHash(spend.puzzleReveal.value) == spend.coin.puzzleHash
    && Reading.Moves(sdk, spend.coin, spend.puzzleReveal.value, spend.solution.value)
  }

  // ---- the effect ----

  lemma {:induction false} PaymentsRouted(sdk: Sdk, outputs: seq<DecodedOutput>, sink: bool, hash: Bytes32, amount: U64,
                                          asset: Option<string>)
    ensures PaymentsTo(Routed(sdk, outputs, sink), hash, amount, asset) ==
            if (hash == sdk.settlementHash || hash == sdk.launcherHash) == sink
            then PaymentsTo(outputs, hash, amount, asset) else 0
  {
    if outputs != [] {
      PaymentsRouted(sdk, outputs[1..], sink, hash, amount, asset);
      if sdk.IsSinkHash(outputs[0].puzzleHash) == sink {
        assert Routed(sdk, outputs, sink)[1..] == Routed(sdk, outputs[1..], sink);
      } else {
        assert Routed(sdk, outputs, sink) == Routed(sdk, outputs[1..], sink);
      }
    }
  }

  lemma {:induction false} PaymentsOwned(owner: Owner, outputs: seq<DecodedOutput>, mine: bool, hash: Bytes32,
                                         amount: U64, asset: Option<string>)
    ensures PaymentsTo(Owned(owner, outputs, mine), hash, amount, asset) ==
            if owner.Owns(hash) == mine then PaymentsTo(outputs, hash, amount, asset) else 0
  {
    if outputs != [] {
      PaymentsOwned(owner, outputs[1..], mine, hash, amount, asset);
      if owner.Owns(outputs[0].puzzleHash) == mine {
        assert Owned(owner, outputs, mine)[1..] == Owned(owner, outputs[1..], mine);
      } else {
        assert Owned(owner, outputs, mine) == Owned(owner, outputs[1..], mine);
      }
    }
  }

  /** How many sinks a list makes, at either structural hash. */
  function MakesSinks(sdk: Sdk, list: seq<Condition>, amount: U64): nat {
    if list == [] then 0
    else
      (if list[0].CreateCoin? && list[0].amount == amount &&
          (list[0].puzzleHash == sdk.settlementHash || list[0].puzzleHash == sdk.launcherHash) then 1 else 0) +
      MakesSinks(sdk, list[1..], amount)
  }

  function MadeSinks(sdk: Sdk, spends: seq<CoinSpend>, amount: U64, asset: Option<string>): nat {
    if spends == [] then 0
    else
      (if HexAsset(DenominationOf(sdk, spends[0])) == asset
       then MakesSinks(sdk, Reading.Judged(sdk, spends[0]), amount) else 0) +
      MadeSinks(sdk, spends[1..], amount, asset)
  }

  lemma {:induction false} PaymentsOfConcat(a: seq<DecodedOutput>, b: seq<DecodedOutput>, amount: U64,
                                            asset: Option<string>)
    ensures PaymentsOf(a + b, amount, asset) == PaymentsOf(a, amount, asset) + PaymentsOf(b, amount, asset)
  {
    if a == [] {
      assert a + b == b;
    } else {
      assert (a + b)[0] == a[0] && (a + b)[1..] == a[1..] + b;
      PaymentsOfConcat(a[1..], b, amount, asset);
    }
  }

  lemma {:induction false} SinksCounted(sdk: Sdk, list: seq<Condition>, denomination: Option<Bytes32>, amount: U64,
                                        asset: Option<string>)
    ensures PaymentsOf(Routed(sdk, Creates(list, denomination), true), amount, asset) ==
            if HexAsset(denomination) == asset then MakesSinks(sdk, list, amount) else 0
  {
    if list != [] {
      var c, rest := list[0], Creates(list[1..], denomination);
      SinksCounted(sdk, list[1..], denomination, amount, asset);
      if c.CreateCoin? {
        var first := DecodedOutput(c.puzzleHash, c.amount, denomination);
        RoutedConcat(sdk, [first], rest, true);
        assert Creates(list, denomination) == [first] + rest;
        PaymentsOfConcat(Routed(sdk, [first], true), Routed(sdk, rest, true), amount, asset);
      } else {
        assert Creates(list, denomination) == rest;
      }
    }
  }

  lemma {:induction false} SinksAreMade(sdk: Sdk, spends: seq<CoinSpend>, amount: U64, asset: Option<string>)
    requires AllAdmitted(sdk, spends)
    ensures PaymentsOf(Routed(sdk, BookOf(sdk, spends).created, true), amount, asset) ==
            MadeSinks(sdk, spends, amount, asset)
  {
    if spends != [] {
      var first, rest := EntryOf(sdk, spends[0]).value.created, BookOf(sdk, spends[1..]).created;
      SinksAreMade(sdk, spends[1..], amount, asset);
      EntryMakes(sdk, spends[0]);
      SinksCounted(sdk, Reading.Judged(sdk, spends[0]), DenominationOf(sdk, spends[0]), amount, asset);
      RoutedConcat(sdk, first, rest, true);
      PaymentsOfConcat(Routed(sdk, first, true), Routed(sdk, rest, true), amount, asset);
    }
  }

  /** How many melts a bundle performs on coins with this id. */
  function MeltsOn(sdk: Sdk, spends: seq<CoinSpend>, id: string): nat {
    if spends == [] then 0
    else
      (if ArmFor(sdk, spends[0]).MeltArm? && Hex(sdk.coinId(spends[0].coin).bytes) == id then 1 else 0) +
      MeltsOn(sdk, spends[1..], id)
  }

  lemma {:induction false} MeltsAreMade(sdk: Sdk, spends: seq<CoinSpend>, id: string)
    ensures MeltsOf(Destroyed(sdk, spends), id) == MeltsOn(sdk, spends, id)
  {
    if spends != [] {
      MeltsAreMade(sdk, spends[1..], id);
      if ArmFor(sdk, spends[0]).MeltArm? {
        assert Destroyed(sdk, spends)[1..] == Destroyed(sdk, spends[1..]);
      } else {
        assert Destroyed(sdk, spends) == Destroyed(sdk, spends[1..]);
      }
    }
  }

  // ---- the gate over a bundle ----

  /** Every coin made at a hash that is neither the wallet's nor structural is named by address as often as it is
      made, and no other coin is. */
  ghost predicate PaymentsNamed(sdk: Sdk, owner: Owner, spends: seq<CoinSpend>, lines: seq<SpendOutput>) {
    forall hash: Bytes32, amount: U64, asset: Option<string> ::
      LinesNaming(owner.codec, lines, hash, amount, asset) ==
      if owner.Owns(hash) || hash == sdk.settlementHash || hash == sdk.launcherHash then 0
      else MadeTo(sdk, spends, hash, amount, asset)
  }

  ghost predicate SinksOfNamed(sdk: Sdk, owner: Owner, spends: seq<CoinSpend>, lines: seq<SpendOutput>) {
    forall amount: U64, asset: Option<string> ::
      SinkLinesNaming(owner.codec, lines, amount, asset) ==
      if amount == 0 then 0 else MadeSinks(sdk, spends, amount, asset)
  }

  /** The summary names what the bundle does: fee, payments out of the wallet, sinks of value, melts and acts. */
  ghost predicate BundleNamed(sdk: Sdk, owner: Owner, spends: seq<CoinSpend>, summary: TransactionSummary) {
    && summary.fee == FeeOf(sdk, spends)
    && (forall line :: line in summary.outputs && line.address != "" ==> owner.codec.Decode(line.address).Some?)
    && PaymentsNamed(sdk, owner, spends, summary.outputs)
    && SinksOfNamed(sdk, owner, spends, summary.outputs)
    && MeltsOfNamed(sdk, spends, summary.meltedSingletons)
    && ActsNamed(owner.codec, summary.nftOperations, NftActs(sdk, spends))
  }

  /** Each melted coin is named by its id as often as it is melted, and no other id is. */
  ghost predicate MeltsOfNamed(sdk: Sdk, spends: seq<CoinSpend>, ids: seq<string>) {
    forall id: string :: IdsNaming(ids, id) == MeltsOn(sdk, spends, id)
  }

  lemma RecipientsRead(sdk: Sdk, owner: Owner, spends: seq<CoinSpend>, hash: Bytes32, amount: U64,
                       asset: Option<string>)
    requires Accepted(sdk, spends)
    ensures PaymentsTo(ReclassifyByOwnership(owner, EffectOf(sdk, spends)).recipients, hash, amount, asset) ==
            if owner.Owns(hash) || hash == sdk.settlementHash || hash == sdk.launcherHash then 0
            else MadeTo(sdk, spends, hash, amount, asset)
  {
    var created := BookOf(sdk, spends).created;
    MadeIsCreated(sdk, spends, hash, amount, asset);
    PaymentsRouted(sdk, created, false, hash, amount, asset);
    PaymentsOwned(owner, Routed(sdk, created, false), false, hash, amount, asset);
  }

  lemma PaymentsNamedReads(sdk: Sdk, owner: Owner, spends: seq<CoinSpend>, lines: seq<SpendOutput>)
    requires Accepted(sdk, spends)
    ensures RecipientsNamed(owner.codec, lines, ReclassifyByOwnership(owner, EffectOf(sdk, spends)).recipients) <==>
            && (forall line :: line in lines && line.address != "" ==> owner.codec.Decode(line.address).Some?)
            && PaymentsNamed(sdk, owner, spends, lines)
  {
    var recipients := ReclassifyByOwnership(owner, EffectOf(sdk, spends)).recipients;
    forall hash: Bytes32, amount: U64, asset: Option<string>
      ensures PaymentsTo(recipients, hash, amount, asset) ==
              if owner.Owns(hash) || hash == sdk.settlementHash || hash == sdk.launcherHash then 0
              else MadeTo(sdk, spends, hash, amount, asset)
    {
      RecipientsRead(sdk, owner, spends, hash, amount, asset);
    }
  }

  lemma SinksNamedReads(sdk: Sdk, owner: Owner, spends: seq<CoinSpend>, lines: seq<SpendOutput>)
    requires Accepted(sdk, spends)
    ensures SinksNamed(owner.codec, lines, EffectOf(sdk, spends).protocolSink) <==>
            SinksOfNamed(sdk, owner, spends, lines)
  {
    forall amount: U64, asset: Option<string>
      ensures PaymentsOf(EffectOf(sdk, spends).protocolSink, amount, asset) == MadeSinks(sdk, spends, amount, asset)
    {
      SinksAreMade(sdk, spends, amount, asset);
    }
  }

  lemma MeltsNamedReads(sdk: Sdk, spends: seq<CoinSpend>, ids: seq<string>)
    ensures MeltsNamed(ids, Destroyed(sdk, spends)) <==> MeltsOfNamed(sdk, spends, ids)
  {
    forall id: string ensures MeltsOf(Destroyed(sdk, spends), id) == MeltsOn(sdk, spends, id) {
      MeltsAreMade(sdk, spends, id);
    }
  }

  /** What the effect reports, over the spends. */
  lemma EffectReads(sdk: Sdk, spends: seq<CoinSpend>)
    requires Accepted(sdk, spends)
    ensures EffectOf(sdk, spends).fee == FeeOf(sdk, spends)
    ensures EffectOf(sdk, spends).meltedSingletons == Destroyed(sdk, spends)
    ensures EffectOf(sdk, spends).nftOperations == NftActs(sdk, spends)
  {
    ValueReads(sdk, spends);
    EveryMeltIsNamed(sdk, spends);
    ActsNameOwners(sdk, spends);
  }

  /** The gate over a bundle, name by name. */
  lemma GateExactly(sdk: Sdk, owner: Owner, spends: seq<CoinSpend>, summary: TransactionSummary)
    requires owner.codec.Lawful() && Accepted(sdk, spends)
    ensures SameSummary(owner.codec, summary, ReviewableSummary(sdk, owner, spends)) <==>
            BundleNamed(sdk, owner, spends, summary)
  {
    var split := ReclassifyByOwnership(owner, EffectOf(sdk, spends));
    SameSummaryNames(owner.codec, summary, split);
    assert Names(owner.codec, summary, split) <==> BundleNamed(sdk, owner, spends, summary) by {
      PaymentsNamedReads(sdk, owner, spends, summary.outputs);
      SinksNamedReads(sdk, owner, spends, summary.outputs);
      MeltsNamedReads(sdk, spends, summary.meltedSingletons);
      EffectReads(sdk, spends);
    }
  }
}
