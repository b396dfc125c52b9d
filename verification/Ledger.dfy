/** The mutable ledger a bundle is accounted into, one coin spend at a time. Every arm is proved
    to add exactly the spend's book entry, or to refuse precisely when there is no entry or a
    total would leave 64 bits. */
module Ledger {
  import opened Prelude
  import opened Clvm
  import opened Conditions
  import opened Settlement
  import opened Book

  /** A running total, refused when it is not representable. */
  function Accumulate(total: U64, amount: U64): (r: Option<U64>)
    ensures r == if total + amount <= U64_MAX then Some(total + amount) else None
  {
    if amount > U64_MAX - total then None else Some(total + amount)
  }

  function Entered(totals: map<Bytes32, U64>, asset: Bytes32): U64 {
    if asset in totals then totals[asset] else 0
  }

  lemma TotalsAfter(before: seq<DecodedOutput>, coin: DecodedOutput)
    ensures forall asset :: Total(before + [coin], asset) ==
              Total(before, asset) + if asset == coin.assetId then coin.amount else 0
  {
    forall asset ensures Total(before + [coin], asset) ==
                         Total(before, asset) + if asset == coin.assetId then coin.amount else 0 {
      TotalConcat(before, [coin], asset);
    }
  }

  lemma RoutedAfter(sdk: Sdk, before: seq<DecodedOutput>, output: DecodedOutput)
    ensures Routed(sdk, before + [output], true) ==
            Routed(sdk, before, true) + if sdk.IsSinkHash(output.puzzleHash) then [output] else []
    ensures Routed(sdk, before + [output], false) ==
            Routed(sdk, before, false) + if sdk.IsSinkHash(output.puzzleHash) then [] else [output]
  {
    RoutedConcat(sdk, before, [output], true);
    RoutedConcat(sdk, before, [output], false);
  }

  ghost predicate OutputsRecorded(sdk: Sdk, outputs: seq<DecodedOutput>, protocolSink: seq<DecodedOutput>, xchOut: U64,
                                  catOut: map<Bytes32, U64>, created: seq<DecodedOutput>)
  {
    && outputs == Routed(sdk, created, false)
    && protocolSink == Routed(sdk, created, true)
    && TotalsRecorded(xchOut, catOut, created)
  }

  ghost predicate TotalsRecorded(xch: U64, cats: map<Bytes32, U64>, coins: seq<DecodedOutput>) {
    && xch == Total(coins, None)
    && (forall asset :: Entered(cats, asset) == Total(coins, Some(asset)))
  }

  ghost predicate LaunchesRecorded(ids: set<Bytes32>, parents: seq<Bytes32>,
                                   announcements: seq<(Bytes32, seq<Bytes32>)>,
                                   launches: seq<Launch>)
  {
    && ids == LaunchedIds(launches)
    && |parents| == |announcements| == |launches|
    && (forall i :: 0 <= i < |launches| ==>
          parents[i] == launches[i].parent && announcements[i] == (launches[i].coinId, launches[i].announced))
  }

  class SpendLedger {
    const sdk: Sdk
    var outputs: seq<DecodedOutput>
    var protocolSink: seq<DecodedOutput>
    var fee: U64
    var melted: U64
    var meltedSingletons: seq<Bytes32>
    var xchIn: U64
    var xchOut: U64
    var catIn: map<Bytes32, U64>
    var catOut: map<Bytes32, U64>
    var nftOperations: seq<NftOperation>
    var spentCoinIds: set<Bytes32>
    var launcherCoinIds: set<Bytes32>
    var launcherParents: seq<Bytes32>
    var eveParents: seq<Bytes32>
    var launcherAnnouncements: seq<(Bytes32, seq<Bytes32>)>
    var signedAnnouncementAssertions: set<Bytes32>
    var bindings: seq<CoinBinding>

    /** Everything accounted so far, in unbounded terms. */
    ghost var book: Book

    /** Each field is the part of the book it stands for, totals included. */
    ghost predicate Valid()
      reads this
    {
      && OutputsRecorded(sdk, outputs, protocolSink, xchOut, catOut, book.created)
      && TotalsRecorded(xchIn, catIn, book.spent)
      && fee == book.fee
      && melted == book.melted
      && meltedSingletons == book.melts
      && nftOperations == book.operations
      && eveParents == book.eveParents
      && signedAnnouncementAssertions == book.asserted
      && bindings == book.bindings
      && LaunchesRecorded(launcherCoinIds, launcherParents, launcherAnnouncements, book.launches)
    }

    constructor (sdk: Sdk)
      ensures Valid() && book == EMPTY_BOOK && this.sdk == sdk
    {
      this.sdk := sdk;
      outputs, protocolSink, fee, melted, meltedSingletons := [], [], 0, 0, [];
      xchIn, xchOut, catIn, catOut, nftOperations := 0, 0, map[], map[], [];
      spentCoinIds, launcherCoinIds, launcherParents, eveParents := {}, {}, [], [];
      launcherAnnouncements, signedAnnouncementAssertions, bindings := [], {}, [];
      book := EMPTY_BOOK;
    }

    /** The coin being spent is value entering the bundle. */
    method RecordInput(coin: Coin, asset: Option<Bytes32>) returns (ok: bool)
      requires Valid()
      modifies `xchIn, `catIn, `book
      ensures ok <==> Total(old(book).spent + Spent(coin, asset), asset) <= U64_MAX
      ensures ok ==> Valid() && book == old(book).(spent := old(book).spent + Spent(coin, asset))
    {
      TotalsAfter(book.spent, Spent(coin, asset)[0]);
      if asset.None? {
        var total := Accumulate(xchIn, coin.amount);
        if total.None? { return false; }
        xchIn := total.value;
      } else {
        var total := Accumulate(Entered(catIn, asset.value), coin.amount);
        if total.None? { return false; }
        catIn := catIn[asset.value := total.value];
      }
      book := book.(spent := book.spent + Spent(coin, asset));
      return true;
    }

    /** Raise the running total of value leaving, in the output's own denomination. */
    method RaiseOutTotal(output: DecodedOutput) returns (ok: bool)
      requires TotalsRecorded(xchOut, catOut, book.created)
      modifies `xchOut, `catOut
      ensures ok <==> Total(book.created + [output], output.assetId) <= U64_MAX
      ensures ok ==> TotalsRecorded(xchOut, catOut, book.created + [output])
    {
      TotalsAfter(book.created, output);
      if output.assetId.None? {
        var total := Accumulate(xchOut, output.amount);
        if total.None? { return false; }
        xchOut := total.value;
      } else {
        var total := Accumulate(Entered(catOut, output.assetId.value), output.amount);
        if total.None? { return false; }
        catOut := catOut[output.assetId.value := total.value];
      }
      return true;
    }

    /** Structural destinations are sinks, everything else an ordinary output. */
    method RouteOutput(output: DecodedOutput)
      modifies `outputs, `protocolSink
      ensures protocolSink == old(protocolSink) + (if sdk.IsSinkHash(output.puzzleHash) then [output] else [])
      ensures outputs == old(outputs) + (if sdk.IsSinkHash(output.puzzleHash) then [] else [output])
    {
      if sdk.IsSinkHash(output.puzzleHash) {
        protocolSink := protocolSink + [output];
      } else {
        outputs := outputs + [output];
      }
    }

    /** A created coin is value leaving, routed by where it goes. */
    method RecordOutput(output: DecodedOutput) returns (ok: bool)
      requires Valid()
      modifies `outputs, `protocolSink, `xchOut, `catOut, `book
      ensures ok <==> Total(old(book).created + [output], output.assetId) <= U64_MAX
      ensures ok ==> Valid() && book == old(book).(created := old(book).created + [output])
    {
      RoutedAfter(sdk, book.created, output);
      ok := RaiseOutTotal(output);
      if !ok { return; }
      RouteOutput(output);
      book := book.(created := book.created + [output]);
    }

    /** Account every CREATE_COIN of a condition list. */
    method RecordCreates(conditions: seq<Condition>, asset: Option<Bytes32>) returns (ok: bool)
      requires Valid()
      modifies `outputs, `protocolSink, `xchOut, `catOut, `book
      ensures ok <==> Total(old(book).created + Creates(conditions, asset), asset) <= U64_MAX
      ensures ok ==> Valid() && book == old(book).(created := old(book).created + Creates(conditions, asset))
    {
      ghost var before := book.created;
      BookFits();
      for i := 0 to |conditions|
        invariant Valid()
        invariant book == old(book).(created := before + Creates(conditions[..i], asset))
        invariant Total(before + Creates(conditions[..i], asset), asset) <= U64_MAX
      {
        var c := conditions[i];
        CreatedNext(before, conditions, i, asset);
        if c.CreateCoin? {
          var recorded := RecordOutput(DecodedOutput(c.puzzleHash, c.amount, asset));
          if !recorded { return false; }
        }
      }
      assert conditions[..|conditions|] == conditions;
      return true;
    }

    /** A running total is a 64-bit number, so what has been accounted fits. */
    lemma BookFits()
      requires Valid()
      ensures Fits(book)
    {
      forall asset ensures Total(book.created, asset) <= U64_MAX && Total(book.spent, asset) <= U64_MAX {
        if asset.Some? {
          assert Entered(catOut, asset.value) <= U64_MAX && Entered(catIn, asset.value) <= U64_MAX;
        }
      }
    }

    /** A claimed settlement coin, XCH or CAT: no signature anywhere, every payment an output. */
    method AccountSettlementClaim(coin: Coin, asset: Option<Bytes32>, puzzle: SExp, solution: SExp) returns (ok: bool)
      requires Valid()
      modifies this
      ensures spentCoinIds == old(spentCoinIds)
      ensures ok <==> Admits(old(book), ClaimEntry(sdk, coin, asset, puzzle, solution))
      ensures ok ==> Valid() && book == old(book).Plus(ClaimEntry(sdk, coin, asset, puzzle, solution).value)
    {
      BookFits();
      ghost var before := book;
      var entered := RecordInput(coin, asset);
      var emitted := sdk.RunConditions(puzzle, solution);
      if emitted.Some? && NoSignature(emitted.value) {
        CreatesOneAsset(emitted.value, asset);
        OneAssetFits(before, ClaimEntry(sdk, coin, asset, puzzle, solution).value, asset);
      }
      if !entered || emitted.None? || !NoSignature(emitted.value) { return false; }
      ok := RecordCreates(emitted.value, asset);
      PlusEmpty(before);
    }

    /** One condition of a signed send. XCH sends also report reserved fees and the coin
        announcements they assert. */
    method RecordSent(c: Condition, asset: Option<Bytes32>) returns (ok: bool)
      requires Valid()
      modifies `outputs, `protocolSink, `xchOut, `catOut, `fee, `signedAnnouncementAssertions, `book
      ensures ok <==> !c.NonMeAggSig? && Fits(AfterSent(old(book), c, asset))
      ensures ok ==> Valid() && book == AfterSent(old(book), c, asset)
    {
      BookFits();
      if c.NonMeAggSig? { return false; }
      if c.CreateCoin? {
        var output := DecodedOutput(c.puzzleHash, c.amount, asset);
        OneAssetFits(book, EMPTY_BOOK.(created := [output]), asset);
        PlusEmpty(book);
        ok := RecordOutput(output);
        return;
      }
      if c.ReserveFee? && asset.None? {
        var total := Accumulate(fee, c.fee);
        if total.None? { return false; }
        fee := total.value;
        book := book.(fee := fee);
      } else if c.AssertCoinAnnouncement? && asset.None? {
        signedAnnouncementAssertions := signedAnnouncementAssertions + {c.coinAnnouncementId};
        book := book.(asserted := signedAnnouncementAssertions);
      }
      return true;
    }

    /** Every condition of a signed send, in order. */
    method RecordAllSent(conditions: seq<Condition>, asset: Option<Bytes32>) returns (ok: bool)
      requires Valid()
      modifies `outputs, `protocolSink, `xchOut, `catOut, `fee, `signedAnnouncementAssertions, `book
      ensures ok <==> OnlyMeSignatures(conditions) && Fits(old(book).Plus(SentPart(conditions, asset)))
      ensures ok ==> Valid() && book == old(book).Plus(SentPart(conditions, asset))
    {
      SentStart(book, asset);
      BookFits();
      for i := 0 to |conditions|
        invariant Valid()
        invariant book == old(book).Plus(SentPart(conditions[..i], asset))
        invariant OnlyMeSignatures(conditions[..i]) && Fits(book)
      {
        SentStep(old(book), conditions, i, asset);
        SentStepFits(old(book), conditions, i, asset);
        var recorded := RecordSent(conditions[i], asset);
        if !recorded { return false; }
      }
      assert conditions[..|conditions|] == conditions;
      return true;
    }

    /** A wallet-signed XCH or CAT send. */
    method AccountSend(coin: Coin, asset: Option<Bytes32>, puzzle: SExp, solution: SExp) returns (ok: bool)
      requires Valid()
      modifies this
      ensures spentCoinIds == old(spentCoinIds)
      ensures ok <==> Admits(old(book), SendEntry(sdk, coin, asset, puzzle, solution))
      ensures ok ==> Valid() && book == old(book).Plus(SendEntry(sdk, coin, asset, puzzle, solution).value)
    {
      var committed := CommittedStandardSpend(sdk, solution);
      var emitted := sdk.RunConditions(puzzle, solution);
      if committed.None? || emitted.None? || SoleMessage(emitted.value) != Some(committed.value.message) {
        return false;
      }
      ok := RecordSend(coin, asset, emitted.value);
    }

    /** The coin, its offer binding and its conditions, once its signature is known to be the one
        that commits to them. */
    method RecordSend(coin: Coin, asset: Option<Bytes32>, conditions: seq<Condition>) returns (ok: bool)
      requires Valid()
      modifies this
      ensures spentCoinIds == old(spentCoinIds)
      ensures ok <==> OnlyMeSignatures(conditions) && Fits(old(book).Plus(SentBook(sdk, coin, asset, conditions)))
      ensures ok ==> Valid() && book == old(book).Plus(SentBook(sdk, coin, asset, conditions))
    {
      ghost var before := book;
      BookFits();
      SendEntryParts(before, coin, asset, BindingOf(sdk, coin, conditions), conditions);
      var entered := RecordInput(coin, asset);
      if !entered { return false; }
      var gathered := GatherBinding(sdk, coin, conditions);
      bindings := bindings + [gathered];
      book := book.(bindings := bindings);
      ok := RecordAllSent(conditions, asset);
    }

    /** The conditions of a singleton that must create exactly one odd-amount coin and emit
        nothing outside its allowlist. */
    method RecordRehome(conditions: seq<Condition>, list: Allowlist) returns (ok: bool)
      requires Valid()
      modifies `outputs, `protocolSink, `xchOut, `catOut, `book
      ensures ok <==>
              Rehomes(sdk, conditions, list) && Total(old(book).created + Creates(conditions, None), None) <= U64_MAX
      ensures ok ==> Valid() && book == old(book).(created := old(book).created + Creates(conditions, None))
    {
      var allowed := AllAllowed(conditions, list);
      if !allowed { return false; }
      ghost var before := book.created;
      BookFits();
      var creates := 0;
      for i := 0 to |conditions|
        invariant Valid()
        invariant book == old(book).(created := before + Creates(conditions[..i], None))
        invariant creates == |Creates(conditions[..i], None)| <= 1
        invariant creates == 1 ==> GoodRehome(sdk, Creates(conditions[..i], None)[0], list)
      {
        var c := conditions[i];
        CreatedNext(before, conditions, i, None);
        RehomeNext(sdk, conditions, i, list);
        if c.CreateCoin? {
          creates := creates + 1;
          var output := DecodedOutput(c.puzzleHash, c.amount, None);
          if creates > 1 || !GoodRehome(sdk, output, list) { return false; }
          var recorded := RecordOutput(output);
          if !recorded { return false; }
        }
      }
      assert conditions[..|conditions|] == conditions;
      return creates == 1;
    }

    method RecordOperation(operation: NftOperation, eves: seq<Bytes32>)
      requires Valid()
      modifies `eveParents, `nftOperations, `book
      ensures Valid()
      ensures book ==
              old(book).(operations := old(book).operations + [operation], eveParents := old(book).eveParents + eves)
    {
      eveParents, nftOperations := eveParents + eves, nftOperations + [operation];
      book := book.(operations := nftOperations, eveParents := eveParents);
    }

    /** An NFT spend: the singleton's value, and the act it performs. */
    method RecordNft(coin: Coin, conditions: seq<Condition>, leg: RehomeClass, operation: NftOperation,
                     eves: seq<Bytes32>)
      returns (ok: bool)
      requires Valid()
      modifies `outputs, `protocolSink, `xchIn, `catIn, `xchOut, `catOut, `eveParents, `nftOperations, `book
      ensures ok <==> Rehomes(sdk, conditions, Rehoming(leg)) &&
                      Fits(old(book).Plus(NftBook(coin, conditions, operation, eves)))
      ensures ok ==> Valid() && book == old(book).Plus(NftBook(coin, conditions, operation, eves))
    {
      SingletonFacts(book, SingletonBook(coin, conditions), NftBook(coin, conditions, operation, eves));
      ok := RecordSingleton(coin, conditions, Rehoming(leg));
      if !ok { return; }
      RecordOperation(operation, eves);
    }

    method RecordLaunch(launch: Launch)
      requires Valid()
      modifies `launcherAnnouncements, `launcherCoinIds, `launcherParents, `book
      ensures Valid() && book == old(book).(launches := old(book).launches + [launch])
    {
      launcherAnnouncements := launcherAnnouncements + [(launch.coinId, launch.announced)];
      launcherCoinIds := launcherCoinIds + {launch.coinId};
      launcherParents := launcherParents + [launch.parent];
      book := book.(launches := book.launches + [launch]);
    }

    method RecordMelt(coin: Coin) returns (ok: bool)
      requires Valid()
      modifies `melted, `meltedSingletons, `book
      ensures ok <==> old(book).melted + coin.amount <= U64_MAX
      ensures ok ==> Valid()
      ensures ok ==>
              book == old(book).(melted := old(book).melted + coin.amount, melts := old(book).melts + [sdk.IdOf(coin)])
    {
      var total := Accumulate(melted, coin.amount);
      if total.None? { return false; }
      melted := total.value;
      meltedSingletons := meltedSingletons + [sdk.IdOf(coin)];
      book := book.(melted := melted, melts := meltedSingletons);
      return true;
    }

    /** A terminal singleton spend, judged on the quoted list its signature commits to. */
    method AccountSingletonMelt(coin: Coin, puzzle: SExp, solution: SExp) returns (ok: bool)
      requires Valid()
      modifies this
      ensures spentCoinIds == old(spentCoinIds)
      ensures ok <==> Admits(old(book), MeltEntry(sdk, coin, puzzle, solution))
      ensures ok ==> Valid() && book == old(book).Plus(MeltEntry(sdk, coin, puzzle, solution).value)
    {
      var melts := ReadMelt(sdk, puzzle, solution);
      if !melts { return false; }
      ok := RecordMeltedCoin(coin);
    }

    /** The melted coin enters whole: as an input, as mojos destroyed, and by name. */
    method RecordMeltedCoin(coin: Coin) returns (ok: bool)
      requires Valid()
      modifies this
      ensures spentCoinIds == old(spentCoinIds)
      ensures ok <==> Fits(old(book).Plus(MeltBook(sdk, coin)))
      ensures ok ==> Valid() && book == old(book).Plus(MeltBook(sdk, coin))
    {
      BookFits();
      OneAssetFits(book, MeltBook(sdk, coin), None);
      PlusEmpty(book);
      ok := RecordInput(coin, None);
      if !ok { return; }
      ok := RecordMelt(coin);
    }

    /** An option singleton: only a signed transfer to a free address is admitted. */
    method AccountOptionTransfer(coin: Coin, puzzle: SExp, solution: SExp) returns (ok: bool)
      requires Valid()
      modifies this
      ensures spentCoinIds == old(spentCoinIds)
      ensures ok <==> Admits(old(book), OptionEntry(sdk, coin, puzzle, solution))
      ensures ok ==> Valid() && book == old(book).Plus(OptionEntry(sdk, coin, puzzle, solution).value)
    {
      if !sdk.StandardOf(puzzle).Found? { return false; }
      var committed := CommittedStandardSpend(sdk, solution);
      var emitted := sdk.RunConditions(puzzle, solution);
      if committed.None? || emitted.None? || SoleMessage(emitted.value) != Some(committed.value.message) {
        return false;
      }
      ok := RecordSingleton(coin, emitted.value, OptionTransfer);
    }

    /** A singleton coin and its one output. */
    method RecordSingleton(coin: Coin, conditions: seq<Condition>, list: Allowlist) returns (ok: bool)
      requires Valid()
      modifies `outputs, `protocolSink, `xchIn, `catIn, `xchOut, `catOut, `book
      ensures ok <==> Rehomes(sdk, conditions, list) && Fits(old(book).Plus(SingletonBook(coin, conditions)))
      ensures ok ==> Valid() && book == old(book).Plus(SingletonBook(coin, conditions))
    {
      ghost var before := book;
      BookFits();
      CreatesOneAsset(conditions, None);
      OneAssetFits(before, SingletonBook(coin, conditions), None);
      PlusEmpty(before);
      var entered := RecordInput(coin, None);
      if !entered { return false; }
      ok := RecordRehome(conditions, list);
    }

    /** An NFT transfer: the act is decided on the quoted list the signature commits to, the value
        on the outer conditions. */
    method AccountNftTransfer(coin: Coin, nft: NftView, puzzle: SExp, solution: SExp) returns (ok: bool)
      requires Valid()
      modifies this
      ensures spentCoinIds == old(spentCoinIds)
      ensures ok <==> Admits(old(book), NftTransferEntry(sdk, coin, nft, puzzle, solution))
      ensures ok ==> Valid() && book == old(book).Plus(NftTransferEntry(sdk, coin, nft, puzzle, solution).value)
    {
      var act := ReadSignedTransfer(sdk, nft);
      var emitted := sdk.RunConditions(puzzle, solution);
      if act.None? || emitted.None? || SoleMessage(emitted.value) != Some(act.value.0) { return false; }
      ok := RecordNft(coin, emitted.value, NftOuter, Transfer(nft.launcherId, act.value.1), []);
    }

    /** A mint's eve spend: unsigned, its owner read from the eve puzzle's own quote. */
    method AccountNftEveMint(coin: Coin, nft: NftView, puzzle: SExp, solution: SExp) returns (ok: bool)
      requires Valid()
      modifies this
      ensures spentCoinIds == old(spentCoinIds)
      ensures ok <==> Admits(old(book), NftEveEntry(sdk, coin, nft, puzzle, solution))
      ensures ok ==> Valid() && book == old(book).Plus(NftEveEntry(sdk, coin, nft, puzzle, solution).value)
    {
      var owner := ReadEveOwner(sdk, nft);
      var emitted := sdk.RunConditions(puzzle, solution);
      if owner.None? || emitted.None? || !NoSignature(emitted.value) { return false; }
      ok := RecordNft(coin, emitted.value, NftEve, Mint(nft.launcherId, owner.value), [coin.parent]);
    }

    /** The launcher coin of a mint: unsigned, and remembered with what it announces. */
    method AccountSingletonLaunch(coin: Coin, puzzle: SExp, solution: SExp) returns (ok: bool)
      requires Valid()
      modifies this
      ensures spentCoinIds == old(spentCoinIds)
      ensures ok <==> Admits(old(book), LaunchEntry(sdk, coin, puzzle, solution))
      ensures ok ==> Valid() && book == old(book).Plus(LaunchEntry(sdk, coin, puzzle, solution).value)
    {
      var emitted := sdk.RunConditions(puzzle, solution);
      if emitted.None? || !NoSignature(emitted.value) { return false; }
      var announced := Announced(sdk, sdk.IdOf(coin), emitted.value);
      ghost var entry := SingletonBook(coin, emitted.value);
      var launch := Launch(sdk.IdOf(coin), coin.parent, announced);
      SingletonFacts(book, entry, entry.(launches := [launch]));
      ok := RecordSingleton(coin, emitted.value, Rehoming(Launcher));
      if !ok { return; }
      RecordLaunch(launch);
    }

    /** A CAT coin: claimed through the settlement layer, or sent by the wallet. */
    method AccountCatSpend(coin: Coin, cat: CatView) returns (ok: bool)
      requires Valid()
      modifies this
      ensures spentCoinIds == old(spentCoinIds)
      ensures ok <==> Admits(old(book), CatEntry(sdk, coin, cat))
      ensures ok ==> Valid() && book == old(book).Plus(CatEntry(sdk, coin, cat).value)
    {
      if sdk.SettlementOf(cat.p2Puzzle).Malformed? { return false; }
      if sdk.SettlementOf(cat.p2Puzzle).Found? {
        ok := AccountSettlementClaim(coin, Some(cat.assetId), cat.p2Puzzle, cat.p2Solution);
        return;
      }
      if !sdk.StandardOf(cat.p2Puzzle).Found? { return false; }
      ok := AccountSend(coin, Some(cat.assetId), cat.p2Puzzle, cat.p2Solution);
    }

    /** Account one coin spend: bind the reveal to the coin, then try the layers in order. */
    method AccountCoin(spend: CoinSpend) returns (ok: bool)
      requires Valid()
      modifies this
      ensures spentCoinIds == old(spentCoinIds)
      ensures ok <==> Admits(old(book), EntryOf(sdk, spend))
      ensures ok ==> Valid() && book == old(book).Plus(EntryOf(sdk, spend).value)
    {
      if spend.puzzleReveal.None? || spend.solution.None? { return false; }
      var coin, puzzle, solution := spend.coin, spend.puzzleReveal.value, spend.solution.value;
      if sdk.Hash(puzzle) != coin.puzzleHash { return false; }
      match sdk.CatOf(coin, puzzle, solution) {
        case Malformed => return false;
        case Found(cat) => ok := AccountCatSpend(coin, cat); return;
        case Absent =>
      }
      match sdk.OptionOf(coin, puzzle, solution) {
        case Malformed => return false;
        case Found(option) => ok := AccountOptionTransfer(coin, option.p2Puzzle, option.p2Solution); return;
        case Absent =>
      }
      if !sdk.OneOfManyOf(puzzle).Absent? { return false; }
      if coin.puzzleHash == sdk.launcherHash {
        ok := AccountSingletonLaunch(coin, puzzle, solution);
        return;
      }
      match sdk.NftOf(coin, puzzle, solution) {
        case Malformed => return false;
        case Found(nft) =>
          if nft.proof.EveProof? {
            ok := AccountNftEveMint(coin, nft, puzzle, solution);
          } else {
            ok := AccountNftTransfer(coin, nft, puzzle, solution);
          }
          return;
        case Absent =>
      }
      if sdk.Singleton(puzzle) {
        ok := AccountSingletonMelt(coin, puzzle, solution);
        return;
      }
      match sdk.StandardOf(puzzle) {
        case Malformed => return false;
        case Found(_) => ok := AccountSend(coin, None, puzzle, solution); return;
        case Absent =>
      }
      if !sdk.SettlementOf(puzzle).Found? { return false; }
      ok := AccountSettlementClaim(coin, None, puzzle, solution);
    }
  }

  /** An entry exists and adding it keeps every total within 64 bits. */
  ghost predicate Admits(book: Book, entry: Option<Book>) {
    entry.Some? && Fits(book.Plus(entry.value))
  }

  /** One more condition read: its output, if any, is appended, and the total so far is no more
      than the whole list's. */
  lemma CreatedNext(before: seq<DecodedOutput>, conditions: seq<Condition>, i: nat, asset: Option<Bytes32>)
    requires i < |conditions|
    ensures var c := conditions[i];
            before + Creates(conditions[..i + 1], asset) ==
            if c.CreateCoin?
              then before + Creates(conditions[..i], asset) + [DecodedOutput(c.puzzleHash, c.amount, asset)]
            else before + Creates(conditions[..i], asset)
    ensures Total(before + Creates(conditions[..i + 1], asset), asset) <=
            Total(before + Creates(conditions, asset), asset)
  {
    CreatesNext(conditions, i, asset);
    TotalPrefix(before + Creates(conditions[..i + 1], asset), before + Creates(conditions, asset), asset);
  }

  ghost predicate InAsset(coins: seq<DecodedOutput>, asset: Option<Bytes32>) {
    forall o :: o in coins ==> o.assetId == asset
  }

  lemma CreatesOneAsset(conditions: seq<Condition>, asset: Option<Bytes32>)
    ensures InAsset(Creates(conditions, asset), asset)
  {
  }

  lemma {:induction false} OtherAssetsUntouched(coins: seq<DecodedOutput>, asset: Option<Bytes32>,
                                                other: Option<Bytes32>)
    requires InAsset(coins, asset) && other != asset
    ensures Total(coins, other) == 0
  {
    if coins != [] {
      assert coins[0] in coins;
      OtherAssetsUntouched(coins[1..], asset, other);
    }
  }

  /** An entry in one asset can only overflow that asset's totals, the fee or the melted sum. */
  lemma OneAssetFits(book: Book, entry: Book, asset: Option<Bytes32>)
    requires Fits(book)
    requires InAsset(entry.spent, asset) && InAsset(entry.created, asset)
    ensures Fits(book.Plus(entry)) <==>
            && Total(book.spent + entry.spent, asset) <= U64_MAX
            && Total(book.created + entry.created, asset) <= U64_MAX
            && book.fee + entry.fee <= U64_MAX
            && book.melted + entry.melted <= U64_MAX
  {
    forall other | other != asset
      ensures Total(book.spent + entry.spent, other) <= U64_MAX && Total(book.created + entry.created, other) <= U64_MAX
    {
      TotalConcat(book.spent, entry.spent, other);
      TotalConcat(book.created, entry.created, other);
      OtherAssetsUntouched(entry.spent, asset, other);
      OtherAssetsUntouched(entry.created, asset, other);
    }
  }

  // ---- a send, condition by condition ----

  function AfterSent(book: Book, c: Condition, asset: Option<Bytes32>): Book {
    if c.CreateCoin? then book.(created := book.created + [DecodedOutput(c.puzzleHash, c.amount, asset)])
    else if c.ReserveFee? && asset.None? then book.(fee := book.fee + c.fee)
    else if c.AssertCoinAnnouncement? && asset.None? then book.(asserted := book.asserted + {c.coinAnnouncementId})
    else book
  }

  /** What reading these conditions of a send adds. */
  function SentPart(conditions: seq<Condition>, asset: Option<Bytes32>): Book {
    EMPTY_BOOK.(
      created := Creates(conditions, asset),
      fee := if asset.None? then Reserved(conditions) else 0,
      asserted := if asset.None? then AssertedAnnouncements(conditions) else {})
  }

  function SentBook(sdk: Sdk, coin: Coin, asset: Option<Bytes32>, conditions: seq<Condition>): Book {
    SentPart(conditions, asset).(spent := Spent(coin, asset), bindings := [BindingOf(sdk, coin, conditions)])
  }

  lemma SentStart(before: Book, asset: Option<Bytes32>)
    ensures forall conditions: seq<Condition> :: before.Plus(SentPart(conditions[..0], asset)) == before
  {
    assert AssertedAnnouncements([]) == {};
    PlusEmpty(before);
    forall conditions: seq<Condition> ensures before.Plus(SentPart(conditions[..0], asset)) == before {
      assert conditions[..0] == [];
      assert SentPart(conditions[..0], asset) == EMPTY_BOOK;
    }
  }

  lemma SentStep(before: Book, conditions: seq<Condition>, i: nat, asset: Option<Bytes32>)
    requires i < |conditions|
    ensures before.Plus(SentPart(conditions[..i + 1], asset)) ==
            AfterSent(before.Plus(SentPart(conditions[..i], asset)), conditions[i], asset)
    ensures OnlyMeSignatures(conditions[..i]) && !conditions[i].NonMeAggSig? ==> OnlyMeSignatures(conditions[..i + 1])
    ensures conditions[i].NonMeAggSig? ==> !OnlyMeSignatures(conditions)
  {
    var c := conditions[i];
    var part, next := SentPart(conditions[..i], asset), SentPart(conditions[..i + 1], asset);
    assert next == AfterSent(part, c, asset) by {
      CreatesNext(conditions, i, asset);
      ReadingNext(conditions, i);
    }
    assert conditions[..i + 1] == conditions[..i] + [c];
    AfterSentPlus(before, part, c, asset);
  }

  lemma AfterSentPlus(before: Book, part: Book, c: Condition, asset: Option<Bytes32>)
    ensures before.Plus(AfterSent(part, c, asset)) == AfterSent(before.Plus(part), c, asset)
  {
    if c.CreateCoin? {
      var output := [DecodedOutput(c.puzzleHash, c.amount, asset)];
      assert before.created + (part.created + output) == before.created + part.created + output;
    } else if c.AssertCoinAnnouncement? {
      assert before.asserted + (part.asserted + {c.coinAnnouncementId}) ==
             before.asserted + part.asserted + {c.coinAnnouncementId};
    }
  }

  lemma SentStepFits(before: Book, conditions: seq<Condition>, i: nat, asset: Option<Bytes32>)
    requires i < |conditions|
    ensures Fits(before.Plus(SentPart(conditions, asset))) ==> Fits(before.Plus(SentPart(conditions[..i + 1], asset)))
  {
    CreatesNext(conditions, i, asset);
    ReadingNext(conditions, i);
    var shorter, whole := before.Plus(SentPart(conditions[..i + 1], asset)), before.Plus(SentPart(conditions, asset));
    if Fits(whole) {
      FitsEarlier(shorter, whole);
    }
  }

  /** A send's entry is its coin, its binding and what its conditions add, in that order; if the
      coin alone does not fit, the send does not. */
  lemma SendEntryParts(before: Book, coin: Coin, asset: Option<Bytes32>, binding: CoinBinding,
                       conditions: seq<Condition>)
    requires Fits(before)
    ensures var entered := before.(spent := before.spent + Spent(coin, asset), bindings := before.bindings + [binding]);
            var entry := SentPart(conditions, asset).(spent := Spent(coin, asset), bindings := [binding]);
            && entered.Plus(SentPart(conditions, asset)) == before.Plus(entry)
            && (Total(entered.spent, asset) > U64_MAX ==> !Fits(before.Plus(entry)))
  {
  }

  // ---- singletons ----

  /** The allowlist a singleton's conditions are judged by. */
  datatype Allowlist = OptionTransfer | Rehoming(leg: RehomeClass) | Melting(list: MeltConditionList)

  predicate Allows(c: Condition, list: Allowlist) {
    match list
    case OptionTransfer => TransferPermits(c)
    case Rehoming(leg) => RehomePermits(c, leg)
    case Melting(which) => MeltPermits(c, which)
  }

  method AllAllowed(conditions: seq<Condition>, list: Allowlist) returns (ok: bool)
    ensures ok <==> forall c :: c in conditions ==> Allows(c, list)
  {
    for i := 0 to |conditions|
      invariant forall k :: 0 <= k < i ==> Allows(conditions[k], list)
    {
      if !Allows(conditions[i], list) { return false; }
    }
    return true;
  }

  /** The signed half of a transfer, judged condition by condition before anything is accounted. */
  method ReadSignedTransfer(sdk: Sdk, nft: NftView) returns (act: Option<(Bytes32, Bytes32)>)
    ensures act == SignedTransfer(sdk, nft)
  {
    if !sdk.StandardOf(nft.p2Puzzle).Found? { return None; }
    var committed := CommittedStandardSpend(sdk, nft.p2Solution);
    if committed.None? { return None; }
    var allowed := AllAllowed(committed.value.conditions, Rehoming(NftSigned));
    var destination := InnerRehomeDestination(sdk, committed.value.conditions);
    if !allowed || destination.None? { return None; }
    return Some((committed.value.message, destination.value));
  }

  method ReadMelt(sdk: Sdk, puzzle: SExp, solution: SExp) returns (ok: bool)
    ensures ok <==> MeltAuthorized(sdk, puzzle, solution)
  {
    var emitted := sdk.RunConditions(puzzle, solution);
    if emitted.None? { return false; }
    var presented := AllAllowed(emitted.value, Melting(Presented));
    if !presented || SoleMessage(emitted.value).None? { return false; }
    var committed := CommittedMeltConditions(sdk, solution, SoleMessage(emitted.value).value);
    if committed.None? { return false; }
    var signed := AllAllowed(committed.value, Melting(Signed));
    return signed && Melts(committed.value) == 1;
  }

  method ReadEveOwner(sdk: Sdk, nft: NftView) returns (owner: Option<Bytes32>)
    ensures owner == EveOwner(sdk, nft)
  {
    var inner := ProveQuoted(sdk, nft.p2Puzzle);
    if inner.None? || !NoSignature(inner.value) { return None; }
    var allowed := AllAllowed(inner.value, Rehoming(NftEve));
    if !allowed { return None; }
    owner := InnerRehomeDestination(sdk, inner.value);
  }

  predicate GoodRehome(sdk: Sdk, output: DecodedOutput, list: Allowlist) {
    output.amount % 2 == 1 && (list.OptionTransfer? ==> !sdk.IsSinkHash(output.puzzleHash))
  }

  predicate Rehomes(sdk: Sdk, conditions: seq<Condition>, list: Allowlist) {
    var created := Creates(conditions, None);
    && (forall c :: c in conditions ==> Allows(c, list))
    && |created| == 1
    && GoodRehome(sdk, created[0], list)
  }

  /** A list whose prefix creates two coins, or a bad one, cannot re-home. */
  lemma RehomeNext(sdk: Sdk, conditions: seq<Condition>, i: nat, list: Allowlist)
    requires i < |conditions|
    ensures var c := conditions[i];
            var before, after := Creates(conditions[..i], None), Creates(conditions[..i + 1], None);
            && after == before + (if c.CreateCoin? then [DecodedOutput(c.puzzleHash, c.amount, None)] else [])
            && (|after| > 1 ==> !Rehomes(sdk, conditions, list))
            && (|after| == 1 && !GoodRehome(sdk, after[0], list) ==> !Rehomes(sdk, conditions, list))
  {
    CreatesNext(conditions, i, None);
  }

  function MeltBook(sdk: Sdk, coin: Coin): Book {
    EMPTY_BOOK.(spent := Spent(coin, None), melted := coin.amount, melts := [sdk.IdOf(coin)])
  }

  function SingletonBook(coin: Coin, conditions: seq<Condition>): Book {
    EMPTY_BOOK.(spent := Spent(coin, None), created := Creates(conditions, None))
  }

  function NftBook(coin: Coin, conditions: seq<Condition>, operation: NftOperation, eves: seq<Bytes32>): Book {
    SingletonBook(coin, conditions).(operations := [operation], eveParents := eves)
  }

  /** Facts recorded beside the value do not change whether the value fits. */
  lemma SingletonFacts(before: Book, entry: Book, full: Book)
    requires full == entry.(operations := full.operations, eveParents := full.eveParents, launches := full.launches)
    ensures Fits(before.Plus(entry)) <==> Fits(before.Plus(full))
    ensures before.Plus(full) == before.Plus(entry).(operations := before.operations + full.operations,
                                                     eveParents := before.eveParents + full.eveParents,
                                                     launches := before.launches + full.launches)
  {
  }
}
