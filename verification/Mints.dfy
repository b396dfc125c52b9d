/** Mints over whole bundles: what an accepted bundle guarantees about its launchers, its eve
    spends and the owners its NFT acts name. */
module Mints {
  import opened Prelude
  import opened Clvm
  import opened Conditions
  import opened Settlement
  import opened Book
  import opened Verify

  /** The outer conditions of a spend that ran. */
  function Emitted(sdk: Sdk, spend: CoinSpend): seq<Condition> {
    if spend.puzzleReveal.None? || spend.solution.None? then []
    else
      match sdk.RunConditions(spend.puzzleReveal.value, spend.solution.value)
      case None => []
      case Some(conditions) => conditions
  }

  function LaunchOf(sdk: Sdk, spend: CoinSpend): Launch {
    var id := sdk.IdOf(spend.coin);
    Launch(id, spend.coin.parent, Announced(sdk, id, Emitted(sdk, spend)))
  }

  /** The signed standard-layer spends assert this coin announcement. */
  ghost predicate SignedlyAsserted(sdk: Sdk, spends: seq<CoinSpend>, id: Bytes32) {
    exists s :: s in spends && ArmFor(sdk, s).StandardArm? && id in AssertedAnnouncements(Emitted(sdk, s))
  }

  lemma OneEntryFacts(sdk: Sdk, spend: CoinSpend)
    requires EntryOf(sdk, spend).Some?
    ensures var entry := EntryOf(sdk, spend).value;
            && entry.launches == (if ArmFor(sdk, spend).LaunchArm? then [LaunchOf(sdk, spend)] else [])
            && entry.eveParents == (if ArmFor(sdk, spend).NftEveArm? then [spend.coin.parent] else [])
            && entry.asserted ==
              (if ArmFor(sdk, spend).StandardArm? then AssertedAnnouncements(Emitted(sdk, spend)) else {})
  {
  }

  /** Where the bundle's launch, eve and assertion records come from. */
  lemma {:induction false} RecordsOfSpends(sdk: Sdk, spends: seq<CoinSpend>)
    requires AllAdmitted(sdk, spends)
    ensures forall l :: l in BookOf(sdk, spends).launches <==>
              exists s :: s in spends && ArmFor(sdk, s).LaunchArm? && LaunchOf(sdk, s) == l
    ensures forall p :: p in BookOf(sdk, spends).eveParents <==>
              exists s :: s in spends && ArmFor(sdk, s).NftEveArm? && s.coin.parent == p
    ensures forall id :: id in BookOf(sdk, spends).asserted <==> SignedlyAsserted(sdk, spends, id)
  {
    if spends != [] {
      var first, rest := spends[0], spends[1..];
      assert spends == [first] + rest;
      RecordsOfSpends(sdk, rest);
      OneEntryFacts(sdk, first);
      forall l ensures l in BookOf(sdk, spends).launches <==>
                       exists s :: s in spends && ArmFor(sdk, s).LaunchArm? && LaunchOf(sdk, s) == l {
        if l in EntryOf(sdk, first).value.launches {
          assert first in spends;
        }
      }
      forall p ensures p in BookOf(sdk, spends).eveParents <==>
                       exists s :: s in spends && ArmFor(sdk, s).NftEveArm? && s.coin.parent == p {
        if p in EntryOf(sdk, first).value.eveParents {
          assert first in spends;
        }
      }
      forall id ensures id in BookOf(sdk, spends).asserted <==> SignedlyAsserted(sdk, spends, id) {
        if id in EntryOf(sdk, first).value.asserted {
          assert first in spends;
        }
      }
    }
  }

  /** A launcher of an accepted bundle: its parent is spent in the bundle, the bundle creates some coin at
      the launcher hash, an eve descends from it, and something it announces is asserted under a
      signature. That the coin created is this launcher is not checked: see `LauncherIsCreated`. */
  ghost predicate LaunchIsBound(sdk: Sdk, spends: seq<CoinSpend>, l: CoinSpend)
    requires AllAdmitted(sdk, spends)
  {
    && l.coin.parent in CoinIds(sdk, spends)
    && (exists o :: o in BookOf(sdk, spends).created && o.puzzleHash == sdk.launcherHash)
    && (exists e :: e in spends && ArmFor(sdk, e).NftEveArm? && e.coin.parent == sdk.IdOf(l.coin))
    && (exists id :: id in Announced(sdk, sdk.IdOf(l.coin), Emitted(sdk, l)) && SignedlyAsserted(sdk, spends, id))
  }

  /** An eve spend of an accepted bundle descends from a launcher the bundle spends. */
  ghost predicate EveIsBound(sdk: Sdk, spends: seq<CoinSpend>, e: CoinSpend) {
    exists l :: l in spends && ArmFor(sdk, l).LaunchArm? && sdk.IdOf(l.coin) == e.coin.parent
  }

  lemma BoundLaunch(sdk: Sdk, spends: seq<CoinSpend>, l: CoinSpend)
    requires Accepted(sdk, spends) && l in spends && ArmFor(sdk, l).LaunchArm?
    ensures LaunchIsBound(sdk, spends, l)
  {
    var book := BookOf(sdk, spends);
    RecordsOfSpends(sdk, spends);
    var launch := LaunchOf(sdk, l);
    assert launch in book.launches;
    assert launch.coinId in LaunchedIds(book.launches);
    assert launch.coinId in book.eveParents;
    var id :| id in launch.announced && id in book.asserted;
  }

  lemma BoundEve(sdk: Sdk, spends: seq<CoinSpend>, e: CoinSpend)
    requires Accepted(sdk, spends) && e in spends && ArmFor(sdk, e).NftEveArm?
    ensures EveIsBound(sdk, spends, e)
  {
    var book := BookOf(sdk, spends);
    RecordsOfSpends(sdk, spends);
    assert e.coin.parent in book.eveParents;
    assert e.coin.parent in LaunchedIds(book.launches);
    var launch :| launch in book.launches && launch.coinId == e.coin.parent;
    var s :| s in spends && ArmFor(sdk, s).LaunchArm? && LaunchOf(sdk, s) == launch;
  }

  /** The ledger's rule for coins: this spend made that coin. */
  ghost predicate Produced(sdk: Sdk, spend: CoinSpend, coin: Coin) {
    && coin.parent == sdk.IdOf(spend.coin)
    && exists memos :: CreateCoin(coin.puzzleHash, coin.amount, memos) in Emitted(sdk, spend)
  }

  /** The launcher output an accepted bundle reports and the launcher it spends are one coin, given that the
      spent parent did produce the launcher. The verifier does not check that it did. A CAT or an option
      is left out as a parent: its entry is read inside the layer, whose outer conditions make no bare
      launcher. */
  lemma LauncherIsCreated(sdk: Sdk, spends: seq<CoinSpend>, l: CoinSpend, parent: CoinSpend)
    requires Accepted(sdk, spends) && l in spends && ArmFor(sdk, l).LaunchArm?
    requires parent in spends && Produced(sdk, parent, l.coin)
    requires !ArmFor(sdk, parent).CatArm? && !ArmFor(sdk, parent).OptionArm?
    ensures l.coin == Coin(sdk.IdOf(parent.coin), sdk.launcherHash, l.coin.amount)
    ensures DecodedOutput(sdk.launcherHash, l.coin.amount, None) in EffectOf(sdk, spends).protocolSink
  {
    LaunchesAtItsHash(sdk, l);
    var output := DecodedOutput(sdk.launcherHash, l.coin.amount, None);
    ProducedIsBooked(sdk, spends, parent, l.coin);
    SinkIsRouted(sdk, BookOf(sdk, spends).created, output);
  }

  lemma LaunchesAtItsHash(sdk: Sdk, l: CoinSpend)
    requires ArmFor(sdk, l).LaunchArm?
    ensures l.coin.puzzleHash == sdk.launcherHash
  {
  }

  /** What a spend outside CATs and options made on the ledger is in the book as made. */
  lemma ProducedIsBooked(sdk: Sdk, spends: seq<CoinSpend>, parent: CoinSpend, coin: Coin)
    requires AllAdmitted(sdk, spends) && parent in spends && Produced(sdk, parent, coin)
    requires !ArmFor(sdk, parent).CatArm? && !ArmFor(sdk, parent).OptionArm?
    ensures DecodedOutput(coin.puzzleHash, coin.amount, None) in BookOf(sdk, spends).created
  {
    OuterCreates(sdk, parent);
    var memos :| CreateCoin(coin.puzzleHash, coin.amount, memos) in Emitted(sdk, parent);
    CreateIsListed(Emitted(sdk, parent), coin.puzzleHash, coin.amount, memos);
    EntryIsBooked(sdk, spends, parent, DecodedOutput(coin.puzzleHash, coin.amount, None));
  }

  /** Outside CATs and options the ledger reads the coins a spend makes off its outer conditions. */
  lemma OuterCreates(sdk: Sdk, spend: CoinSpend)
    requires EntryOf(sdk, spend).Some? && !ArmFor(sdk, spend).CatArm? && !ArmFor(sdk, spend).OptionArm?
    ensures EntryOf(sdk, spend).value.created == Creates(Emitted(sdk, spend), None)
  {
    if ArmFor(sdk, spend).MeltArm? {
      NoCreates(Emitted(sdk, spend));
    }
  }

  lemma {:induction false} NoCreates(conditions: seq<Condition>)
    requires forall c :: c in conditions ==> !c.CreateCoin?
    ensures Creates(conditions, None) == []
  {
    if conditions != [] {
      assert conditions[0] in conditions;
      NoCreates(conditions[1..]);
    }
  }

  lemma {:induction false} CreateIsListed(conditions: seq<Condition>, hash: Bytes32, amount: U64, memos: Option<SExp>)
    requires CreateCoin(hash, amount, memos) in conditions
    ensures DecodedOutput(hash, amount, None) in Creates(conditions, None)
  {
    assert conditions == [conditions[0]] + conditions[1..];
    if conditions[0] != CreateCoin(hash, amount, memos) {
      CreateIsListed(conditions[1..], hash, amount, memos);
    }
  }

  lemma {:induction false} EntryIsBooked(sdk: Sdk, spends: seq<CoinSpend>, spend: CoinSpend, output: DecodedOutput)
    requires AllAdmitted(sdk, spends) && spend in spends && output in EntryOf(sdk, spend).value.created
    ensures output in BookOf(sdk, spends).created
  {
    assert spends == [spends[0]] + spends[1..];
    if spends[0] != spend {
      EntryIsBooked(sdk, spends[1..], spend, output);
    }
  }

  lemma {:induction false} SinkIsRouted(sdk: Sdk, created: seq<DecodedOutput>, output: DecodedOutput)
    requires output in created && sdk.IsSinkHash(output.puzzleHash)
    ensures output in Routed(sdk, created, true)
  {
    assert created == [created[0]] + created[1..];
    if created[0] != output {
      SinkIsRouted(sdk, created[1..], output);
    }
  }

  /** On acceptance every launcher and every eve spend belongs to a mint of this bundle, and each
      launcher is pinned by something a wallet-signed standard spend asserts: that is what fixes the
      eve, and so the owner, its launcher id resolves to. */
  lemma MintsAreBound(sdk: Sdk, spends: seq<CoinSpend>)
    requires Accepted(sdk, spends)
    ensures forall l :: l in spends && ArmFor(sdk, l).LaunchArm? ==> LaunchIsBound(sdk, spends, l)
    ensures forall e :: e in spends && ArmFor(sdk, e).NftEveArm? ==> EveIsBound(sdk, spends, e)
  {
    forall l | l in spends && ArmFor(sdk, l).LaunchArm? ensures LaunchIsBound(sdk, spends, l) {
      BoundLaunch(sdk, spends, l);
    }
    forall e | e in spends && ArmFor(sdk, e).NftEveArm? ensures EveIsBound(sdk, spends, e) {
      BoundEve(sdk, spends, e);
    }
  }

  // ---- named owners ----

  /** The quoted inner list an NFT spend hands its singleton on by: the delegated puzzle of a
      transfer, the eve puzzle of a mint. */
  function InnerList(sdk: Sdk, spend: CoinSpend): Option<seq<Condition>> {
    match ArmFor(sdk, spend)
    case NftTransferArm(nft) =>
      (match CommittedStandardSpend(sdk, nft.p2Solution)
       case None => None
       case Some(committed) => Some(committed.conditions))
    case NftEveArm(nft) => ProveQuoted(sdk, nft.p2Puzzle)
    case _ => None
  }

  /** The act an NFT spend performs: the owner is whoever the first CREATE_COIN of its inner list pays. */
  function ActsOf(sdk: Sdk, spend: CoinSpend): seq<NftOperation> {
    var created := if InnerList(sdk, spend).None? then [] else Creates(InnerList(sdk, spend).value, None);
    if created == [] then []
    else
      match ArmFor(sdk, spend)
      case NftTransferArm(nft) => [Transfer(nft.launcherId, created[0].puzzleHash)]
      case NftEveArm(nft) => [Mint(nft.launcherId, created[0].puzzleHash)]
      case _ => []
  }

  /** The NFT acts of a bundle, in the order of its spends. */
  function NftActs(sdk: Sdk, spends: seq<CoinSpend>): seq<NftOperation> {
    if spends == [] then [] else ActsOf(sdk, spends[0]) + NftActs(sdk, spends[1..])
  }

  predicate IsNftSpend(sdk: Sdk, spend: CoinSpend) {
    ArmFor(sdk, spend).NftTransferArm? || ArmFor(sdk, spend).NftEveArm?
  }

  /** An admitted NFT spend's inner list is a quote that creates exactly one coin, of odd amount,
      at no structural hash. */
  lemma NftHandsOnOnce(sdk: Sdk, spend: CoinSpend)
    requires EntryOf(sdk, spend).Some? && IsNftSpend(sdk, spend)
    ensures InnerList(sdk, spend).Some?
    ensures var created := Creates(InnerList(sdk, spend).value, None);
            && |created| == 1 && created[0].amount % 2 == 1 && !sdk.IsSinkHash(created[0].puzzleHash)
            && |EntryOf(sdk, spend).value.operations| == 1
            && EntryOf(sdk, spend).value.operations[0].Owner() == created[0].puzzleHash
  {
  }

  function NftSpends(sdk: Sdk, spends: seq<CoinSpend>): nat {
    if spends == [] then 0 else (if IsNftSpend(sdk, spends[0]) then 1 else 0) + NftSpends(sdk, spends[1..])
  }

  /** An admitted spend enters exactly the act it performs. */
  lemma EntersItsAct(sdk: Sdk, spend: CoinSpend)
    requires EntryOf(sdk, spend).Some?
    ensures EntryOf(sdk, spend).value.operations == ActsOf(sdk, spend)
    ensures |ActsOf(sdk, spend)| == if IsNftSpend(sdk, spend) then 1 else 0
    ensures forall act :: act in ActsOf(sdk, spend) ==> !sdk.IsSinkHash(act.Owner())
  {
    if IsNftSpend(sdk, spend) {
      NftHandsOnOnce(sdk, spend);
    }
  }

  /** The effect names one act for each NFT spend, in order, and never a structural owner. */
  lemma {:induction false} ActsNameOwners(sdk: Sdk, spends: seq<CoinSpend>)
    requires AllAdmitted(sdk, spends)
    ensures BookOf(sdk, spends).operations == NftActs(sdk, spends)
    ensures |BookOf(sdk, spends).operations| == NftSpends(sdk, spends)
    ensures forall act :: act in BookOf(sdk, spends).operations ==> !sdk.IsSinkHash(act.Owner())
  {
    if spends != [] {
      ActsNameOwners(sdk, spends[1..]);
      EntersItsAct(sdk, spends[0]);
    }
  }
}
