/** The settlement ring over the coin spends themselves: which signed lists make a sink, which announce, and
    how one asks for another, read off the conditions. */
module Offers {
  import opened Prelude
  import opened Clvm
  import opened Conditions
  import opened Settlement
  import opened Book
  import opened Verify

  /** A coin and the conditions it was judged by. */
  datatype Send = Send(coin: Coin, list: seq<Condition>)

  /** The signed send a spend is: a standard coin under its own puzzle, or a CAT under the one inside. Other
      coins bind nothing. */
  function SendOf(sdk: Sdk, spend: CoinSpend): Option<Send> {
    match ArmFor(sdk, spend)
    case StandardArm =>
      (match sdk.RunConditions(spend.puzzleReveal.value, spend.solution.value)
       case None => None
       case Some(list) => Some(Send(spend.coin, list)))
    case CatArm(cat) =>
      if !sdk.parseSettlement(cat.p2Puzzle).Absent? then None
      else
        (match sdk.RunConditions(cat.p2Puzzle, cat.p2Solution)
         case None => None
         case Some(list) => Some(Send(spend.coin, list)))
    case _ => None
  }

  /** The signed sends of a bundle, in order. */
  function SendsOf(sdk: Sdk, spends: seq<CoinSpend>): seq<Send> {
    if spends == [] then []
    else
      (match SendOf(sdk, spends[0])
       case None => []
       case Some(send) => [send]) + SendsOf(sdk, spends[1..])
  }

  /** The list pays a settlement or launcher hash. */
  predicate MakesSink(sdk: Sdk, list: seq<Condition>) {
    exists c :: c in list && c.CreateCoin? && (c.puzzleHash == sdk.settlementHash || c.puzzleHash == sdk.launcherHash)
  }

  /** The list asserts an announcement, of a coin or of a puzzle. */
  ghost predicate AssertsPayment(list: seq<Condition>) {
    || (exists id :: AssertPuzzleAnnouncement(id) in list)
    || (exists id :: AssertCoinAnnouncement(id) in list)
  }

  /** Send `i` asks that send `j` be spent beside it: by its id, of which the last coin counts, or by its hash. */
  predicate AsksFor(sdk: Sdk, sends: seq<Send>, i: nat, j: nat)
    requires i < |sends| && j < |sends|
  {
    || (&& AssertConcurrentSpend(sdk.coinId(sends[j].coin)) in sends[i].list
        && forall k :: j < k < |sends| ==> sdk.coinId(sends[k].coin) != sdk.coinId(sends[j].coin))
    || AssertConcurrentPuzzle(sends[j].coin.puzzleHash) in sends[i].list
  }

  predicate Chain(sdk: Sdk, sends: seq<Send>, p: seq<nat>) {
    && p != []
    && (forall k :: 0 <= k < |p| ==> p[k] < |sends|)
    && (forall j, k :: 0 <= j < k == j + 1 < |p| ==> AsksFor(sdk, sends, p[j], p[k]))
  }

  /** A chain of requests leads from send `i` to one that asserts an announcement. */
  ghost predicate PaymentReached(sdk: Sdk, sends: seq<Send>, i: nat) {
    exists p :: Chain(sdk, sends, p) && p[0] == i && AssertsPayment(sends[p[|p| - 1]].list)
  }

  // ---- what a binding holds ----

  lemma {:induction false} ConcurrencyRead(list: seq<Condition>)
    ensures forall id :: id in ConcurrentCoins(list) <==> AssertConcurrentSpend(id) in list
    ensures forall hash :: hash in ConcurrentPuzzles(list) <==> AssertConcurrentPuzzle(hash) in list
  {
    if list != [] {
      ConcurrencyRead(list[1..]);
      assert list == [list[0]] + list[1..];
    }
  }

  lemma BindingReads(sdk: Sdk, coin: Coin, list: seq<Condition>)
    ensures var b := BindingOf(sdk, coin, list);
            && b.coinId == sdk.coinId(coin) && b.puzzleHash == coin.puzzleHash
            && (b.createsSink <==> MakesSink(sdk, list))
            && (b.carriesAnnouncement <==> AssertsPayment(list))
            && (forall id :: id in b.requiresCoinIds <==> AssertConcurrentSpend(id) in list)
            && (forall hash :: hash in b.requiresPuzzleHashes <==> AssertConcurrentPuzzle(hash) in list)
  {
    ConcurrencyRead(list);
    if c :| c in list && (c.AssertPuzzleAnnouncement? || c.AssertCoinAnnouncement?) {
      if c.AssertPuzzleAnnouncement? {
        assert AssertPuzzleAnnouncement(c.puzzleAnnouncementId) in list;
      } else {
        assert AssertCoinAnnouncement(c.coinAnnouncementId) in list;
      }
    }
  }

  function Bindings(sdk: Sdk, sends: seq<Send>): seq<CoinBinding> {
    seq(|sends|, k requires 0 <= k < |sends| => BindingOf(sdk, sends[k].coin, sends[k].list))
  }

  lemma OneBinding(sdk: Sdk, spend: CoinSpend)
    requires EntryOf(sdk, spend).Some?
    ensures EntryOf(sdk, spend).value.bindings ==
            match SendOf(sdk, spend)
            case None => []
            case Some(send) => [BindingOf(sdk, send.coin, send.list)]
  {
  }

  /** The book binds the signed sends, each once and in order. */
  lemma {:induction false} BindingsAreSends(sdk: Sdk, spends: seq<CoinSpend>)
    requires AllAdmitted(sdk, spends)
    ensures BookOf(sdk, spends).bindings == Bindings(sdk, SendsOf(sdk, spends))
  {
    if spends != [] {
      BindingsAreSends(sdk, spends[1..]);
      OneBinding(sdk, spends[0]);
      BindingsAhead(sdk, SendOf(sdk, spends[0]), SendsOf(sdk, spends[1..]));
    }
  }

  lemma BindingsAhead(sdk: Sdk, first: Option<Send>, rest: seq<Send>)
    ensures first.Some? ==> Bindings(sdk, [first.value] + rest) ==
                            [BindingOf(sdk, first.value.coin, first.value.list)] + Bindings(sdk, rest)
    ensures [] + rest == rest && [] + Bindings(sdk, rest) == Bindings(sdk, rest)
  {
  }

  // ---- the check ----

  lemma EdgeReads(sdk: Sdk, sends: seq<Send>, i: nat, j: nat)
    requires i < |sends| && j < |sends|
    ensures Edge(Bindings(sdk, sends), i, j) <==> AsksFor(sdk, sends, i, j)
  {
    var bindings := Bindings(sdk, sends);
    BindingReads(sdk, sends[i].coin, sends[i].list);
    forall k | 0 <= k < |sends|
      ensures bindings[k].coinId == sdk.coinId(sends[k].coin) && bindings[k].puzzleHash == sends[k].coin.puzzleHash
    {
      BindingReads(sdk, sends[k].coin, sends[k].list);
    }
    assert LastWithId(bindings, j) <==>
           forall k :: j < k < |sends| ==> sdk.coinId(sends[k].coin) != sdk.coinId(sends[j].coin);
  }

  lemma PathReads(sdk: Sdk, sends: seq<Send>, p: seq<nat>)
    ensures Path(Bindings(sdk, sends), p) <==> Chain(sdk, sends, p)
  {
    if forall k :: 0 <= k < |p| ==> p[k] < |sends| {
      forall j, k | 0 <= j < k == j + 1 < |p|
        ensures Edge(Bindings(sdk, sends), p[j], p[k]) <==> AsksFor(sdk, sends, p[j], p[k])
      {
        EdgeReads(sdk, sends, p[j], p[k]);
      }
    }
  }

  lemma TiedReads(sdk: Sdk, sends: seq<Send>, i: nat)
    ensures Tied(Bindings(sdk, sends), i) <==> PaymentReached(sdk, sends, i)
  {
    var bindings := Bindings(sdk, sends);
    if p :| Path(bindings, p) && p[0] == i && bindings[p[|p| - 1]].carriesAnnouncement {
      PathReads(sdk, sends, p);
      BindingReads(sdk, sends[p[|p| - 1]].coin, sends[p[|p| - 1]].list);
    }
    if p :| Chain(sdk, sends, p) && p[0] == i && AssertsPayment(sends[p[|p| - 1]].list) {
      PathReads(sdk, sends, p);
      BindingReads(sdk, sends[p[|p| - 1]].coin, sends[p[|p| - 1]].list);
    }
  }

  /** Every send that makes a sink reaches one that asserts an announcement. */
  ghost predicate SinksPaid(sdk: Sdk, sends: seq<Send>) {
    forall i: nat :: i < |sends| && MakesSink(sdk, sends[i].list) ==> PaymentReached(sdk, sends, i)
  }

  /** The bundle's settlement check, over the conditions: it passes exactly when every signed send that pays a
      settlement or launcher hash reaches, by concurrent-spend and concurrent-puzzle assertions, a signed send
      that asserts an announcement. */
  lemma SettlementExactly(sdk: Sdk, spends: seq<CoinSpend>)
    requires AllAdmitted(sdk, spends)
    ensures SettlementBound(BookOf(sdk, spends).bindings) <==> SinksPaid(sdk, SendsOf(sdk, spends))
  {
    var sends := SendsOf(sdk, spends);
    BindingsAreSends(sdk, spends);
    forall i: nat | i < |sends|
      ensures Tied(Bindings(sdk, sends), i) <==> PaymentReached(sdk, sends, i)
      ensures Bindings(sdk, sends)[i].createsSink <==> MakesSink(sdk, sends[i].list)
    {
      TiedReads(sdk, sends, i);
      BindingReads(sdk, sends[i].coin, sends[i].list);
    }
  }

  lemma {:induction false} SendIsListed(sdk: Sdk, spends: seq<CoinSpend>)
    ensures forall s :: s in spends && SendOf(sdk, s).Some? ==> SendOf(sdk, s).value in SendsOf(sdk, spends)
    ensures forall send :: send in SendsOf(sdk, spends) ==> exists s :: s in spends && SendOf(sdk, s) == Some(send)
  {
    if spends != [] {
      SendIsListed(sdk, spends[1..]);
      assert spends == [spends[0]] + spends[1..];
      forall send | send in SendsOf(sdk, spends) ensures exists s :: s in spends && SendOf(sdk, s) == Some(send) {
        if SendOf(sdk, spends[0]) == Some(send) {
          assert spends[0] in spends;
        } else {
          var s :| s in spends[1..] && SendOf(sdk, s) == Some(send);
          assert s in spends;
        }
      }
    }
  }

  /** Nothing is given away: where an accepted bundle commits value to settlement under a signature, some signed
      coin of it asserts the announcement that pays for it. */
  lemma NothingGivenAway(sdk: Sdk, spends: seq<CoinSpend>, giver: CoinSpend)
    requires Accepted(sdk, spends) && giver in spends
    requires SendOf(sdk, giver).Some? && MakesSink(sdk, SendOf(sdk, giver).value.list)
    ensures exists s :: s in spends && SendOf(sdk, s).Some? && AssertsPayment(SendOf(sdk, s).value.list)
  {
    SettlementExactly(sdk, spends);
    SendIsListed(sdk, spends);
    var send := SomePays(sdk, SendsOf(sdk, spends), SendOf(sdk, giver).value);
  }

  lemma SomePays(sdk: Sdk, sends: seq<Send>, giver: Send) returns (payer: Send)
    requires SinksPaid(sdk, sends) && giver in sends && MakesSink(sdk, giver.list)
    ensures payer in sends && AssertsPayment(payer.list)
  {
    var i: nat :| i < |sends| && sends[i] == giver;
    var p :| Chain(sdk, sends, p) && p[0] == i && AssertsPayment(sends[p[|p| - 1]].list);
    payer := sends[p[|p| - 1]];
  }
}
