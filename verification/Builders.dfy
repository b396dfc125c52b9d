/** The four XCH builders. Each either fails for a stated reason or returns a bundle whose shape is
    given outright; the round-trip lemmas at the end show the signer's gate opens on it. */
module Builders {
  import opened Prelude
  import opened Clvm
  import opened Conditions
  import opened Book
  import opened Verify
  import opened Text
  import opened Gate
  import opened Signing
  import opened Selection
  import opened Splitting
  import opened Ledger
  import opened Building

  datatype SendLeg = SendLeg(to: string, amount: U64)

  // ---- what the lead coin says ----

  function Payments(kit: Kit, destinations: seq<(Bytes32, U64)>): seq<Condition> {
    if destinations == [] then []
    else
      [CreateCoin(destinations[0].0, destinations[0].1, kit.Hinted(destinations[0].0))] +
        Payments(kit, destinations[1..])
  }

  function Returns(kit: Kit, amounts: seq<U64>): seq<Condition> {
    if amounts == [] then [] else [CreateCoin(kit.changeHash, amounts[0], None)] + Returns(kit, amounts[1..])
  }

  /** Payments, then coins back to the wallet, then the fee when there is one. */
  function Lead(kit: Kit, destinations: seq<(Bytes32, U64)>, kept: seq<U64>, fee: U64): seq<Condition> {
    Payments(kit, destinations) + Returns(kit, kept) + if fee > 0 then [ReserveFee(fee)] else []
  }

  /** No change coin is made for nothing. */
  function Change(amount: U64): seq<U64> {
    if amount > 0 then [amount] else []
  }

  function PaidTotal(destinations: seq<(Bytes32, U64)>): nat {
    if destinations == [] then 0 else destinations[0].1 + PaidTotal(destinations[1..])
  }

  function PaymentOutputs(destinations: seq<(Bytes32, U64)>): seq<DecodedOutput> {
    if destinations == [] then []
    else [DecodedOutput(destinations[0].0, destinations[0].1, None)] + PaymentOutputs(destinations[1..])
  }

  function ReturnOutputs(kit: Kit, amounts: seq<U64>): seq<DecodedOutput> {
    if amounts == [] then [] else [DecodedOutput(kit.changeHash, amounts[0], None)] + ReturnOutputs(kit, amounts[1..])
  }

  // ---- laying a bundle down ----

  /** The signature extractor reads every bundle the builders write, and finds something to sign. */
  ghost predicate Extracts(kit: Kit, genesis: seq<Byte>) {
    forall coins: seq<Coin>, lead: seq<Condition> ::
      coins != [] && AllKeyed(kit, coins) && kit.Writes(lead) ==> Extracted(kit, genesis, coins, lead)
  }

  ghost predicate Extracted(kit: Kit, genesis: seq<Byte>, coins: seq<Coin>, lead: seq<Condition>)
    requires coins != [] && AllKeyed(kit, coins)
  {
    var required := RequiredByAll(kit.sdk, genesis, BundleOf(kit, coins, lead));
    required.Some? && |required.value| == |coins|
  }

  lemma LawfulExtracts(kit: Kit, genesis: seq<Byte>)
    requires kit.Lawful()
    ensures Extracts(kit, genesis)
  {
    forall coins: seq<Coin>, lead: seq<Condition> | coins != [] && AllKeyed(kit, coins) && kit.Writes(lead)
      ensures Extracted(kit, genesis, coins, lead)
    {
      BundleRequires(kit, genesis, coins, lead);
    }
  }

  /** Spend the selected coins under the lead conditions and collect the signatures they need. */
  method LayDown(kit: Kit, genesis: seq<Byte>, selected: seq<Coin>, lead: seq<Condition>, summary: TransactionSummary)
    returns (r: Option<UnsignedSpend>)
    requires Extracts(kit, genesis) && selected != [] && kit.Writes(lead)
    ensures r.Some? <==> AllKeyed(kit, selected)
    ensures r.Some? ==> Laid(kit, genesis, selected, lead, summary, r.value)
  {
    var ctx := new SpendContext();
    assert selected == [selected[0]] + selected[1..];
    var ok := ctx.SpendStandard(kit, selected[0], lead);
    if !ok { return None; }
    ok := ctx.LinkSupportingCoins(kit, selected);
    if !ok { return None; }
    assert Extracted(kit, genesis, selected, lead);
    var required := RequiredSignaturesFrom(kit.sdk, genesis, ctx.spends);
    if required.None? || ctx.spends == [] || required.value == [] { return None; }
    return Some(UnsignedSpend(ctx.spends, required.value, summary));
  }

  /** The bundle a builder returns: these coins, this lead, and the signatures the bundle requires. */
  ghost predicate Laid(kit: Kit, genesis: seq<Byte>, selected: seq<Coin>, lead: seq<Condition>,
                       summary: TransactionSummary,
                       unsigned: UnsignedSpend) {
    && selected != [] && AllKeyed(kit, selected)
    && unsigned.coinSpends == BundleOf(kit, selected, lead)
    && Some(unsigned.requiredSignatures) == RequiredByAll(kit.sdk, genesis, unsigned.coinSpends)
    && unsigned.summary == summary
  }

  /** Every coin of a built bundle requires exactly its own signature. */
  lemma BundleRequires(kit: Kit, genesis: seq<Byte>, coins: seq<Coin>, lead: seq<Condition>)
    requires kit.Lawful() && coins != [] && AllKeyed(kit, coins) && kit.Writes(lead)
    ensures RequiredByAll(kit.sdk, genesis, BundleOf(kit, coins, lead)).Some?
    ensures |RequiredByAll(kit.sdk, genesis, BundleOf(kit, coins, lead)).value| == |coins|
  {
    var id := kit.sdk.IdOf(coins[0]);
    SpendRequires(kit, genesis, coins[0], lead);
    SupportingRequires(kit, genesis, id, coins[1..]);
    assert BundleOf(kit, coins, lead)[1..] == Supporting(kit, id, coins[1..]);
  }

  lemma {:induction false} SupportingRequires(kit: Kit, genesis: seq<Byte>, id: Bytes32, coins: seq<Coin>)
    requires kit.Lawful() && AllKeyed(kit, coins)
    ensures RequiredByAll(kit.sdk, genesis, Supporting(kit, id, coins)).Some?
    ensures |RequiredByAll(kit.sdk, genesis, Supporting(kit, id, coins)).value| == |coins|
  {
    if coins != [] {
      SpendRequires(kit, genesis, coins[0], [AssertConcurrentSpend(id)]);
      SupportingRequires(kit, genesis, id, coins[1..]);
      assert Supporting(kit, id, coins)[1..] == Supporting(kit, id, coins[1..]);
    }
  }

  lemma SpendRequires(kit: Kit, genesis: seq<Byte>, coin: Coin, conditions: seq<Condition>)
    requires kit.Lawful() && kit.KeyFor(coin).Some? && kit.Writes(conditions)
    ensures var required := RequiredBy(kit.sdk, genesis, kit.StandardSpend(coin, conditions));
            required.Some? && |required.value| == 1
  {
    var puzzle := kit.Puzzle(kit.KeyFor(coin).value);
    assert kit.StandardOnly(puzzle);
    RunsQuoted(kit, puzzle, conditions);
    var own := AggSigMe(kit.sdk.StandardOf(puzzle).value, kit.sdk.Hash(kit.Quoted(conditions)).bytes);
    WritesUnsigned(kit, conditions);
    var suffix := kit.sdk.IdOf(coin).bytes + genesis;
    RequirementsOfSignatures(conditions, suffix);
    assert ([own] + conditions)[1..] == conditions;
  }

  // ---- shared steps ----

  function CheckedTarget(amount: U64, fee: U64): Option<U64> {
    match Accumulate(amount, fee)
    case None => None
    case Some(target) => if target == 0 then None else Some(target)
  }

  function AssertConserved(inputs: nat, outputs: U64, fee: U64): bool {
    match Accumulate(outputs, fee)
    case None => false
    case Some(total) => inputs == total
  }

  function Usable(kit: Kit): seq<Coin> {
    Capped(HighValueFirst(kit.sdk, kit.spendable), kit.coinCap)
  }

  /** The coins that fund a target. */
  function Funding(kit: Kit, target: nat): seq<Coin> {
    Shortest(Usable(kit), target)
  }

  method SelectOrFail(kit: Kit, target: U64) returns (r: Option<seq<Coin>>)
    requires Sum(kit.spendable) <= U64_MAX
    ensures r.Some? <==> Sum(Usable(kit)) >= target
    ensures r.Some? ==> r.value == Funding(kit, target) && target <= Sum(r.value) <= U64_MAX
    ensures r.Some? && target > 0 ==> r.value != []
  {
    CappedWithin(kit.sdk, kit.spendable, kit.coinCap);
    var outcome := SelectForSpend(kit.sdk, kit.spendable, target, kit.coinCap);
    match outcome
    case Selected(coins, total, change) => return Some(coins);
    case NeedsConsolidation => return None;
    case InsufficientFunds => return None;
  }

  /** The created coins have distinct ids: one parent, so no two alike. */
  ghost predicate DistinctCreated(sdk: Sdk, parent: Bytes32, created: seq<(Bytes32, U64)>) {
    forall i, j :: 0 <= i < j < |created| ==>
      sdk.IdOf(Coin(parent, created[i].0, created[i].1)) != sdk.IdOf(Coin(parent, created[j].0, created[j].1))
  }

  method EnsureDistinctCreatedCoins(sdk: Sdk, parent: Bytes32, created: seq<(Bytes32, U64)>) returns (ok: bool)
    ensures ok <==> DistinctCreated(sdk, parent, created)
  {
    var seen: set<Bytes32> := {};
    for i := 0 to |created|
      invariant forall id :: id in seen <==>
                exists k :: 0 <= k < i && id == sdk.IdOf(Coin(parent, created[k].0, created[k].1))
      invariant DistinctCreated(sdk, parent, created[..i])
    {
      var id := sdk.IdOf(Coin(parent, created[i].0, created[i].1));
      if id in seen { return false; }
      seen := seen + {id};
    }
    assert created[..|created|] == created;
    return true;
  }

  // ---- the builders ----

  lemma ReturnsNext(kit: Kit, conditions: seq<Condition>, kept: seq<U64>, i: nat)
    requires i < |kept|
    ensures conditions + Returns(kit, kept[i..]) ==
            conditions + [CreateCoin(kit.changeHash, kept[i], None)] + Returns(kit, kept[i + 1..])
  {
    assert kept[i..][1..] == kept[i + 1..];
  }

  /** Grow the lead conditions: each payment hinted to its destination, then the coins kept, then
      the fee. */
  method WriteLead(kit: Kit, destinations: seq<(Bytes32, U64)>, kept: seq<U64>, fee: U64)
    returns (conditions: seq<Condition>)
    ensures conditions == Lead(kit, destinations, kept, fee) && kit.Writes(conditions)
  {
    conditions := [];
    for i := 0 to |destinations|
      invariant conditions + Payments(kit, destinations[i..]) == Payments(kit, destinations)
    {
      assert destinations[i..][1..] == destinations[i + 1..];
      conditions := conditions + [CreateCoin(destinations[i].0, destinations[i].1, kit.Hinted(destinations[i].0))];
    }
    assert conditions + [] == conditions == Payments(kit, destinations);
    ghost var paid := conditions;
    for i := 0 to |kept|
      invariant conditions + Returns(kit, kept[i..]) == paid + Returns(kit, kept)
    {
      ReturnsNext(kit, conditions, kept, i);
      conditions := conditions + [CreateCoin(kit.changeHash, kept[i], None)];
    }
    assert conditions + [] == conditions == paid + Returns(kit, kept);
    if fee > 0 {
      conditions := conditions + [ReserveFee(fee)];
    }
    LeadWritten(kit, destinations, kept, fee);
  }

  /** The lines of a summary read back as exactly these destinations. */
  ghost predicate Names(codec: Codec, lines: seq<SpendOutput>, destinations: seq<(Bytes32, U64)>) {
    && ReviewedRecipients(codec, lines) == Some(RecipientKeys(PaymentOutputs(destinations)))
    && ReviewedSinks(codec, lines) == []
  }

  /** The bundle that pays these destinations from these coins and returns the change, with a summary
      that names just the destinations. */
  ghost predicate Pays(kit: Kit, genesis: seq<Byte>, selected: seq<Coin>, destinations: seq<(Bytes32, U64)>,
                       change: int,
                       lines: seq<SpendOutput>, fee: U64, unsigned: UnsignedSpend) {
    && Names(kit.codec, lines, destinations)
    && 0 <= change <= U64_MAX && Sum(selected) == PaidTotal(destinations) + change + fee <= U64_MAX
    && Laid(kit, genesis, selected, Lead(kit, destinations, Change(change), fee),
            TransactionSummary(lines, [], fee, [], []), unsigned)
  }

  /** Pay destinations worth `payout` and return the change; the conservation check cannot fail. */
  method Pay(kit: Kit, genesis: seq<Byte>, selected: seq<Coin>, destinations: seq<(Bytes32, U64)>,
             payout: U64, change: U64, fee: U64, summary: TransactionSummary) returns (r: Option<UnsignedSpend>)
    requires Extracts(kit, genesis) && selected != [] && payout + change + fee == Sum(selected) <= U64_MAX
    ensures r.Some? <==> AllKeyed(kit, selected)
    ensures r.Some? ==> Laid(kit, genesis, selected, Lead(kit, destinations, Change(change), fee), summary, r.value)
  {
    var conditions := WriteLead(kit, destinations, Change(change), fee);
    if !AssertConserved(Sum(selected), payout + change, fee) { assert false; }
    r := LayDown(kit, genesis, selected, conditions, summary);
  }

  /** The coins that fund a send: nothing is sent for nothing. */
  method SelectForSend(kit: Kit, amount: U64, fee: U64) returns (r: Option<seq<Coin>>)
    requires Sum(kit.spendable) <= U64_MAX
    ensures r.Some? <==> 0 < amount + fee <= Sum(Usable(kit))
    ensures r.Some? ==> r.value == Funding(kit, amount + fee) && r.value != []
    ensures r.Some? ==> amount + fee <= Sum(r.value) <= U64_MAX
  {
    assert Sum(Usable(kit)) <= U64_MAX by { CappedWithin(kit.sdk, kit.spendable, kit.coinCap); }
    var target := CheckedTarget(amount, fee);
    if target.None? { return None; }
    r := SelectOrFail(kit, target.value);
  }

  method BuildSendXch(kit: Kit, genesis: seq<Byte>, to: string, amount: U64, fee: U64)
    returns (r: Option<UnsignedSpend>)
    requires Extracts(kit, genesis) && kit.codec.Decode("").None? && Sum(kit.spendable) <= U64_MAX
    ensures r.Some? <==>
              && 0 < amount + fee <= Sum(Usable(kit)) && kit.codec.Decode(to).Some?
              && AllKeyed(kit, Funding(kit, amount + fee))
    ensures r.Some? ==>
              var selected := Funding(kit, amount + fee);
              Pays(kit, genesis, selected, [(kit.codec.Decode(to).value, amount)], Sum(selected) - (amount + fee),
                   [SpendOutput(to, amount, None)], fee, r.value)
  {
    var destination := kit.codec.Decode(to);
    if destination.None? { return None; }
    var selected := SelectForSend(kit, amount, fee);
    if selected.None? { return None; }
    OneLine(kit.codec, to, amount);
    r := Pay(kit, genesis, selected.value, [(destination.value, amount)], amount,
             Sum(selected.value) - (amount + fee), fee,
             TransactionSummary([SpendOutput(to, amount, None)], [], fee, [], []));
  }

  lemma OneLine(codec: Codec, to: string, amount: U64)
    requires codec.Decode(to).Some? && codec.Decode("").None?
    ensures Names(codec, [SpendOutput(to, amount, None)], [(codec.Decode(to).value, amount)])
    ensures PaidTotal([(codec.Decode(to).value, amount)]) == amount
  {
    var lines, destinations := [SpendOutput(to, amount, None)], [(codec.Decode(to).value, amount)];
    assert lines[1..] == [] && destinations[1..] == [];
    var key := ReviewKey(codec.Decode(to), amount, None);
    assert [key] + [] == [key] && ReviewedRecipients(codec, []) == Some([]) && RecipientKeys([]) == [];
    assert ReviewedRecipients(codec, lines) == Some([key]);
    var output := DecodedOutput(destinations[0].0, amount, None);
    assert [output] + [] == [output] && [output][1..] == [] && PaymentOutputs(destinations) == [output];
    assert RecipientKeys([output]) == [key];
  }

  // ---- many destinations ----

  /** The total the legs pay, or `None` when it is not representable. */
  method TotalOf(legs: seq<SendLeg>) returns (r: Option<U64>)
    ensures r.Some? <==> LegTotal(legs) <= U64_MAX
    ensures r.Some? ==> r.value == LegTotal(legs)
  {
    var sum: U64 := 0;
    for i := 0 to |legs|
      invariant sum + LegTotal(legs[i..]) == LegTotal(legs)
    {
      assert legs[i..][1..] == legs[i + 1..];
      var next := Accumulate(sum, legs[i].amount);
      if next.None? { return None; }
      sum := next.value;
    }
    return Some(sum);
  }

  function LegTotal(legs: seq<SendLeg>): nat {
    if legs == [] then 0 else legs[0].amount + LegTotal(legs[1..])
  }

  /** Legs as destinations; an empty list, a zero leg or a bad address is refused. */
  function ResolveLegs(codec: Codec, legs: seq<SendLeg>): Option<seq<(Bytes32, U64)>> {
    if legs == [] || exists leg :: leg in legs && leg.amount == 0 then None else DecodeLegs(codec, legs)
  }

  function ChangeCoins(kit: Kit, change: U64): seq<(Bytes32, U64)> {
    if change > 0 then [(kit.changeHash, change)] else []
  }

  /** The coins are under held keys, and what they create for these destinations and for change, all
      from the lead coin, has distinct ids. */
  ghost predicate Payable(kit: Kit, selected: seq<Coin>, destinations: seq<(Bytes32, U64)>, change: int) {
    && selected != [] && AllKeyed(kit, selected)
    && 0 <= change <= U64_MAX
    && DistinctCreated(kit.sdk, kit.sdk.IdOf(selected[0]), destinations + ChangeCoins(kit, change))
  }

  lemma PositivePayout(legs: seq<SendLeg>)
    requires legs != [] && forall leg :: leg in legs ==> leg.amount != 0
    ensures LegTotal(legs) > 0
  {
    assert legs[0] in legs;
  }

  /** The coins that fund a multi-send of resolved legs. */
  method SelectForLegs(kit: Kit, legs: seq<SendLeg>, fee: U64) returns (r: Option<seq<Coin>>)
    requires Sum(kit.spendable) <= U64_MAX && ResolveLegs(kit.codec, legs).Some?
    ensures r.Some? <==> LegTotal(legs) + fee <= Sum(Usable(kit))
    ensures r.Some? ==> r.value == Funding(kit, LegTotal(legs) + fee) && r.value != []
    ensures r.Some? ==> LegTotal(legs) + fee <= Sum(r.value) <= U64_MAX
  {
    PositivePayout(legs);
    assert Sum(Usable(kit)) <= U64_MAX by { CappedWithin(kit.sdk, kit.spendable, kit.coinCap); }
    var payout := TotalOf(legs);
    if payout.None? { return None; }
    var target := Accumulate(payout.value, fee);
    if target.None? { return None; }
    r := SelectOrFail(kit, target.value);
  }

  /** A multi-send is built exactly when its legs resolve, the usable coins cover them and the fee, and
      they are payable from the coins selected. */
  method BuildMultiSendXch(kit: Kit, genesis: seq<Byte>, legs: seq<SendLeg>, fee: U64)
    returns (r: Option<UnsignedSpend>)
    requires Extracts(kit, genesis) && kit.codec.Decode("").None? && Sum(kit.spendable) <= U64_MAX
    ensures var target := LegTotal(legs) + fee;
            r.Some? <==>
              && ResolveLegs(kit.codec, legs).Some? && target <= Sum(Usable(kit))
              && Payable(kit, Funding(kit, target), ResolveLegs(kit.codec, legs).value,
                         Sum(Funding(kit, target)) - target)
    ensures r.Some? ==>
              var selected := Funding(kit, LegTotal(legs) + fee);
              Pays(kit, genesis, selected, ResolveLegs(kit.codec, legs).value, Sum(selected) - (LegTotal(legs) + fee),
                   Lines(legs), fee, r.value)
  {
    var destinations := ResolveLegs(kit.codec, legs);
    if destinations.None? { return None; }
    var selected := SelectForLegs(kit, legs, fee);
    if selected.None? { return None; }
    r := PayNamed(kit, genesis, selected.value, destinations.value, Sum(selected.value) - (LegTotal(legs) + fee),
                  legs, fee);
  }

  /** Pay legs that resolved, from coins that cover them, unless two created coins would share an id. */
  method PayNamed(kit: Kit, genesis: seq<Byte>, selected: seq<Coin>, destinations: seq<(Bytes32, U64)>, change: U64,
                  legs: seq<SendLeg>, fee: U64) returns (r: Option<UnsignedSpend>)
    requires Extracts(kit, genesis) && kit.codec.Decode("").None?
    requires DecodeLegs(kit.codec, legs) == Some(destinations)
    requires selected != [] && LegTotal(legs) + change + fee == Sum(selected) <= U64_MAX
    ensures r.Some? <==> Payable(kit, selected, destinations, change)
    ensures r.Some? ==> Pays(kit, genesis, selected, destinations, change, Lines(legs), fee, r.value)
  {
    var distinct := EnsureDistinctCreatedCoins(kit.sdk, kit.sdk.IdOf(selected[0]),
                                               destinations + ChangeCoins(kit, change));
    if !distinct { return None; }
    LinesRead(kit.codec, legs);
    LegsTotal(kit.codec, legs);
    r := Pay(kit, genesis, selected, destinations, LegTotal(legs), change, fee,
             TransactionSummary(Lines(legs), [], fee, [], []));
  }

  // ---- reshaping the wallet's own coins ----

  /** The coins a combine merges. */
  function ToMerge(kit: Kit): seq<Coin> {
    match SelectForConsolidation(kit.sdk, kit.spendable, kit.coinCap)
    case None => []
    case Some(selected) => selected
  }

  /** Two or more of the wallet's own coins are merged, and no more than it holds. */
  lemma ToMergeWithin(kit: Kit)
    requires |kit.spendable| >= 2
    ensures |ToMerge(kit)| >= 2 && Sum(ToMerge(kit)) <= Sum(kit.spendable)
    ensures forall c :: c in ToMerge(kit) ==> c in kit.spendable
  {
    CappedWithin(kit.sdk, kit.spendable, if kit.coinCap < 2 then 2 else kit.coinCap);
  }

  /** All of these coins become the coins kept, less the fee; the summary names only the fee. */
  ghost predicate Reshapes(kit: Kit, genesis: seq<Byte>, selected: seq<Coin>, kept: seq<U64>, fee: U64,
                           unsigned: UnsignedSpend) {
    && Sum(selected) == SumOf(kept) + fee
    && Laid(kit, genesis, selected, Lead(kit, [], kept, fee), TransactionSummary([], [], fee, [], []), unsigned)
  }

  lemma KeptOne(amount: U64)
    ensures SumOf([amount]) == amount
  {
    assert [amount][1..] == [];
  }

  /** Merge the largest coins into exactly one, worth their total less the fee. */
  method BuildCombineXch(kit: Kit, genesis: seq<Byte>, fee: U64) returns (r: Option<UnsignedSpend>)
    requires Extracts(kit, genesis) && Sum(kit.spendable) <= U64_MAX
    ensures r.Some? <==> |kit.spendable| >= 2 && Sum(ToMerge(kit)) > fee && AllKeyed(kit, ToMerge(kit))
    ensures r.Some? ==>
              && 0 <= Sum(ToMerge(kit)) - fee <= U64_MAX
              && Reshapes(kit, genesis, ToMerge(kit), [Sum(ToMerge(kit)) - fee], fee, r.value)
  {
    if |kit.spendable| < 2 { return None; }
    assert ToMerge(kit) != [] && Sum(ToMerge(kit)) <= U64_MAX by { ToMergeWithin(kit); }
    r := MergeCoins(kit, genesis, ToMerge(kit), fee);
  }

  method MergeCoins(kit: Kit, genesis: seq<Byte>, selected: seq<Coin>, fee: U64) returns (r: Option<UnsignedSpend>)
    requires Extracts(kit, genesis) && selected != [] && Sum(selected) <= U64_MAX
    ensures r.Some? <==> Sum(selected) > fee && AllKeyed(kit, selected)
    ensures r.Some? ==> Reshapes(kit, genesis, selected, [Sum(selected) - fee], fee, r.value)
  {
    var total := Sum(selected);
    if total <= fee { return None; }
    var merged := total - fee;
    var conditions := WriteLead(kit, [], [merged], fee);
    if !AssertConserved(total, merged, fee) { assert false; }
    KeptOne(merged);
    r := LayDown(kit, genesis, selected, conditions, TransactionSummary([], [], fee, [], []));
  }

  /** The wallet's largest coin, the first in selection order. */
  method LargestSpendable(kit: Kit) returns (r: Option<Coin>)
    ensures r.None? <==> kit.spendable == []
    ensures r.Some? ==> IsLargest(kit, r.value)
  {
    if kit.spendable == [] { return None; }
    HighFirstOrders(kit.sdk);
    var best, order := kit.spendable[0], HighFirst(kit.sdk);
    assert order(best, best) || order(best, best);
    for i := 1 to |kit.spendable|
      invariant best in kit.spendable
      invariant forall k :: 0 <= k < i ==> order(best, kit.spendable[k])
    {
      if !order(best, kit.spendable[i]) {
        best := kit.spendable[i];
      }
    }
    assert forall k :: 0 <= k < |kit.spendable| ==> Before(kit.sdk, best, kit.spendable[k]);
    return Some(best);
  }

  function Mine(kit: Kit, amounts: seq<U64>): (r: seq<(Bytes32, U64)>)
    ensures |r| == |amounts| && forall i :: 0 <= i < |r| ==> r[i] == (kit.changeHash, amounts[i])
  {
    if amounts == [] then [] else [(kit.changeHash, amounts[0])] + Mine(kit, amounts[1..])
  }

  ghost predicate IsLargest(kit: Kit, coin: Coin) {
    coin in kit.spendable && forall c :: c in kit.spendable ==> Before(kit.sdk, coin, c)
  }

  /** This coin covers the fee and the smallest staggered parts, under a held key. */
  ghost predicate CanSplit(kit: Kit, coin: Coin, parts: nat, fee: U64) {
    coin.amount >= fee + parts + Triangle(parts) && kit.KeyFor(coin).Some?
  }

  /** The largest coin becomes `parts` positive coins of the wallet's, each larger than the one before. */
  ghost predicate Splits(kit: Kit, genesis: seq<Byte>, coin: Coin, amounts: seq<U64>, parts: nat, fee: U64,
                         unsigned: UnsignedSpend) {
    && IsLargest(kit, coin)
    && |amounts| == parts && StrictlyIncreasing(amounts) && (forall i :: 0 <= i < parts ==> amounts[i] > 0)
    && Reshapes(kit, genesis, [coin], amounts, fee, unsigned)
  }

  /** Two different coins this coin could create for the wallet share an id. */
  ghost predicate ChildrenCollide(kit: Kit, coin: Coin) {
    exists x: U64, y: U64 :: x != y &&
      kit.sdk.IdOf(Coin(kit.sdk.IdOf(coin), kit.changeHash, x)) ==
        kit.sdk.IdOf(Coin(kit.sdk.IdOf(coin), kit.changeHash, y))
  }

  /** Split the largest coin. The amounts are distinct and add up by construction, so the conservation
      check cannot stop it, and the collision check only by exhibiting two coins with one id: it fails
      for want of parts, of a coin, of value, or of the coin's key. */
  method BuildSplitXch(kit: Kit, genesis: seq<Byte>, parts: nat, fee: U64) returns (r: Option<UnsignedSpend>)
    requires Extracts(kit, genesis) && parts < 0x1_0000_0000
    ensures r.Some? ==>
              parts >= 2 && exists coin, amounts ::
                CanSplit(kit, coin, parts, fee) && Splits(kit, genesis, coin, amounts, parts, fee, r.value)
    ensures r.None? ==>
              || parts < 2 || kit.spendable == []
              || exists coin :: IsLargest(kit, coin) && (CanSplit(kit, coin, parts, fee) ==> ChildrenCollide(kit, coin))
  {
    if parts < 2 { return None; }
    var largest := LargestSpendable(kit);
    if largest.None? { return None; }
    ghost var amounts;
    r, amounts := SplitCoin(kit, genesis, largest.value, parts, fee);
    if r.Some? {
      assert CanSplit(kit, largest.value, parts, fee) &&
             Splits(kit, genesis, largest.value, amounts, parts, fee, r.value);
    }
  }

  method SplitCoin(kit: Kit, genesis: seq<Byte>, selected: Coin, parts: nat, fee: U64)
    returns (r: Option<UnsignedSpend>, ghost amounts: seq<U64>)
    requires Extracts(kit, genesis) && 2 <= parts < 0x1_0000_0000
    ensures r.Some? ==> CanSplit(kit, selected, parts, fee)
    ensures r.None? && CanSplit(kit, selected, parts, fee) ==> ChildrenCollide(kit, selected)
    ensures r.Some? ==>
              && |amounts| == parts && StrictlyIncreasing(amounts) && (forall i :: 0 <= i < parts ==> amounts[i] > 0)
              && Reshapes(kit, genesis, [selected], amounts, fee, r.value)
  {
    r, amounts := None, [];
    if selected.amount < fee { return; }
    PartsNeverOverflow(parts);
    var staggered := StaggeredAmounts(selected.amount - fee, parts);
    if staggered.None? { return; }
    amounts := staggered.value;
    var distinct := EnsureDistinctCreatedCoins(kit.sdk, kit.sdk.IdOf(selected), Mine(kit, staggered.value));
    if !distinct {
      AlikeCollide(kit, selected, staggered.value);
      return;
    }
    var conditions := WriteLead(kit, [], staggered.value, fee);
    if !AssertConserved(selected.amount, selected.amount - fee, fee) { assert false; }
    assert [selected][1..] == [] && Sum([selected]) == selected.amount;
    r := LayDown(kit, genesis, [selected], conditions, TransactionSummary([], [], fee, [], []));
  }

  lemma AlikeCollide(kit: Kit, coin: Coin, amounts: seq<U64>)
    requires StrictlyIncreasing(amounts) && !DistinctCreated(kit.sdk, kit.sdk.IdOf(coin), Mine(kit, amounts))
    ensures ChildrenCollide(kit, coin)
  {
    var created, parent := Mine(kit, amounts), kit.sdk.IdOf(coin);
    var i, j :| 0 <= i < j < |created| &&
      kit.sdk.IdOf(Coin(parent, created[i].0, created[i].1)) == kit.sdk.IdOf(Coin(parent, created[j].0, created[j].1));
    assert amounts[i] != amounts[j];
  }

  lemma LeadWritten(kit: Kit, destinations: seq<(Bytes32, U64)>, kept: seq<U64>, fee: U64)
    ensures kit.Writes(Lead(kit, destinations, kept, fee))
  {
    PaymentsOnly(kit, destinations);
    ReturnsOnly(kit, kept);
  }

  lemma {:induction false} PaymentsOnly(kit: Kit, destinations: seq<(Bytes32, U64)>)
    ensures forall c :: c in Payments(kit, destinations) ==>
              && c.CreateCoin? && c.memos == kit.Hinted(c.puzzleHash)
              && exists d :: d in destinations && c.puzzleHash == d.0
    ensures Creates(Payments(kit, destinations), None) == PaymentOutputs(destinations)
    ensures Reserved(Payments(kit, destinations)) == 0
    ensures Total(PaymentOutputs(destinations), None) == PaidTotal(destinations)
  {
    if destinations != [] {
      PaymentsOnly(kit, destinations[1..]);
      var first := CreateCoin(destinations[0].0, destinations[0].1, kit.Hinted(destinations[0].0));
      assert Payments(kit, destinations) == [first] + Payments(kit, destinations[1..]);
      assert destinations == [destinations[0]] + destinations[1..];
      assert destinations[0] in destinations;
      assert Payments(kit, destinations)[1..] == Payments(kit, destinations[1..]);
      assert PaymentOutputs(destinations)[1..] == PaymentOutputs(destinations[1..]);
    }
  }

  lemma {:induction false} ReturnsOnly(kit: Kit, amounts: seq<U64>)
    ensures forall c :: c in Returns(kit, amounts) ==>
            c.CreateCoin? && c.memos == None && c.puzzleHash == kit.changeHash
    ensures Creates(Returns(kit, amounts), None) == ReturnOutputs(kit, amounts)
    ensures Reserved(Returns(kit, amounts)) == 0
    ensures Total(ReturnOutputs(kit, amounts), None) == SumOf(amounts)
    ensures forall o :: o in ReturnOutputs(kit, amounts) ==> o.puzzleHash == kit.changeHash
  {
    if amounts != [] {
      ReturnsOnly(kit, amounts[1..]);
      assert Returns(kit, amounts)[1..] == Returns(kit, amounts[1..]);
      assert ReturnOutputs(kit, amounts)[1..] == ReturnOutputs(kit, amounts[1..]);
    }
  }

  // ---- the round trip ----

  /** The gate opens: the analysis accepts and the summary is the reviewable one. */
  ghost predicate GateOpens(sdk: Sdk, owner: Owner, unsigned: UnsignedSpend) {
    && Accepted(sdk, unsigned.coinSpends)
    && SameSummary(owner.codec, unsigned.summary, ReviewableSummary(sdk, owner, unsigned.coinSpends))
  }

  /** The wallet of the builder: it owns its change address, which is no structural hash. */
  ghost predicate WalletOf(kit: Kit, owner: Owner) {
    && owner.codec == kit.codec && kit.codec.Lawful()
    && owner.Owns(kit.changeHash) && !kit.sdk.IsSinkHash(kit.changeHash)
  }

  /** Destinations outside the wallet, and none of them structural. */
  ghost predicate Outside(kit: Kit, owner: Owner, destinations: seq<(Bytes32, U64)>) {
    forall d :: d in destinations ==> !owner.Owns(d.0) && !kit.sdk.IsSinkHash(d.0)
  }

  /** What the verifier reads off the lead conditions. */
  lemma LeadReads(kit: Kit, destinations: seq<(Bytes32, U64)>, kept: seq<U64>, fee: U64)
    ensures var lead := Lead(kit, destinations, kept, fee);
            && Creates(lead, None) == PaymentOutputs(destinations) + ReturnOutputs(kit, kept)
            && Reserved(lead) == fee
            && Total(Creates(lead, None), None) == PaidTotal(destinations) + SumOf(kept)
  {
    var paid, back := Payments(kit, destinations), Returns(kit, kept);
    var last: seq<Condition> := if fee > 0 then [ReserveFee(fee)] else [];
    PaymentsOnly(kit, destinations);
    ReturnsOnly(kit, kept);
    CreatesConcat(paid + back, last, None);
    CreatesConcat(paid, back, None);
    CountsConcat(paid + back, last);
    CountsConcat(paid, back);
    assert last != [] ==> last[1..] == [];
    assert Creates(last, None) == [] && Reserved(last) == fee;
    TotalConcat(PaymentOutputs(destinations), ReturnOutputs(kit, kept), None);
  }

  lemma LeadFree(kit: Kit, owner: Owner, destinations: seq<(Bytes32, U64)>, kept: seq<U64>, fee: U64)
    requires WalletOf(kit, owner) && Outside(kit, owner, destinations)
    ensures Free(kit.sdk, Lead(kit, destinations, kept, fee))
  {
    PaymentsOnly(kit, destinations);
    ReturnsOnly(kit, kept);
  }

  /** The outputs that leave the wallet for a free address. */
  function Leaving(sdk: Sdk, owner: Owner, outputs: seq<DecodedOutput>): seq<DecodedOutput> {
    Owned(owner, Routed(sdk, outputs, false), false)
  }

  lemma LeavingNext(sdk: Sdk, owner: Owner, output: DecodedOutput, rest: seq<DecodedOutput>)
    ensures Leaving(sdk, owner, [output] + rest) ==
            (if owner.Owns(output.puzzleHash) || sdk.IsSinkHash(output.puzzleHash) then [] else [output]) +
              Leaving(sdk, owner, rest)
  {
    assert ([output] + rest)[1..] == rest;
    var routed := Routed(sdk, rest, false);
    assert ([output] + routed)[1..] == routed;
    assert [] + routed == routed;
    assert [] + Owned(owner, routed, false) == Owned(owner, routed, false);
  }

  /** Of payments and change, what leaves is at most the payments, and all of them exactly when every
      destination is outside. */
  lemma {:induction false} LeavingPayments(kit: Kit, owner: Owner, destinations: seq<(Bytes32, U64)>, kept: seq<U64>)
    requires WalletOf(kit, owner)
    ensures var leaving := Leaving(kit.sdk, owner, PaymentOutputs(destinations) + ReturnOutputs(kit, kept));
            && |leaving| <= |destinations|
            && (|leaving| == |destinations| <==> Outside(kit, owner, destinations))
            && (Outside(kit, owner, destinations) ==> leaving == PaymentOutputs(destinations))
    decreases |destinations| + |kept|
  {
    var paid, back := PaymentOutputs(destinations), ReturnOutputs(kit, kept);
    if destinations != [] {
      LeavingPayments(kit, owner, destinations[1..], kept);
      assert destinations == [destinations[0]] + destinations[1..];
      assert paid + back == [paid[0]] + (PaymentOutputs(destinations[1..]) + back);
      LeavingNext(kit.sdk, owner, paid[0], PaymentOutputs(destinations[1..]) + back);
    } else if kept != [] {
      LeavingPayments(kit, owner, [], kept[1..]);
      assert paid + back == [back[0]] + (PaymentOutputs([]) + ReturnOutputs(kit, kept[1..]));
      LeavingNext(kit.sdk, owner, back[0], PaymentOutputs([]) + ReturnOutputs(kit, kept[1..]));
    }
  }

  /** A laid bundle that balances, with a summary naming exactly its payments, opens the gate exactly
      when every payment goes outside the wallet to a free address: a payment to oneself, or to a
      structural hash, leaves a reviewed line nothing in the bytes answers to. */
  lemma LaidOpensGate(kit: Kit, genesis: seq<Byte>, owner: Owner, selected: seq<Coin>,
                      destinations: seq<(Bytes32, U64)>,
                      kept: seq<U64>, fee: U64, lines: seq<SpendOutput>, unsigned: UnsignedSpend)
    requires kit.Lawful() && WalletOf(kit, owner)
    requires Laid(kit, genesis, selected, Lead(kit, destinations, kept, fee),
                  TransactionSummary(lines, [], fee, [], []), unsigned)
    requires Sum(selected) == PaidTotal(destinations) + SumOf(kept) + fee <= U64_MAX
    requires Names(kit.codec, lines, destinations)
    ensures GateOpens(kit.sdk, owner, unsigned) <==> Outside(kit, owner, destinations)
  {
    LeavingPayments(kit, owner, destinations, kept);
    if Outside(kit, owner, destinations) {
      OutsideOpens(kit, genesis, owner, selected, destinations, kept, fee, lines, unsigned);
    }
    if GateOpens(kit.sdk, owner, unsigned) {
      OpenLeavesAll(kit, genesis, owner, selected, destinations, kept, fee, lines, unsigned);
    }
  }

  lemma OutsideOpens(kit: Kit, genesis: seq<Byte>, owner: Owner, selected: seq<Coin>, destinations: seq<(Bytes32, U64)>,
                     kept: seq<U64>, fee: U64, lines: seq<SpendOutput>, unsigned: UnsignedSpend)
    requires kit.Lawful() && WalletOf(kit, owner) && Outside(kit, owner, destinations)
    requires Laid(kit, genesis, selected, Lead(kit, destinations, kept, fee),
                  TransactionSummary(lines, [], fee, [], []), unsigned)
    requires Sum(selected) == PaidTotal(destinations) + SumOf(kept) + fee <= U64_MAX
    requires Names(kit.codec, lines, destinations)
    ensures GateOpens(kit.sdk, owner, unsigned)
  {
    var lead := Lead(kit, destinations, kept, fee);
    LeadReads(kit, destinations, kept, fee);
    LeadFree(kit, owner, destinations, kept, fee);
    LeadWritten(kit, destinations, kept, fee);
    BuiltIsAccepted(kit, selected, lead);
    LeavingPayments(kit, owner, destinations, kept);
    CreatesAreFree(kit.sdk, lead);
    PlainSummaryMatches(owner, Creates(lead, None), lines, fee);
  }

  /** A summary whose lines are the outputs that leave matches what the signer derives. */
  lemma PlainSummaryMatches(owner: Owner, created: seq<DecodedOutput>, lines: seq<SpendOutput>, fee: U64)
    requires owner.codec.Lawful()
    requires ReviewedRecipients(owner.codec, lines) == Some(RecipientKeys(Owned(owner, created, false)))
    requires ReviewedSinks(owner.codec, lines) == []
    ensures SameSummary(owner.codec, TransactionSummary(lines, [], fee, [], []),
                        SummarizeEgress(owner.codec,
                                        ReclassifyByOwnership(owner, SpendEffect(created, [], fee, [], []))))
  {
    ReadBack(owner.codec, ReclassifyByOwnership(owner, SpendEffect(created, [], fee, [], [])));
  }

  lemma OpenLeavesAll(kit: Kit, genesis: seq<Byte>, owner: Owner, selected: seq<Coin>,
                      destinations: seq<(Bytes32, U64)>,
                      kept: seq<U64>, fee: U64, lines: seq<SpendOutput>, unsigned: UnsignedSpend)
    requires kit.Lawful() && GateOpens(kit.sdk, owner, unsigned) && owner.codec == kit.codec && kit.codec.Lawful()
    requires Laid(kit, genesis, selected, Lead(kit, destinations, kept, fee),
                  TransactionSummary(lines, [], fee, [], []), unsigned)
    requires Names(kit.codec, lines, destinations)
    ensures |Leaving(kit.sdk, owner, PaymentOutputs(destinations) + ReturnOutputs(kit, kept))| == |destinations|
  {
    var lead := Lead(kit, destinations, kept, fee);
    LeadReads(kit, destinations, kept, fee);
    LeadWritten(kit, destinations, kept, fee);
    BuiltBook(kit, selected, lead);
    var split := ReclassifyByOwnership(owner, EffectOf(kit.sdk, unsigned.coinSpends));
    ReadBack(kit.codec, split);
    SameItemsLength(RecipientKeys(PaymentOutputs(destinations)), RecipientKeys(split.recipients));
    KeysLength(PaymentOutputs(destinations));
    KeysLength(split.recipients);
    PaymentsLength(destinations);
  }

  lemma {:induction false} KeysLength(outputs: seq<DecodedOutput>)
    ensures |RecipientKeys(outputs)| == |outputs|
  {
    if outputs != [] {
      KeysLength(outputs[1..]);
    }
  }

  lemma {:induction false} PaymentsLength(destinations: seq<(Bytes32, U64)>)
    ensures |PaymentOutputs(destinations)| == |destinations|
  {
    if destinations != [] {
      PaymentsLength(destinations[1..]);
    }
  }

  function Lines(legs: seq<SendLeg>): seq<SpendOutput> {
    if legs == [] then [] else [SpendOutput(legs[0].to, legs[0].amount, None)] + Lines(legs[1..])
  }

  /** Every leg decoded, or `None` if one address does not decode. */
  function DecodeLegs(codec: Codec, legs: seq<SendLeg>): Option<seq<(Bytes32, U64)>> {
    if legs == [] then Some([])
    else
      var first, rest := codec.Decode(legs[0].to), DecodeLegs(codec, legs[1..]);
      if first.None? || rest.None? then None else Some([(first.value, legs[0].amount)] + rest.value)
  }

  /** The lines of a request read back as its destinations. */
  lemma {:induction false} LinesRead(codec: Codec, legs: seq<SendLeg>)
    requires DecodeLegs(codec, legs).Some? && codec.Decode("").None?
    ensures Names(codec, Lines(legs), DecodeLegs(codec, legs).value)
  {
    if legs != [] {
      LinesRead(codec, legs[1..]);
      var decoded := DecodeLegs(codec, legs).value;
      assert Lines(legs)[1..] == Lines(legs[1..]);
      assert decoded[1..] == DecodeLegs(codec, legs[1..]).value;
      assert PaymentOutputs(decoded)[1..] == PaymentOutputs(decoded[1..]);
    }
  }

  lemma {:induction false} LegsTotal(codec: Codec, legs: seq<SendLeg>)
    requires DecodeLegs(codec, legs).Some?
    ensures PaidTotal(DecodeLegs(codec, legs).value) == LegTotal(legs)
  {
    if legs != [] {
      LegsTotal(codec, legs[1..]);
      assert DecodeLegs(codec, legs).value[1..] == DecodeLegs(codec, legs[1..]).value;
    }
  }

  lemma ChangeTotal(amount: U64)
    ensures SumOf(Change(amount)) == amount
  {
    assert Change(amount) != [] ==> Change(amount)[1..] == [];
  }

  /** Every send and multi-send the builders return opens the gate of the wallet that owns the change
      exactly when every destination is outside it and free. */
  lemma PayRoundTrip(kit: Kit, genesis: seq<Byte>, owner: Owner, selected: seq<Coin>, destinations: seq<(Bytes32, U64)>,
                     change: U64, lines: seq<SpendOutput>, fee: U64, unsigned: UnsignedSpend)
    requires kit.Lawful() && WalletOf(kit, owner)
    requires Pays(kit, genesis, selected, destinations, change, lines, fee, unsigned)
    ensures GateOpens(kit.sdk, owner, unsigned) <==> Outside(kit, owner, destinations)
  {
    ChangeTotal(change);
    LaidOpensGate(kit, genesis, owner, selected, destinations, Change(change), fee, lines, unsigned);
  }

  /** Every combine and split the builders return opens the gate on a summary that names the fee
      and nothing else. */
  lemma ReshapeRoundTrip(kit: Kit, genesis: seq<Byte>, owner: Owner, selected: seq<Coin>, kept: seq<U64>, fee: U64,
                         unsigned: UnsignedSpend)
    requires kit.Lawful() && Sum(selected) <= U64_MAX && Reshapes(kit, genesis, selected, kept, fee, unsigned)
    requires WalletOf(kit, owner)
    ensures GateOpens(kit.sdk, owner, unsigned)
  {
    LaidOpensGate(kit, genesis, owner, selected, [], kept, fee, [], unsigned);
  }

  // ---- what a built bundle says ----

  /** The lead list, place by place: each payment under a hint of its destination, each coin kept back at the
      change hash, and the fee when there is one. */
  ghost predicate LeadSays(kit: Kit, list: seq<Condition>, destinations: seq<(Bytes32, U64)>, kept: seq<U64>,
                           fee: U64)
  {
    var paid, back := |destinations|, |kept|;
    && |list| == paid + back + (if fee > 0 then 1 else 0)
    && (forall i :: 0 <= i < paid ==>
          list[i] == CreateCoin(destinations[i].0, destinations[i].1, Some(kit.hint(destinations[i].0))))
    && (forall i :: 0 <= i < back ==> list[paid + i] == CreateCoin(kit.changeHash, kept[i], None))
    && (fee > 0 ==> list[paid + back] == ReserveFee(fee))
  }

  lemma {:induction false} PaymentsRead(kit: Kit, destinations: seq<(Bytes32, U64)>)
    ensures |Payments(kit, destinations)| == |destinations|
    ensures forall i :: 0 <= i < |destinations| ==>
              Payments(kit, destinations)[i] ==
              CreateCoin(destinations[i].0, destinations[i].1, Some(kit.hint(destinations[i].0)))
  {
    if destinations != [] {
      PaymentsRead(kit, destinations[1..]);
    }
  }

  lemma {:induction false} ReturnsRead(kit: Kit, kept: seq<U64>)
    ensures |Returns(kit, kept)| == |kept|
    ensures forall i :: 0 <= i < |kept| ==> Returns(kit, kept)[i] == CreateCoin(kit.changeHash, kept[i], None)
  {
    if kept != [] {
      ReturnsRead(kit, kept[1..]);
    }
  }

  lemma LeadIsRead(kit: Kit, destinations: seq<(Bytes32, U64)>, kept: seq<U64>, fee: U64)
    ensures LeadSays(kit, Lead(kit, destinations, kept, fee), destinations, kept, fee)
  {
    PaymentsRead(kit, destinations);
    ReturnsRead(kit, kept);
  }

  /** The coin emits its own signature and then this list. */
  ghost predicate EmitsSigned(sdk: Sdk, spend: CoinSpend, list: seq<Condition>) {
    && spend.puzzleReveal.Some? && spend.solution.Some?
    && exists key, message ::
         sdk.RunConditions(spend.puzzleReveal.value, spend.solution.value) == Some([AggSigMe(key, message)] + list)
  }

  lemma {:induction false} SupportingReads(kit: Kit, lead: Bytes32, coins: seq<Coin>)
    requires kit.Lawful() && AllKeyed(kit, coins)
    ensures |Supporting(kit, lead, coins)| == |coins|
    ensures forall i :: 0 <= i < |coins| ==>
              && Supporting(kit, lead, coins)[i].coin == coins[i]
              && EmitsSigned(kit.sdk, Supporting(kit, lead, coins)[i], [AssertConcurrentSpend(lead)])
  {
    if coins != [] {
      SupportingReads(kit, lead, coins[1..]);
      SpendEmits(kit, coins[0], [AssertConcurrentSpend(lead)]);
    }
  }

  lemma SpendEmits(kit: Kit, coin: Coin, list: seq<Condition>)
    requires kit.Lawful() && kit.KeyFor(coin).Some? && kit.Writes(list)
    ensures EmitsSigned(kit.sdk, kit.StandardSpend(coin, list), list)
  {
    SignedQuote(kit, coin, list);
  }

  /** What every builder lays down: the selected coins in order, each signed for; the first makes the payments,
      the change and the fee, and every other asserts that the first is spent beside it and does nothing else. */
  lemma BuiltReads(kit: Kit, genesis: seq<Byte>, selected: seq<Coin>, destinations: seq<(Bytes32, U64)>, kept: seq<U64>,
                   fee: U64, summary: TransactionSummary, unsigned: UnsignedSpend) returns (lead: seq<Condition>)
    requires kit.Lawful() && Laid(kit, genesis, selected, Lead(kit, destinations, kept, fee), summary, unsigned)
    ensures var spends := unsigned.coinSpends;
            && |spends| == |selected| > 0 && unsigned.summary == summary
            && (forall i :: 0 <= i < |spends| ==> spends[i].coin == selected[i])
            && EmitsSigned(kit.sdk, spends[0], lead) && LeadSays(kit, lead, destinations, kept, fee)
            && forall i :: 0 < i < |spends| ==>
                 EmitsSigned(kit.sdk, spends[i], [AssertConcurrentSpend(kit.sdk.coinId(selected[0]))])
  {
    lead := Lead(kit, destinations, kept, fee);
    LeadWritten(kit, destinations, kept, fee);
    LeadIsRead(kit, destinations, kept, fee);
    SpendEmits(kit, selected[0], lead);
    SupportingReads(kit, kit.sdk.IdOf(selected[0]), selected[1..]);
  }

  /** A send or a multi-send: its payments, one change coin when there is change, and its fee. */
  lemma PaidReads(kit: Kit, genesis: seq<Byte>, selected: seq<Coin>, destinations: seq<(Bytes32, U64)>, change: int,
                  lines: seq<SpendOutput>, fee: U64, unsigned: UnsignedSpend) returns (lead: seq<Condition>)
    requires kit.Lawful() && Pays(kit, genesis, selected, destinations, change, lines, fee, unsigned)
    ensures |unsigned.coinSpends| > 0 && EmitsSigned(kit.sdk, unsigned.coinSpends[0], lead)
    ensures LeadSays(kit, lead, destinations, if change > 0 then [change] else [], fee)
    ensures Sum(selected) == PaidTotal(destinations) + change + fee
  {
    lead := BuiltReads(kit, genesis, selected, destinations, Change(change), fee,
                       TransactionSummary(lines, [], fee, [], []), unsigned);
  }
}
