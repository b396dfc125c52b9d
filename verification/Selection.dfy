/** Coin selection: high value first, capped, with the three outcomes kept apart. */
module Selection {
  import opened Prelude
  import opened Clvm
  import opened Text

  function Sum(coins: seq<Coin>): nat {
    if coins == [] then 0 else coins[0].amount + Sum(coins[1..])
  }

  lemma {:induction false} SumConcat(a: seq<Coin>, b: seq<Coin>)
    ensures Sum(a + b) == Sum(a) + Sum(b)
  {
    if a == [] {
      assert a + b == b;
    } else {
      assert (a + b)[1..] == a[1..] + b;
      SumConcat(a[1..], b);
    }
  }

  lemma SumPrefix(coins: seq<Coin>, i: nat)
    requires i <= |coins|
    ensures Sum(coins[..i]) + Sum(coins[i..]) == Sum(coins)
    ensures i < |coins| ==> Sum(coins[..i + 1]) == Sum(coins[..i]) + coins[i].amount
  {
    assert coins == coins[..i] + coins[i..];
    SumConcat(coins[..i], coins[i..]);
    if i < |coins| {
      SumNext(coins, i);
    }
  }

  lemma SumNext(coins: seq<Coin>, i: nat)
    requires i < |coins|
    ensures Sum(coins[..i + 1]) == Sum(coins[..i]) + coins[i].amount
  {
    assert coins[..i + 1] == coins[..i] + [coins[i]];
    SumConcat(coins[..i], [coins[i]]);
    assert Sum([coins[i]]) == coins[i].amount;
  }

  lemma {:induction false} SumReordering(a: seq<Coin>, b: seq<Coin>)
    requires multiset(a) == multiset(b)
    ensures Sum(a) == Sum(b)
    decreases |a|
  {
    SameItemsLength(a, b);
    if a != [] {
      var k := HeadInReordering(a, b);
      SumReordering(a[1..], Without(b, k));
      SumConcat(b[..k], b[k + 1..]);
      SumConcat(b[..k], [a[0]] + b[k + 1..]);
      assert b == b[..k] + ([a[0]] + b[k + 1..]);
    }
  }

  datatype SelectionOutcome =
    | Selected(coins: seq<Coin>, total: U64, change: U64)
    | NeedsConsolidation
    | InsufficientFunds

  /** Taking no more coins than needed: the selection reaches the target, and dropping its last
      coin would not. */
  ghost predicate Minimal(selected: seq<Coin>, target: U64) {
    && Sum(selected) >= target
    && (selected != [] ==> Sum(selected[..|selected| - 1]) < target)
  }

  /** The shortest prefix that reaches the target. */
  function Shortest(coins: seq<Coin>, target: nat): seq<Coin> {
    if target == 0 || coins == [] then []
    else [coins[0]] + Shortest(coins[1..], if coins[0].amount >= target then 0 else target - coins[0].amount)
  }

  lemma {:induction false} ShortestIsMinimal(coins: seq<Coin>, target: U64)
    requires Sum(coins) >= target
    ensures Shortest(coins, target) <= coins && Minimal(Shortest(coins, target), target)
  {
    if target > 0 {
      var left := if coins[0].amount >= target then 0 else target - coins[0].amount;
      ShortestIsMinimal(coins[1..], left);
      var rest := Shortest(coins[1..], left);
      var taken := [coins[0]] + rest;
      assert taken[1..] == rest;
      if rest != [] {
        assert taken[..|taken| - 1] == [coins[0]] + rest[..|rest| - 1];
        assert taken[..|taken| - 1][1..] == rest[..|rest| - 1];
      } else {
        assert taken[..0] == [];
      }
    }
  }

  /** Only one prefix reaches the target and no sooner. */
  lemma MinimalIsUnique(coins: seq<Coin>, a: seq<Coin>, b: seq<Coin>, target: U64)
    requires a <= coins && b <= coins && Minimal(a, target) && Minimal(b, target)
    ensures a == b
  {
    if |a| < |b| {
      MinimalNoLonger(coins, a, b, target);
    } else if |b| < |a| {
      MinimalNoLonger(coins, b, a, target);
    }
  }

  lemma MinimalNoLonger(coins: seq<Coin>, a: seq<Coin>, b: seq<Coin>, target: U64)
    requires a <= coins && b <= coins && |a| < |b| && Sum(a) >= target
    ensures !Minimal(b, target)
  {
    var shorter := b[..|b| - 1];
    assert shorter[..|a|] == a;
    SumPrefix(shorter, |a|);
  }

  /** Descending amount, ties by ascending coin id. */
  predicate Before(sdk: Sdk, a: Coin, b: Coin) {
    a.amount > b.amount || (a.amount == b.amount && LexLe(sdk.IdOf(a).bytes, sdk.IdOf(b).bytes))
  }

  function HighFirst(sdk: Sdk): (Coin, Coin) -> bool {
    (a: Coin, b: Coin) => Before(sdk, a, b)
  }

  lemma HighFirstOrders(sdk: Sdk)
    ensures Preorder(HighFirst(sdk))
  {
    forall a: Coin, b: Coin ensures Before(sdk, a, b) || Before(sdk, b, a) {
      LexTotal(sdk.IdOf(a).bytes, sdk.IdOf(b).bytes);
    }
    forall a: Coin, b: Coin, c: Coin | Before(sdk, a, b) && Before(sdk, b, c) ensures Before(sdk, a, c) {
      if a.amount == b.amount == c.amount {
        LexTransitive(sdk.IdOf(a).bytes, sdk.IdOf(b).bytes, sdk.IdOf(c).bytes);
      }
    }
  }

  function HighValueFirst(sdk: Sdk, coins: seq<Coin>): seq<Coin> {
    Sorted(coins, HighFirst(sdk))
  }

  function Capped(ordered: seq<Coin>, cap: nat): seq<Coin> {
    if |ordered| <= cap then ordered else ordered[..cap]
  }

  /** Select for a spend. The largest coins are tried first; more than `cap` of them is a call to
      consolidate, not a shortfall. */
  method SelectForSpend(sdk: Sdk, coins: seq<Coin>, target: U64, cap: nat) returns (r: SelectionOutcome)
    requires Sum(coins) <= U64_MAX
    ensures r.InsufficientFunds? <==> Sum(coins) < target
    ensures r.NeedsConsolidation? <==> Sum(coins) >= target && Sum(Capped(HighValueFirst(sdk, coins), cap)) < target
    ensures r.Selected? ==>
              && r.coins == Shortest(Capped(HighValueFirst(sdk, coins), cap), target)
              && Minimal(r.coins, target)
              && r.total == Sum(r.coins) && r.change == Sum(r.coins) - target
  {
    if Sum(coins) < target { return InsufficientFunds; }
    CappedWithin(sdk, coins, cap);
    var usable := Capped(HighValueFirst(sdk, coins), cap);
    if Sum(usable) < target { return NeedsConsolidation; }
    var selected, total := TakeUntil(usable, target);
    return Selected(selected, total, total - target);
  }

  /** Take coins until the target is reached. */
  method TakeUntil(usable: seq<Coin>, target: U64) returns (selected: seq<Coin>, total: U64)
    requires target <= Sum(usable) <= U64_MAX
    ensures selected == Shortest(usable, target) && Minimal(selected, target) && total == Sum(selected)
  {
    selected, total := [], 0;
    var i := 0;
    while i < |usable| && total < target
      invariant 0 <= i <= |usable| && selected == usable[..i] && total == Sum(selected) <= Sum(usable)
      invariant i > 0 ==> Sum(usable[..i - 1]) < target
    {
      SumPrefix(usable, i);
      SumPrefix(usable, i + 1);
      total := total + usable[i].amount;
      selected := selected + [usable[i]];
      i := i + 1;
    }
    assert usable[..|usable|] == usable;
    assert i > 0 ==> selected[..i - 1] == usable[..i - 1];
    ShortestIsMinimal(usable, target);
    MinimalIsUnique(usable, selected, Shortest(usable, target), target);
  }

  /** Select coins to merge: the largest, at least two of them, or none when there are fewer. */
  function SelectForConsolidation(sdk: Sdk, coins: seq<Coin>, cap: nat): Option<seq<Coin>> {
    if |coins| < 2 then None else Some(Capped(HighValueFirst(sdk, coins), if cap < 2 then 2 else cap))
  }

  /** Descending amount; between equal amounts the coin whose id is a prefix of the other's, or smaller where they
      first differ, comes first. */
  predicate Precedes(sdk: Sdk, a: Coin, b: Coin) {
    || a.amount > b.amount
    || (&& a.amount == b.amount
        && (|| sdk.coinId(a).bytes <= sdk.coinId(b).bytes
            || exists k :: 0 <= k < 32 && sdk.coinId(a).bytes[..k] == sdk.coinId(b).bytes[..k] &&
                           sdk.coinId(a).bytes[k] < sdk.coinId(b).bytes[k]))
  }

  /** A combine merges the wallet's coins, as many as the cap allows but two at least, in order, and none left out
      precedes one taken; it fails only for want of two coins. */
  lemma ConsolidationTakes(sdk: Sdk, coins: seq<Coin>, cap: nat)
    ensures SelectForConsolidation(sdk, coins, cap).None? <==> |coins| < 2
    ensures SelectForConsolidation(sdk, coins, cap).Some? ==>
              var taken := SelectForConsolidation(sdk, coins, cap).value;
              var most := if cap < 2 then 2 else cap;
              && |taken| == (if |coins| <= most then |coins| else most)
              && (forall i, j :: 0 <= i < j < |taken| ==> Precedes(sdk, taken[i], taken[j]))
              && exists left :: multiset(taken + left) == multiset(coins) &&
                                forall x, y :: x in taken && y in left ==> Precedes(sdk, x, y)
  {
    if |coins| >= 2 {
      var most := if cap < 2 then 2 else cap;
      var ordered := HighValueFirst(sdk, coins);
      assert multiset(ordered) == multiset(coins) && |ordered| == |coins| by {
        SortKeepsItems(coins, HighFirst(sdk));
        SameItemsLength(coins, ordered);
      }
      forall i, j | 0 <= i < j < |ordered| ensures Precedes(sdk, ordered[i], ordered[j]) {
        InOrder(sdk, coins, i, j);
      }
      var taken := Capped(ordered, most);
      FrontPrecedes(sdk, ordered, |taken|);
      assert taken == ordered[..|taken|];
      assert multiset(taken + ordered[|taken|..]) == multiset(coins);
    }
  }

  lemma FrontPrecedes(sdk: Sdk, ordered: seq<Coin>, n: nat)
    requires n <= |ordered| && forall i, j :: 0 <= i < j < |ordered| ==> Precedes(sdk, ordered[i], ordered[j])
    ensures ordered[..n] + ordered[n..] == ordered
    ensures forall x, y :: x in ordered[..n] && y in ordered[n..] ==> Precedes(sdk, x, y)
  {
  }

  lemma InOrder(sdk: Sdk, coins: seq<Coin>, i: nat, j: nat)
    requires i < j < |HighValueFirst(sdk, coins)|
    ensures Precedes(sdk, HighValueFirst(sdk, coins)[i], HighValueFirst(sdk, coins)[j])
  {
    var a, b := HighValueFirst(sdk, coins)[i], HighValueFirst(sdk, coins)[j];
    HighFirstOrders(sdk);
    SortAscends(coins, HighFirst(sdk));
    AscendingAt(HighValueFirst(sdk, coins), HighFirst(sdk), i, j);
    assert Before(sdk, a, b);
    if a.amount == b.amount {
      LexReads(sdk.coinId(a).bytes, sdk.coinId(b).bytes);
    }
  }

  /** A capped selection never holds more than the wallet does. */
  lemma CappedWithin(sdk: Sdk, coins: seq<Coin>, cap: nat)
    ensures Sum(Capped(HighValueFirst(sdk, coins), cap)) <= Sum(coins)
    ensures forall c :: c in Capped(HighValueFirst(sdk, coins), cap) ==> c in coins
    ensures |Capped(HighValueFirst(sdk, coins), cap)| == if |coins| <= cap then |coins| else cap
  {
    var ordered := HighValueFirst(sdk, coins);
    SortKeepsItems(coins, HighFirst(sdk));
    SumReordering(coins, ordered);
    SameItemsMember(coins, ordered);
    SameItemsLength(coins, ordered);
    SumPrefix(ordered, |Capped(ordered, cap)|);
  }

  /** Only the largest coins are usable: what the cap leaves out is no larger than anything it keeps. */
  lemma {:induction false} CapKeepsTheLargest(sdk: Sdk, coins: seq<Coin>, cap: nat, i: nat, j: nat)
    requires i < cap <= j < |HighValueFirst(sdk, coins)|
    ensures HighValueFirst(sdk, coins)[i].amount >= HighValueFirst(sdk, coins)[j].amount
  {
    HighFirstOrders(sdk);
    SortAscends(coins, HighFirst(sdk));
    AscendingAt(HighValueFirst(sdk, coins), HighFirst(sdk), i, j);
    assert Before(sdk, HighValueFirst(sdk, coins)[i], HighValueFirst(sdk, coins)[j]);
  }
}
