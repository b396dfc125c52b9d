/** The two-way hint index: which coins a hint announced, and which hints announced a coin. */
module Hints {
  type Hint = string
  type CoinId = string

  function HintsOf(byCoin: map<CoinId, set<Hint>>, coin: CoinId): set<Hint> {
    if coin in byCoin then byCoin[coin] else {}
  }

  function Bucket(byHint: map<Hint, set<CoinId>>, hint: Hint): set<CoinId> {
    if hint in byHint then byHint[hint] else {}
  }

  /** A coin sits in a hint's bucket exactly when the hint is in the coin's set; no bucket is empty. */
  ghost predicate Mirrors(byHint: map<Hint, set<CoinId>>, byCoin: map<CoinId, set<Hint>>) {
    && (forall h, c :: c in Bucket(byHint, h) <==> h in HintsOf(byCoin, c))
    && (forall h :: h in byHint ==> byHint[h] != {})
  }

  lemma Announced(byHint: map<Hint, set<CoinId>>, byCoin: map<CoinId, set<Hint>>, hint: Hint)
    requires Mirrors(byHint, byCoin)
    ensures Bucket(byHint, hint) == set c | c in byCoin && hint in byCoin[c]
  {
    forall c ensures c in Bucket(byHint, hint) <==> c in byCoin && hint in byCoin[c] {
      assert c in Bucket(byHint, hint) <==> hint in HintsOf(byCoin, c);
    }
  }

  lemma NothingYet(byHint: map<Hint, set<CoinId>>, byCoin: map<CoinId, set<Hint>>, coin: CoinId)
    requires Mirrors(byHint, byCoin)
    ensures Mirrors(byHint, byCoin[coin := HintsOf(byCoin, coin)])
  {
    var after := byCoin[coin := HintsOf(byCoin, coin)];
    forall c ensures HintsOf(after, c) == HintsOf(byCoin, c) {
    }
  }

  lemma OneMore(byHint: map<Hint, set<CoinId>>, byCoin: map<CoinId, set<Hint>>, coin: CoinId, hint: Hint)
    requires Mirrors(byHint, byCoin) && coin in byCoin
    ensures Mirrors(byHint[hint := Bucket(byHint, hint) + {coin}], byCoin[coin := byCoin[coin] + {hint}])
  {
    var buckets, coins := byHint[hint := Bucket(byHint, hint) + {coin}], byCoin[coin := byCoin[coin] + {hint}];
    forall h, c ensures c in Bucket(buckets, h) <==> h in HintsOf(coins, c) {
      assert c in Bucket(byHint, h) <==> h in HintsOf(byCoin, c);
    }
    assert coin in buckets[hint];
  }

  function Withdrawn(byHint: map<Hint, set<CoinId>>, hint: Hint, coin: CoinId): map<Hint, set<CoinId>> {
    var left := Bucket(byHint, hint) - {coin};
    if left == {} then byHint - {hint} else byHint[hint := left]
  }

  lemma OneFewer(byHint: map<Hint, set<CoinId>>, byCoin: map<CoinId, set<Hint>>, coin: CoinId, hint: Hint)
    requires Mirrors(byHint, byCoin) && coin in byCoin
    ensures Mirrors(Withdrawn(byHint, hint, coin), byCoin[coin := byCoin[coin] - {hint}])
  {
    var buckets, coins := Withdrawn(byHint, hint, coin), byCoin[coin := byCoin[coin] - {hint}];
    forall h, c ensures c in Bucket(buckets, h) <==> h in HintsOf(coins, c) {
      assert c in Bucket(byHint, h) <==> h in HintsOf(byCoin, c);
      assert Bucket(buckets, h) == if h == hint then Bucket(byHint, h) - {coin} else Bucket(byHint, h);
    }
  }

  lemma NothingLeft(byHint: map<Hint, set<CoinId>>, byCoin: map<CoinId, set<Hint>>, coin: CoinId)
    requires Mirrors(byHint, byCoin[coin := {}])
    ensures Mirrors(byHint, byCoin - {coin})
  {
    var after := byCoin - {coin};
    forall c ensures HintsOf(after, c) == HintsOf(byCoin[coin := {}], c) {
    }
  }

  function AsSet(hints: seq<Hint>): set<Hint> {
    set h | h in hints
  }

  class HintIndex {
    var byHint: map<Hint, set<CoinId>>
    var byCoin: map<CoinId, set<Hint>>

    ghost predicate Valid()
      reads this
    {
      Mirrors(byHint, byCoin)
    }

    constructor ()
      ensures Valid() && byHint == map[] && byCoin == map[]
    {
      byHint, byCoin := map[], map[];
    }

    /** Announce a coin under hints; what it was announced under before is kept. */
    method Index(coin: CoinId, hints: seq<Hint>)
      requires Valid()
      modifies this
      ensures Valid()
      ensures byCoin == old(byCoin)[coin := HintsOf(old(byCoin), coin) + AsSet(hints)]
    {
      NothingYet(byHint, byCoin, coin);
      byCoin := byCoin[coin := HintsOf(byCoin, coin)];
      assert byCoin[coin] == HintsOf(old(byCoin), coin) + AsSet(hints[..0]);
      for i := 0 to |hints|
        invariant Valid()
        invariant byCoin == old(byCoin)[coin := HintsOf(old(byCoin), coin) + AsSet(hints[..i])]
      {
        var hint := hints[i];
        assert hints[..i + 1] == hints[..i] + [hint];
        assert byCoin[coin] + {hint} == HintsOf(old(byCoin), coin) + AsSet(hints[..i + 1]);
        OneMore(byHint, byCoin, coin, hint);
        byCoin := byCoin[coin := byCoin[coin] + {hint}];
        byHint := byHint[hint := Bucket(byHint, hint) + {coin}];
      }
      assert hints[..|hints|] == hints;
    }

    /** Withdraw a coin; a bucket it empties is dropped. */
    method Forget(coin: CoinId)
      requires Valid()
      modifies this
      ensures Valid()
      ensures byCoin == old(byCoin) - {coin}
    {
      if coin !in byCoin {
        return;
      }
      var remaining := byCoin[coin];
      assert byCoin == byCoin[coin := remaining];
      byCoin := byCoin - {coin};
      while remaining != {}
        invariant byCoin == old(byCoin) - {coin}
        invariant Mirrors(byHint, old(byCoin)[coin := remaining])
      {
        var hint :| hint in remaining;
        ghost var before, coins := byHint, old(byCoin)[coin := remaining];
        OneFewer(before, coins, coin, hint);
        assert coins[coin := coins[coin] - {hint}] == old(byCoin)[coin := remaining - {hint}];
        if hint in byHint {
          byHint := byHint[hint := byHint[hint] - {coin}];
          if byHint[hint] == {} {
            byHint := byHint - {hint};
          }
        }
        remaining := remaining - {hint};
        assert byHint == Withdrawn(before, hint, coin);
      }
      NothingLeft(byHint, old(byCoin), coin);
    }

    method CoinsByHint(hint: Hint) returns (r: set<CoinId>)
      requires Valid()
      ensures r == set c | c in byCoin && hint in byCoin[c]
    {
      Announced(byHint, byCoin, hint);
      r := Bucket(byHint, hint);
    }

    /** Coins announced under every hint; no hints ask for no coins. */
    method CoinsByAllHints(hints: seq<Hint>) returns (r: set<CoinId>)
      requires Valid()
      ensures r == if hints == [] then {} else set c | c in byCoin && forall h :: h in hints ==> h in byCoin[c]
    {
      if hints == [] { return {}; }
      Announced(byHint, byCoin, hints[0]);
      if hints[0] !in byHint { return {}; }
      r := byHint[hints[0]];
      for i := 1 to |hints|
        invariant forall c :: c in r <==> c in byCoin && forall k :: 0 <= k < i ==> hints[k] in byCoin[c]
      {
        Announced(byHint, byCoin, hints[i]);
        if hints[i] !in byHint { return {}; }
        r := set c | c in r && c in byHint[hints[i]];
      }
    }

    /** Coins announced under at least one of the hints. */
    method CoinsByAnyHint(hints: seq<Hint>) returns (r: set<CoinId>)
      requires Valid()
      ensures r == set c | c in byCoin && exists h :: h in hints && h in byCoin[c]
    {
      r := {};
      for i := 0 to |hints|
        invariant forall c :: c in r <==> c in byCoin && exists k :: 0 <= k < i && hints[k] in byCoin[c]
      {
        Announced(byHint, byCoin, hints[i]);
        if hints[i] in byHint {
          r := r + byHint[hints[i]];
        }
      }
    }

    method HintsFor(coin: CoinId) returns (r: set<Hint>)
      requires Valid()
      ensures r == set h | h in byHint && coin in byHint[h]
    {
      forall h ensures h in HintsOf(byCoin, coin) <==> h in byHint && coin in byHint[h] {
        assert coin in Bucket(byHint, h) <==> h in HintsOf(byCoin, coin);
      }
      r := HintsOf(byCoin, coin);
    }
  }

  /** The coins' hint sets fix the buckets. */
  lemma BucketsAreDetermined(a: map<Hint, set<CoinId>>, b: map<Hint, set<CoinId>>, byCoin: map<CoinId, set<Hint>>)
    requires Mirrors(a, byCoin) && Mirrors(b, byCoin)
    ensures a == b
  {
    forall h ensures Bucket(a, h) == Bucket(b, h) && (h in a <==> h in b) {
      forall c ensures c in Bucket(a, h) <==> c in Bucket(b, h) {
        assert c in Bucket(a, h) <==> h in HintsOf(byCoin, c);
      }
    }
    forall h | h in a ensures a[h] == b[h] {
      assert Bucket(a, h) == Bucket(b, h);
    }
  }

  /**
   * Indexing a coin that was not there and then forgetting it restores both maps exactly, whatever
   * other coins share its hints.
   */
  method IndexThenForget(index: HintIndex, coin: CoinId, hints: seq<Hint>)
    requires index.Valid() && coin !in index.byCoin
    modifies index
    ensures index.byCoin == old(index.byCoin) && index.byHint == old(index.byHint)
  {
    index.Index(coin, hints);
    index.Forget(coin);
    assert index.byCoin == old(index.byCoin);
    BucketsAreDetermined(index.byHint, old(index.byHint), index.byCoin);
  }
}
