/** The settlement ring: which coins commit value to settlement, which carry the announcement
    that pays for it, and the search that ties the first to the second. */
module Settlement {
  import opened Prelude
  import opened Clvm
  import opened Conditions

  /** The offer-binding facts of one wallet-signed coin. */
  datatype CoinBinding = CoinBinding(
    coinId: Bytes32,
    puzzleHash: Bytes32,
    createsSink: bool,
    carriesAnnouncement: bool,
    requiresCoinIds: seq<Bytes32>,
    requiresPuzzleHashes: seq<Bytes32>)

  function BindingOf(sdk: Sdk, coin: Coin, conditions: seq<Condition>): CoinBinding {
    CoinBinding(
      sdk.IdOf(coin),
      coin.puzzleHash,
      exists c :: c in conditions && c.CreateCoin? && sdk.IsSinkHash(c.puzzleHash),
      exists c :: c in conditions && (c.AssertPuzzleAnnouncement? || c.AssertCoinAnnouncement?),
      ConcurrentCoins(conditions),
      ConcurrentPuzzles(conditions))
  }

  method GatherBinding(sdk: Sdk, coin: Coin, conditions: seq<Condition>) returns (binding: CoinBinding)
    ensures binding == BindingOf(sdk, coin, conditions)
  {
    binding := CoinBinding(sdk.IdOf(coin), coin.puzzleHash, false,
      exists c :: c in conditions && (c.AssertPuzzleAnnouncement? || c.AssertCoinAnnouncement?), [], []);
    for i := 0 to |conditions|
      invariant binding == BindingOf(sdk, coin, conditions[..i]).(carriesAnnouncement := binding.carriesAnnouncement)
      invariant binding.carriesAnnouncement == BindingOf(sdk, coin, conditions).carriesAnnouncement
    {
      ReadingNext(conditions, i);
      assert conditions[..i + 1] == conditions[..i] + [conditions[i]];
      var c := conditions[i];
      if c.AssertConcurrentSpend? {
        binding := binding.(requiresCoinIds := binding.requiresCoinIds + [c.concurrentCoinId]);
      } else if c.AssertConcurrentPuzzle? {
        binding := binding.(requiresPuzzleHashes := binding.requiresPuzzleHashes + [c.concurrentPuzzleHash]);
      }
      if c.CreateCoin? && sdk.IsSinkHash(c.puzzleHash) {
        binding := binding.(createsSink := true);
      }
    }
    assert conditions[..|conditions|] == conditions;
  }

  /** A signature condition creates nothing, binds nothing and asserts nothing. */
  lemma OwnSignatureAddsNothing(sdk: Sdk, coin: Coin, asset: Option<Bytes32>, own: Condition, list: seq<Condition>)
    requires own.AggSigMe?
    ensures Creates([own] + list, asset) == Creates(list, asset)
    ensures BindingOf(sdk, coin, [own] + list) == BindingOf(sdk, coin, list)
    ensures AssertedAnnouncements([own] + list) == AssertedAnnouncements(list)
  {
    assert ([own] + list)[1..] == list;
    forall c | c in list ensures c in [own] + list {
    }
  }

  // ---- the graph ----

  /** A coin-id index keeps the last coin entered under an id. */
  ghost predicate LastWithId(bindings: seq<CoinBinding>, j: nat)
    requires j < |bindings|
  {
    forall k :: j < k < |bindings| ==> bindings[k].coinId != bindings[j].coinId
  }

  /** `i` asserts that `j` is spent alongside it. */
  ghost predicate Edge(bindings: seq<CoinBinding>, i: nat, j: nat)
    requires i < |bindings| && j < |bindings|
  {
    || (bindings[j].coinId in bindings[i].requiresCoinIds && LastWithId(bindings, j))
    || bindings[j].puzzleHash in bindings[i].requiresPuzzleHashes
  }

  ghost predicate Path(bindings: seq<CoinBinding>, p: seq<nat>) {
    && p != []
    && (forall k :: 0 <= k < |p| ==> p[k] < |bindings|)
    && (forall j, k :: 0 <= j < k == j + 1 < |p| ==> Edge(bindings, p[j], p[k]))
  }

  ghost predicate Reaches(bindings: seq<CoinBinding>, i: nat, j: nat) {
    exists p :: Path(bindings, p) && p[0] == i && p[|p| - 1] == j
  }

  /** A path of concurrency assertions leads from `start` to an announcement carrier. */
  ghost predicate Tied(bindings: seq<CoinBinding>, start: nat) {
    exists p :: Path(bindings, p) && p[0] == start && bindings[p[|p| - 1]].carriesAnnouncement
  }

  ghost predicate SettlementBound(bindings: seq<CoinBinding>) {
    forall i: nat :: i < |bindings| && bindings[i].createsSink ==> Tied(bindings, i)
  }

  ghost predicate AllReached(bindings: seq<CoinBinding>, start: nat, stack: seq<nat>) {
    forall k :: 0 <= k < |stack| ==> stack[k] < |bindings| && Reaches(bindings, start, stack[k])
  }

  lemma ReachesStep(bindings: seq<CoinBinding>, start: nat, i: nat, j: nat)
    requires i < |bindings| && j < |bindings| && Reaches(bindings, start, i) && Edge(bindings, i, j)
    ensures Reaches(bindings, start, j)
  {
    var p :| Path(bindings, p) && p[0] == start && p[|p| - 1] == i;
    assert Path(bindings, p + [j]);
  }

  /** Nothing in a set closed under the edges carries an announcement, so nothing in it is tied. */
  lemma ClosedUntied(bindings: seq<CoinBinding>, closed: set<nat>, start: nat)
    requires forall i :: i in closed ==> i < |bindings| && !bindings[i].carriesAnnouncement
    requires forall i: nat, j: nat :: i in closed && j < |bindings| && Edge(bindings, i, j) ==> j in closed
    requires start in closed
    ensures !Tied(bindings, start)
  {
    forall p | Path(bindings, p) && p[0] == start
      ensures !bindings[p[|p| - 1]].carriesAnnouncement
    {
      var k := 0;
      while k < |p| - 1
        invariant 0 <= k < |p| && p[k] in closed
      {
        assert Edge(bindings, p[k], p[k + 1]);
        k := k + 1;
      }
    }
  }

  // ---- the search ----

  /** The last position under each coin id, among the first `upTo` coins. */
  ghost predicate IndexedById(bindings: seq<CoinBinding>, byCoinId: map<Bytes32, nat>, upTo: nat)
    requires upTo <= |bindings|
  {
    && (forall id :: id in byCoinId ==> byCoinId[id] < upTo && bindings[byCoinId[id]].coinId == id)
    && (forall j: nat {:trigger bindings[j].coinId in byCoinId} ::
          j < upTo ==> bindings[j].coinId in byCoinId && j <= byCoinId[bindings[j].coinId])
  }

  ghost predicate BucketOf(bindings: seq<CoinBinding>, bucket: seq<nat>, hash: Bytes32, upTo: nat)
    requires upTo <= |bindings|
  {
    forall k :: 0 <= k < |bucket| ==> bucket[k] < upTo && bindings[bucket[k]].puzzleHash == hash
  }

  /** Every position under each puzzle hash, among the first `upTo` coins. */
  ghost predicate IndexedByHash(bindings: seq<CoinBinding>, byPuzzleHash: map<Bytes32, seq<nat>>, upTo: nat)
    requires upTo <= |bindings|
  {
    && (forall hash :: hash in byPuzzleHash ==> BucketOf(bindings, byPuzzleHash[hash], hash, upTo))
    && (forall j: nat :: j < upTo ==>
          bindings[j].puzzleHash in byPuzzleHash && j in byPuzzleHash[bindings[j].puzzleHash])
  }

  ghost predicate Indexed(bindings: seq<CoinBinding>, byCoinId: map<Bytes32, nat>,
                          byPuzzleHash: map<Bytes32, seq<nat>>)
  {
    IndexedById(bindings, byCoinId, |bindings|) && IndexedByHash(bindings, byPuzzleHash, |bindings|)
  }

  ghost function Below(n: nat): (r: set<nat>)
    ensures forall k: nat :: k in r <==> k < n
  {
    if n == 0 then {} else Below(n - 1) + {n - 1}
  }

  /** Push every coin that `binding`, the coin at `index`, asserts to be spent alongside it. */
  method PushRequired(binding: CoinBinding, ghost index: nat, stack: seq<nat>, ghost bindings: seq<CoinBinding>,
                      byCoinId: map<Bytes32, nat>, byPuzzleHash: map<Bytes32, seq<nat>>) returns (r: seq<nat>)
    requires index < |bindings| && binding == bindings[index]
    requires Indexed(bindings, byCoinId, byPuzzleHash)
    ensures stack <= r
    ensures forall k :: |stack| <= k < |r| ==> r[k] < |bindings| && Edge(bindings, index, r[k])
    ensures forall j: nat :: j < |bindings| && Edge(bindings, index, j) ==> j in r
  {
    r := stack;
    var ids := binding.requiresCoinIds;
    for i := 0 to |ids|
      invariant stack <= r
      invariant forall k :: |stack| <= k < |r| ==> r[k] < |bindings| && Edge(bindings, index, r[k])
      invariant forall m :: 0 <= m < i && ids[m] in byCoinId ==> byCoinId[ids[m]] in r
    {
      if ids[i] in byCoinId {
        r := r + [byCoinId[ids[i]]];
      }
    }
    var hashes := binding.requiresPuzzleHashes;
    ghost var middle := r;
    for i := 0 to |hashes|
      invariant stack <= middle <= r
      invariant forall k :: |stack| <= k < |r| ==> r[k] < |bindings| && Edge(bindings, index, r[k])
      invariant forall m, j: nat :: 0 <= m < i && hashes[m] in byPuzzleHash && j in byPuzzleHash[hashes[m]] ==> j in r
    {
      if hashes[i] in byPuzzleHash {
        assert BucketOf(bindings, byPuzzleHash[hashes[i]], hashes[i], |bindings|);
        r := r + byPuzzleHash[hashes[i]];
      }
    }
    forall j: nat | j < |bindings| && Edge(bindings, index, j) ensures j in r {
      if bindings[j].coinId in ids && LastWithId(bindings, j) {
        assert bindings[j].coinId in byCoinId && byCoinId[bindings[j].coinId] == j;
        assert j in middle;
      } else {
        assert bindings[j].puzzleHash in byPuzzleHash;
      }
    }
  }

  /** Depth-first over concurrency assertions. It terminates because each round either marks a
      new coin or shortens the stack, and it answers exactly whether a path exists. */
  method TiedToAnnouncement(start: nat, bindings: seq<CoinBinding>, byCoinId: map<Bytes32, nat>,
                            byPuzzleHash: map<Bytes32, seq<nat>>) returns (tied: bool)
    requires start < |bindings|
    requires Indexed(bindings, byCoinId, byPuzzleHash)
    ensures tied <==> Tied(bindings, start)
  {
    var visited := new bool[|bindings|](_ => false);
    var stack: seq<nat> := [start];
    ghost var seen: set<nat>, unseen: set<nat> := {}, Below(|bindings|);
    assert Path(bindings, [start]);
    while stack != []
      invariant visited.Length == |bindings|
      invariant forall k: nat :: k < |bindings| ==> (visited[k] <==> k in seen)
      invariant forall k: nat :: k < |bindings| ==> (k in unseen <==> k !in seen)
      invariant AllReached(bindings, start, stack)
      invariant Explored(bindings, seen, stack)
      invariant start in seen || start in stack
      decreases unseen, |stack|
    {
      var index := stack[|stack| - 1];
      ghost var popped := stack;
      stack := stack[..|stack| - 1];
      var already := visited[index];
      visited[index] := true;
      if already {
        ExploredPop(bindings, seen, popped);
        continue;
      }
      if bindings[index].carriesAnnouncement {
        return true;
      }
      ghost var rest := stack;
      stack := PushRequired(bindings[index], index, stack, bindings, byCoinId, byPuzzleHash);
      ExploredPush(bindings, start, seen, popped, stack);
      seen, unseen := seen + {index}, unseen - {index};
    }
    ClosedUntied(bindings, seen, start);
    return false;
  }

  /** Nothing seen announces, and whatever a seen coin requires is seen or still to be visited. */
  ghost predicate Explored(bindings: seq<CoinBinding>, seen: set<nat>, stack: seq<nat>) {
    && (forall k: nat :: k in seen ==> k < |bindings| && !bindings[k].carriesAnnouncement)
    && (forall i: nat, j: nat :: i in seen && j < |bindings| && Edge(bindings, i, j) ==> j in seen || j in stack)
  }

  lemma ExploredPop(bindings: seq<CoinBinding>, seen: set<nat>, stack: seq<nat>)
    requires stack != [] && stack[|stack| - 1] in seen && Explored(bindings, seen, stack)
    ensures Explored(bindings, seen, stack[..|stack| - 1])
    ensures forall k: nat :: k in stack ==> k in seen || k in stack[..|stack| - 1]
  {
    assert stack == stack[..|stack| - 1] + [stack[|stack| - 1]];
  }

  lemma ExploredPush(bindings: seq<CoinBinding>, start: nat, seen: set<nat>, popped: seq<nat>, stack: seq<nat>)
    requires popped != [] && AllReached(bindings, start, popped) && Explored(bindings, seen, popped)
    requires var index := popped[|popped| - 1];
             && index < |bindings| && !bindings[index].carriesAnnouncement
             && popped[..|popped| - 1] <= stack
             && (forall k :: |popped| - 1 <= k < |stack| ==> stack[k] < |bindings| && Edge(bindings, index, stack[k]))
             && (forall j: nat :: j < |bindings| && Edge(bindings, index, j) ==> j in stack)
    ensures Explored(bindings, seen + {popped[|popped| - 1]}, stack)
    ensures AllReached(bindings, start, stack)
    ensures forall k: nat :: k in popped ==> k == popped[|popped| - 1] || k in stack
  {
    var index, rest := popped[|popped| - 1], popped[..|popped| - 1];
    assert popped == rest + [index];
    forall k: nat | k in rest ensures k in stack {
      var m :| 0 <= m < |rest| && rest[m] == k;
      assert stack[m] == k;
    }
    forall k | 0 <= k < |stack| ensures stack[k] < |bindings| && Reaches(bindings, start, stack[k]) {
      if k < |rest| {
        assert stack[k] == rest[k] == popped[k];
      } else {
        ReachesStep(bindings, start, index, stack[k]);
      }
    }
  }

  lemma IdIndexOneMore(bindings: seq<CoinBinding>, byCoinId: map<Bytes32, nat>, i: nat)
    requires i < |bindings| && IndexedById(bindings, byCoinId, i)
    ensures IndexedById(bindings, byCoinId[bindings[i].coinId := i], i + 1)
  {
  }

  lemma IndexOneMore(bindings: seq<CoinBinding>, byPuzzleHash: map<Bytes32, seq<nat>>, bucket: seq<nat>, i: nat)
    requires i < |bindings| && IndexedByHash(bindings, byPuzzleHash, i)
    requires bucket == if bindings[i].puzzleHash in byPuzzleHash then byPuzzleHash[bindings[i].puzzleHash] else []
    ensures IndexedByHash(bindings, byPuzzleHash[bindings[i].puzzleHash := bucket + [i]], i + 1)
  {
    var hash := bindings[i].puzzleHash;
    var after := byPuzzleHash[hash := bucket + [i]];
    forall h | h in after ensures BucketOf(bindings, after[h], h, i + 1) {
      assert h in byPuzzleHash ==> BucketOf(bindings, byPuzzleHash[h], h, i);
    }
    forall j: nat | j < i + 1 ensures bindings[j].puzzleHash in after && j in after[bindings[j].puzzleHash] {
      if j == i {
        assert (bucket + [i])[|bucket|] == i;
      } else if bindings[j].puzzleHash == hash {
        assert j in bucket;
      }
    }
  }

  /** Where each concurrency assertion leads: the coins by id, and by puzzle hash. */
  method IndexBindings(bindings: seq<CoinBinding>)
    returns (byCoinId: map<Bytes32, nat>, byPuzzleHash: map<Bytes32, seq<nat>>)
    ensures Indexed(bindings, byCoinId, byPuzzleHash)
  {
    byCoinId, byPuzzleHash := map[], map[];
    for i := 0 to |bindings|
      invariant IndexedById(bindings, byCoinId, i)
      invariant IndexedByHash(bindings, byPuzzleHash, i)
    {
      var hash := bindings[i].puzzleHash;
      var bucket := if hash in byPuzzleHash then byPuzzleHash[hash] else [];
      IndexOneMore(bindings, byPuzzleHash, bucket, i);
      IdIndexOneMore(bindings, byCoinId, i);
      byCoinId, byPuzzleHash := byCoinId[bindings[i].coinId := i], byPuzzleHash[hash := bucket + [i]];
    }
  }

  /** The bundle is accepted exactly when every coin that creates a sink is tied. */
  method EnforceBundleSettlementBinding(bindings: seq<CoinBinding>) returns (ok: bool)
    ensures ok <==> SettlementBound(bindings)
  {
    var byCoinId, byPuzzleHash := IndexBindings(bindings);
    for i := 0 to |bindings|
      invariant BoundBefore(bindings, i)
    {
      if bindings[i].createsSink {
        var tied := TiedToAnnouncement(i, bindings, byCoinId, byPuzzleHash);
        if !tied {
          UntiedSink(bindings, i);
          return false;
        }
      }
      BoundOneMore(bindings, i);
    }
    return true;
  }

  ghost predicate BoundBefore(bindings: seq<CoinBinding>, upTo: nat)
    requires upTo <= |bindings|
    ensures upTo == |bindings| ==> (BoundBefore(bindings, upTo) <==> SettlementBound(bindings))
  {
    forall i: nat :: i < upTo && bindings[i].createsSink ==> Tied(bindings, i)
  }

  lemma BoundOneMore(bindings: seq<CoinBinding>, i: nat)
    requires i < |bindings| && BoundBefore(bindings, i) && (bindings[i].createsSink ==> Tied(bindings, i))
    ensures BoundBefore(bindings, i + 1)
  {
  }

  lemma UntiedSink(bindings: seq<CoinBinding>, i: nat)
    requires i < |bindings| && bindings[i].createsSink && !Tied(bindings, i)
    ensures !SettlementBound(bindings)
  {
  }

  ghost predicate DistinctCoins(bindings: seq<CoinBinding>) {
    forall i, j :: 0 <= i < j < |bindings| ==> bindings[i].coinId != bindings[j].coinId
  }

  // ---- larger and reordered bundles ----

  lemma EdgeCarriesOver(a: seq<CoinBinding>, b: seq<CoinBinding>, i: nat, j: nat, i': nat, j': nat)
    requires i < |a| && j < |a| && Edge(a, i, j)
    requires i' < |b| && j' < |b| && DistinctCoins(b) && b[i'] == a[i] && b[j'] == a[j]
    ensures Edge(b, i', j')
  {
  }

  /** A tie survives in any bundle of distinct coins that holds all of this one's coins,
      in whatever order: a reordering, or a larger bundle. */
  lemma TieCarriesOver(a: seq<CoinBinding>, b: seq<CoinBinding>, i: nat, j: nat)
    requires DistinctCoins(b) && forall x :: x in a ==> x in b
    requires i < |a| && j < |b| && a[i] == b[j] && Tied(a, i)
    ensures Tied(b, j)
  {
    var p :| Path(a, p) && p[0] == i && a[p[|p| - 1]].carriesAnnouncement;
    var q := PathCarriesOver(a, b, p, j);
    assert b[q[|q| - 1]].carriesAnnouncement;
  }

  lemma {:induction false} PathCarriesOver(a: seq<CoinBinding>, b: seq<CoinBinding>, p: seq<nat>, j: nat)
    returns (q: seq<nat>)
    requires DistinctCoins(b) && forall x :: x in a ==> x in b
    requires Path(a, p) && j < |b| && a[p[0]] == b[j]
    ensures Path(b, q) && q[0] == j && b[q[|q| - 1]] == a[p[|p| - 1]]
    decreases |p|
  {
    if |p| == 1 {
      q := [j];
    } else {
      var n := |p| - 1;
      PathPrefix(a, p);
      q := PathCarriesOver(a, b, p[..n], j);
      assert a[p[n]] in b;
      var next: nat :| next < |b| && b[next] == a[p[n]];
      assert Edge(a, p[n - 1], p[n]);
      EdgeCarriesOver(a, b, p[n - 1], p[n], q[|q| - 1], next);
      q := q + [next];
    }
  }

  lemma PathPrefix(a: seq<CoinBinding>, p: seq<nat>)
    requires Path(a, p) && |p| > 1
    ensures Path(a, p[..|p| - 1])
  {
  }

  lemma SettlementBoundCarriesOver(a: seq<CoinBinding>, b: seq<CoinBinding>)
    requires DistinctCoins(b) && multiset(a) == multiset(b) && SettlementBound(a)
    ensures SettlementBound(b)
  {
    SameItemsMember(a, b);
    forall j: nat | j < |b| && b[j].createsSink ensures Tied(b, j) {
      assert b[j] in a;
      var i: nat :| i < |a| && a[i] == b[j];
      TieCarriesOver(a, b, i, j);
    }
  }

  lemma SettlementBoundTogether(a: seq<CoinBinding>, b: seq<CoinBinding>)
    requires DistinctCoins(a + b) && SettlementBound(a) && SettlementBound(b)
    ensures SettlementBound(a + b)
  {
    forall j: nat | j < |a + b| && (a + b)[j].createsSink ensures Tied(a + b, j) {
      if j < |a| {
        TieInFront(a, b, j);
      } else {
        TieBehind(a, b, j - |a|);
      }
    }
  }

  lemma TieInFront(a: seq<CoinBinding>, b: seq<CoinBinding>, j: nat)
    requires DistinctCoins(a + b) && j < |a| && Tied(a, j)
    ensures Tied(a + b, j)
  {
    TieCarriesOver(a, a + b, j, j);
  }

  lemma TieBehind(a: seq<CoinBinding>, b: seq<CoinBinding>, j: nat)
    requires DistinctCoins(a + b) && j < |b| && Tied(b, j)
    ensures Tied(a + b, |a| + j)
  {
    BackInside(a, b, a + b);
    TieCarriesOver(b, a + b, j, |a| + j);
  }

  lemma BackInside(a: seq<CoinBinding>, b: seq<CoinBinding>, whole: seq<CoinBinding>)
    requires whole == a + b
    ensures forall x :: x in b ==> x in whole
    ensures forall k: nat :: k < |b| ==> b[k] == whole[|a| + k]
  {
  }

  /** Distinct coin ids are needed: when two coins share an id, which of them a concurrency
      assertion leads to, and so whether the bundle is accepted, depends on their order. */
  lemma RepeatedCoinIdMakesOrderMatter(sinkId: Bytes32, twice: Bytes32, hash: Bytes32)
    requires sinkId != twice
    ensures var sink := CoinBinding(sinkId, hash, true, false, [twice], []);
            var loud := CoinBinding(twice, hash, false, true, [], []);
            var quiet := loud.(carriesAnnouncement := false);
            SettlementBound([sink, quiet, loud]) && !SettlementBound([sink, loud, quiet])
  {
    var sink := CoinBinding(sinkId, hash, true, false, [twice], []);
    var loud, quiet := CoinBinding(twice, hash, false, true, [], []), CoinBinding(twice, hash, false, false, [], []);
    var good, bad := [sink, quiet, loud], [sink, loud, quiet];
    assert Path(good, [0, 2]) by { assert Edge(good, 0, 2); }
    assert Tied(good, 0) by { assert [0, 2][|[0, 2]| - 1] == 2; }
    assert !LastWithId(bad, 1) by { assert bad[2].coinId == bad[1].coinId; }
    ClosedUntied(bad, {0, 2}, 0);
    assert bad[0].createsSink;
  }
}
