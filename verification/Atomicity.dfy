/** What the settlement ring is worth: exactly which coins cannot reach the chain without an
    announcement, and when the verifier's search finds just those. */
module Atomicity {
  import opened Prelude
  import opened Settlement

  // ---- parts that can be spent on their own ----

  ghost predicate HoldsCoin(bindings: seq<CoinBinding>, part: set<nat>, id: Bytes32) {
    exists k: nat :: k in part && k < |bindings| && bindings[k].coinId == id
  }

  ghost predicate HoldsHash(bindings: seq<CoinBinding>, part: set<nat>, hash: Bytes32) {
    exists k: nat :: k in part && k < |bindings| && bindings[k].puzzleHash == hash
  }

  ghost predicate HoldsCarrier(bindings: seq<CoinBinding>, part: set<nat>) {
    exists k: nat :: k in part && k < |bindings| && bindings[k].carriesAnnouncement
  }

  /** A part of the bundle that can reach the chain on its own: whatever one of its members
      asserts to be spent alongside it, if the bundle holds it, is there too. A puzzle-hash
      assertion is met by any one coin with that hash. */
  ghost predicate ClosedPart(bindings: seq<CoinBinding>, part: set<nat>) {
    && (forall i: nat :: i in part ==> i < |bindings|)
    && (forall i: nat, id ::
          (i in part && id in bindings[i].requiresCoinIds && HoldsCoin(bindings, Below(|bindings|), id)) ==>
            HoldsCoin(bindings, part, id))
    && (forall i: nat, hash ::
          (i in part && hash in bindings[i].requiresPuzzleHashes && HoldsHash(bindings, Below(|bindings|), hash)) ==>
            HoldsHash(bindings, part, hash))
  }

  /** Coin `i` reaches the chain only beside an announcement. */
  ghost predicate NeedsCarrier(bindings: seq<CoinBinding>, i: nat) {
    forall part: set<nat> :: ClosedPart(bindings, part) && i in part ==> HoldsCarrier(bindings, part)
  }

  // ---- the coins forced to an announcement ----

  /** Coin `i` announces, or asserts a coin already known to be forced, or asserts a puzzle hash all of
      whose holders are. The verifier's search follows any holder of a hash; this takes them all. */
  ghost predicate ForcedBy(bindings: seq<CoinBinding>, i: nat, known: set<nat>)
    requires i < |bindings|
  {
    || bindings[i].carriesAnnouncement
    || (exists id :: id in bindings[i].requiresCoinIds && HoldsCoin(bindings, known, id))
    || (exists hash :: hash in bindings[i].requiresPuzzleHashes && AllHolders(bindings, hash, known))
  }

  ghost predicate AllHolders(bindings: seq<CoinBinding>, hash: Bytes32, known: set<nat>) {
    && HoldsHash(bindings, Below(|bindings|), hash)
    && forall j: nat :: j < |bindings| && bindings[j].puzzleHash == hash ==> j in known
  }

  ghost function Round(bindings: seq<CoinBinding>): set<nat> -> set<nat> {
    known => set i | i in Below(|bindings|) && ForcedBy(bindings, i, known)
  }

  /** The coins known to be forced after one round for each coin: by then a round finds nothing more. */
  ghost function Forced(bindings: seq<CoinBinding>): set<nat> {
    Rounds(Round(bindings), |bindings|)
  }

  ghost function Rounds(step: set<nat> -> set<nat>, rounds: nat): set<nat> {
    if rounds == 0 then {} else step(Rounds(step, rounds - 1))
  }

  ghost predicate Monotone(step: set<nat> -> set<nat>) {
    forall a, b :: a <= b ==> step(a) <= step(b)
  }

  lemma {:induction false} RoundsGrow(step: set<nat> -> set<nat>, rounds: nat)
    requires Monotone(step)
    ensures Rounds(step, rounds) <= Rounds(step, rounds + 1)
  {
    if rounds > 0 {
      RoundsGrow(step, rounds - 1);
    }
  }

  /** Every round finds another coin, until one does not. */
  lemma {:induction false} RoundsGrowOrStop(step: set<nat> -> set<nat>, rounds: nat)
    requires Monotone(step)
    ensures Rounds(step, rounds + 1) == Rounds(step, rounds) || |Rounds(step, rounds + 1)| > rounds
  {
    RoundsGrow(step, rounds);
    if rounds > 0 {
      RoundsGrowOrStop(step, rounds - 1);
    }
    if Rounds(step, rounds + 1) != Rounds(step, rounds) {
      StrictlySmaller(Rounds(step, rounds), Rounds(step, rounds + 1));
    }
  }

  /** Whatever a round does not leave holds all that the rounds find. */
  lemma {:induction false} RoundsStayIn(step: set<nat> -> set<nat>, rounds: nat, closed: set<nat>)
    requires Monotone(step) && step(closed) <= closed
    ensures Rounds(step, rounds) <= closed
  {
    if rounds > 0 {
      RoundsStayIn(step, rounds - 1, closed);
    }
  }

  lemma StrictlySmaller(a: set<nat>, b: set<nat>)
    requires a <= b && a != b
    ensures |a| < |b|
  {
    var x :| x in b && x !in a;
    assert b == a + (b - a) && a !! b - a && x in b - a;
  }

  lemma {:induction false} BelowSize(n: nat)
    ensures |Below(n)| == n
  {
    if n > 0 {
      BelowSize(n - 1);
    }
  }

  lemma NoMoreThanBelow(found: set<nat>, n: nat)
    requires found <= Below(n)
    ensures |found| <= n
  {
    BelowSize(n);
    if found != Below(n) {
      StrictlySmaller(found, Below(n));
    }
  }

  lemma RoundIsMonotone(bindings: seq<CoinBinding>)
    ensures Monotone(Round(bindings))
  {
    forall a, b | a <= b ensures Round(bindings)(a) <= Round(bindings)(b) {
      forall i | i in Round(bindings)(a) ensures i in Round(bindings)(b) {
        ForcedByMore(bindings, i, a, b);
      }
    }
  }

  lemma ForcedByMore(bindings: seq<CoinBinding>, i: nat, known: set<nat>, more: set<nat>)
    requires i < |bindings| && known <= more && ForcedBy(bindings, i, known)
    ensures ForcedBy(bindings, i, more)
  {
    if id :| id in bindings[i].requiresCoinIds && HoldsCoin(bindings, known, id) {
      var k: nat :| k in known && k < |bindings| && bindings[k].coinId == id;
      assert HoldsCoin(bindings, more, id);
    } else if hash :| hash in bindings[i].requiresPuzzleHashes && AllHolders(bindings, hash, known) {
      assert AllHolders(bindings, hash, more);
    }
  }

  /** A coin is forced exactly when the forced coins force it. */
  lemma ForcedIsFixed(bindings: seq<CoinBinding>, i: nat)
    requires i < |bindings|
    ensures i in Forced(bindings) <==> ForcedBy(bindings, i, Forced(bindings))
  {
    var step, n := Round(bindings), |bindings|;
    assert step(Forced(bindings)) == Forced(bindings) by {
      RoundIsMonotone(bindings);
      RoundsGrowOrStop(step, n);
      NoMoreThanBelow(Rounds(step, n + 1), n);
    }
    assert i in step(Forced(bindings)) <==> ForcedBy(bindings, i, Forced(bindings));
  }

  /** The least such set: whatever holds every coin that it forces holds the forced coins. */
  lemma ForcedIsLeast(bindings: seq<CoinBinding>, closed: set<nat>)
    requires forall i: nat :: i < |bindings| && ForcedBy(bindings, i, closed) ==> i in closed
    ensures Forced(bindings) <= closed
  {
    RoundIsMonotone(bindings);
    RoundsStayIn(Round(bindings), |bindings|, closed);
  }

  // ---- forced is what atomicity asks ----

  /** The coin of an asserted id is the same one wherever it is held. */
  lemma HeldCoin(bindings: seq<CoinBinding>, part: set<nat>, known: set<nat>, i: nat, id: Bytes32) returns (j: nat)
    requires DistinctCoins(bindings) && ClosedPart(bindings, part) && i in part
    requires id in bindings[i].requiresCoinIds && HoldsCoin(bindings, known, id)
    ensures j in part && j in known
  {
    j :| j in known && j < |bindings| && bindings[j].coinId == id;
    assert j in Below(|bindings|) && HoldsCoin(bindings, Below(|bindings|), id);
    var k: nat :| k in part && k < |bindings| && bindings[k].coinId == id;
    assert !(j < k) && !(k < j);
  }

  /** A closed part that holds a coin without an announcement holds one of those that force it. */
  lemma ForcedWithin(bindings: seq<CoinBinding>, part: set<nat>, known: set<nat>, i: nat) returns (j: nat)
    requires DistinctCoins(bindings) && ClosedPart(bindings, part) && i in part
    requires ForcedBy(bindings, i, known) && !bindings[i].carriesAnnouncement
    ensures j in part && j in known
  {
    if id :| id in bindings[i].requiresCoinIds && HoldsCoin(bindings, known, id) {
      j := HeldCoin(bindings, part, known, i, id);
    } else {
      var hash :| hash in bindings[i].requiresPuzzleHashes && AllHolders(bindings, hash, known);
      assert HoldsHash(bindings, part, hash);
      j :| j in part && j < |bindings| && bindings[j].puzzleHash == hash;
    }
  }

  /** Forced coins drag a carrier along: whatever part they can be spent in holds one. */
  lemma ForcedNeedsCarrier(bindings: seq<CoinBinding>, part: set<nat>)
    requires DistinctCoins(bindings) && ClosedPart(bindings, part) && !HoldsCarrier(bindings, part)
    ensures Forced(bindings) !! part
  {
    var rest := Below(|bindings|) - part;
    forall i: nat | i < |bindings| && ForcedBy(bindings, i, rest) ensures i in rest {
      if i in part {
        var j := ForcedWithin(bindings, part, rest, i);
        assert false;
      }
    }
    ForcedIsLeast(bindings, rest);
  }

  ghost function Unforced(bindings: seq<CoinBinding>): set<nat> {
    Below(|bindings|) - Forced(bindings)
  }

  /** The coins that are not forced can be spent together, and none of them announces. */
  lemma UnforcedStandAlone(bindings: seq<CoinBinding>)
    ensures ClosedPart(bindings, Unforced(bindings)) && !HoldsCarrier(bindings, Unforced(bindings))
  {
    var part, forced := Unforced(bindings), Forced(bindings);
    forall i: nat | i in part ensures !ForcedBy(bindings, i, forced) {
      ForcedIsFixed(bindings, i);
    }
    forall i: nat, id | i in part && id in bindings[i].requiresCoinIds && HoldsCoin(bindings, Below(|bindings|), id)
      ensures HoldsCoin(bindings, part, id)
    {
      var k: nat :| k in Below(|bindings|) && k < |bindings| && bindings[k].coinId == id;
      assert !HoldsCoin(bindings, forced, id);
      assert k in part;
    }
    forall i: nat, hash |
      i in part && hash in bindings[i].requiresPuzzleHashes && HoldsHash(bindings, Below(|bindings|), hash)
      ensures HoldsHash(bindings, part, hash)
    {
      assert !AllHolders(bindings, hash, forced);
      var j: nat :| j < |bindings| && bindings[j].puzzleHash == hash && j !in forced;
      assert j in part;
    }
  }

  /** The exact condition: with distinct coins, a coin reaches the chain only beside an announcement if
      and only if it is forced. */
  lemma AtomicExactlyWhenForced(bindings: seq<CoinBinding>, i: nat)
    requires DistinctCoins(bindings) && i < |bindings|
    ensures NeedsCarrier(bindings, i) <==> i in Forced(bindings)
  {
    if i in Forced(bindings) {
      forall part | ClosedPart(bindings, part) && i in part ensures HoldsCarrier(bindings, part) {
        if !HoldsCarrier(bindings, part) { ForcedNeedsCarrier(bindings, part); }
      }
    } else {
      UnforcedStandAlone(bindings);
      assert i in Unforced(bindings);
    }
  }

  // ---- what the verifier's search finds of it ----

  /** A forced coin is tied: the search never refuses what is atomic. */
  lemma ForcedIsTied(bindings: seq<CoinBinding>, i: nat)
    requires DistinctCoins(bindings) && i in Forced(bindings)
    ensures i < |bindings| && Tied(bindings, i)
  {
    var tied := set j | j in Below(|bindings|) && Tied(bindings, j);
    forall j: nat | j < |bindings| && ForcedBy(bindings, j, tied) ensures j in tied {
      TiedByForce(bindings, j, tied);
    }
    ForcedIsLeast(bindings, tied);
  }

  lemma TiedByForce(bindings: seq<CoinBinding>, i: nat, tied: set<nat>)
    requires DistinctCoins(bindings) && i < |bindings| && ForcedBy(bindings, i, tied)
    requires forall j :: j in tied ==> j < |bindings| && Tied(bindings, j)
    ensures Tied(bindings, i)
  {
    if bindings[i].carriesAnnouncement {
      assert Path(bindings, [i]);
      assert [i][|[i]| - 1] == i;
    } else {
      var j := ForcedEdge(bindings, i, tied);
      TiedThrough(bindings, i, j);
    }
  }

  lemma ForcedEdge(bindings: seq<CoinBinding>, i: nat, known: set<nat>) returns (j: nat)
    requires DistinctCoins(bindings) && i < |bindings|
    requires ForcedBy(bindings, i, known) && !bindings[i].carriesAnnouncement
    ensures j in known && j < |bindings| && Edge(bindings, i, j)
  {
    if id :| id in bindings[i].requiresCoinIds && HoldsCoin(bindings, known, id) {
      j :| j in known && j < |bindings| && bindings[j].coinId == id;
    } else {
      var hash :| hash in bindings[i].requiresPuzzleHashes && AllHolders(bindings, hash, known);
      j :| j in Below(|bindings|) && j < |bindings| && bindings[j].puzzleHash == hash;
    }
  }

  lemma TiedThrough(bindings: seq<CoinBinding>, i: nat, j: nat)
    requires i < |bindings| && j < |bindings| && Edge(bindings, i, j) && Tied(bindings, j)
    ensures Tied(bindings, i)
  {
    var p :| Path(bindings, p) && p[0] == j && bindings[p[|p| - 1]].carriesAnnouncement;
    var q := [i] + p;
    assert Path(bindings, q) && q[0] == i && q[|q| - 1] == p[|p| - 1];
  }

  /** Each puzzle hash asserted inside the bundle names at most one of its coins. */
  ghost predicate AssertedHashesUnique(bindings: seq<CoinBinding>) {
    forall i: nat, hash :: i < |bindings| && hash in bindings[i].requiresPuzzleHashes ==> AtMostOne(bindings, hash)
  }

  ghost predicate AtMostOne(bindings: seq<CoinBinding>, hash: Bytes32) {
    forall j: nat, k: nat :: j < k < |bindings| ==> bindings[j].puzzleHash != hash || bindings[k].puzzleHash != hash
  }

  /** With asserted hashes naming one coin each, the search finds only forced coins. */
  lemma TiedIsForced(bindings: seq<CoinBinding>, i: nat)
    requires AssertedHashesUnique(bindings) && i < |bindings| && Tied(bindings, i)
    ensures i in Forced(bindings)
  {
    var p :| Path(bindings, p) && p[0] == i && bindings[p[|p| - 1]].carriesAnnouncement;
    var k := |p| - 1;
    ForcedIsFixed(bindings, p[k]);
    while k > 0
      invariant 0 <= k < |p| && p[k] in Forced(bindings)
    {
      assert Edge(bindings, p[k - 1], p[k]);
      EdgeForces(bindings, p[k - 1], p[k]);
      k := k - 1;
    }
  }

  lemma EdgeForces(bindings: seq<CoinBinding>, i: nat, j: nat)
    requires AssertedHashesUnique(bindings) && i < |bindings| && j < |bindings| && Edge(bindings, i, j)
    requires j in Forced(bindings)
    ensures i in Forced(bindings)
  {
    var forced := Forced(bindings);
    if bindings[j].coinId in bindings[i].requiresCoinIds {
      assert HoldsCoin(bindings, forced, bindings[j].coinId);
    } else {
      var hash := bindings[j].puzzleHash;
      assert j in Below(|bindings|) && HoldsHash(bindings, Below(|bindings|), hash);
      assert AtMostOne(bindings, hash);
      assert AllHolders(bindings, hash, forced);
    }
    ForcedIsFixed(bindings, i);
  }

  /** The whole ring: no coin that commits value to settlement reaches the chain without an announcement. */
  ghost predicate RingIsAtomic(bindings: seq<CoinBinding>) {
    forall i: nat :: i < |bindings| && bindings[i].createsSink ==> NeedsCarrier(bindings, i)
  }

  /** Over a whole bundle of distinct coins: the ring is atomic exactly when every sink creator is forced,
      and then the verifier accepts it. */
  lemma RingAtomicExactly(bindings: seq<CoinBinding>)
    requires DistinctCoins(bindings)
    ensures RingIsAtomic(bindings) <==>
            forall i: nat :: i < |bindings| && bindings[i].createsSink ==> i in Forced(bindings)
    ensures RingIsAtomic(bindings) ==> SettlementBound(bindings)
  {
    forall i: nat | i < |bindings|
      ensures NeedsCarrier(bindings, i) <==> i in Forced(bindings)
      ensures i in Forced(bindings) ==> Tied(bindings, i)
    {
      AtomicExactlyWhenForced(bindings, i);
      if i in Forced(bindings) { ForcedIsTied(bindings, i); }
    }
  }

  /** So where asserted hashes name one coin each, whatever the verifier accepts is atomic. */
  lemma SettlementRingIsAtomic(bindings: seq<CoinBinding>)
    requires SettlementBound(bindings) && DistinctCoins(bindings) && AssertedHashesUnique(bindings)
    ensures RingIsAtomic(bindings)
  {
    forall i: nat | i < |bindings| && bindings[i].createsSink ensures i in Forced(bindings) {
      TiedIsForced(bindings, i);
    }
    RingAtomicExactly(bindings);
  }

  /** A sink creator that asserts a hash, and its two holders, of which one announces. */
  function TwoHolders(a: Bytes32, b: Bytes32, c: Bytes32, shared: Bytes32): seq<CoinBinding> {
    [CoinBinding(a, a, true, false, [], [shared]),
     CoinBinding(b, shared, false, true, [], []),
     CoinBinding(c, shared, false, false, [], [])]
  }

  /** The search follows any holder of a hash, so it can accept a ring that is not atomic: a coin tied
      only by a puzzle hash two coins share can be spent with the one that announces nothing. */
  lemma SharedPuzzleHashBreaksAtomicity(a: Bytes32, b: Bytes32, c: Bytes32, shared: Bytes32)
    requires a != b && b != c && a != c && a != shared
    ensures var bindings := TwoHolders(a, b, c, shared);
            DistinctCoins(bindings) && SettlementBound(bindings) && !RingIsAtomic(bindings)
  {
    var bindings := TwoHolders(a, b, c, shared);
    TwoHoldersBound(a, b, c, shared);
    TwoHoldersStandAlone(a, b, c, shared);
    assert bindings[0].createsSink && !NeedsCarrier(bindings, 0);
  }

  lemma TwoHoldersBound(a: Bytes32, b: Bytes32, c: Bytes32, shared: Bytes32)
    ensures SettlementBound(TwoHolders(a, b, c, shared))
  {
    var bindings := TwoHolders(a, b, c, shared);
    assert Edge(bindings, 0, 1);
    assert Path(bindings, [0, 1]);
    assert [0, 1][|[0, 1]| - 1] == 1;
  }

  lemma TwoHoldersStandAlone(a: Bytes32, b: Bytes32, c: Bytes32, shared: Bytes32)
    ensures var bindings := TwoHolders(a, b, c, shared);
            ClosedPart(bindings, {0, 2}) && 0 in {0, 2} && !HoldsCarrier(bindings, {0, 2})
  {
    var bindings := TwoHolders(a, b, c, shared);
    assert HoldsHash(bindings, {0, 2}, shared) by {
      assert bindings[2].puzzleHash == shared && 2 in {0, 2};
    }
  }
}
