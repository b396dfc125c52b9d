/** What the verifier reads off a condition list: the sole signature, the allowlists, the
    created coins, and the proof that a puzzle is a bare quote. */
module Conditions {
  import opened Prelude
  import opened Clvm

  /** A created (or spent) coin in the verifier's terms; `assetId` is `None` for native XCH. */
  datatype DecodedOutput = DecodedOutput(puzzleHash: Bytes32, amount: U64, assetId: Option<Bytes32>)

  // ---- reading a list ----

  function Creates(conditions: seq<Condition>, asset: Option<Bytes32>): seq<DecodedOutput> {
    if conditions == [] then []
    else
      var c := conditions[0];
      (if c.CreateCoin? then [DecodedOutput(c.puzzleHash, c.amount, asset)] else []) +
      Creates(conditions[1..], asset)
  }

  function Reserved(conditions: seq<Condition>): nat {
    if conditions == [] then 0
    else (if conditions[0].ReserveFee? then conditions[0].fee else 0) + Reserved(conditions[1..])
  }

  function SignatureConditions(conditions: seq<Condition>): seq<Condition> {
    if conditions == [] then []
    else (if conditions[0].AggSigMe? then [conditions[0]] else []) + SignatureConditions(conditions[1..])
  }

  function Melts(conditions: seq<Condition>): nat {
    if conditions == [] then 0
    else (if conditions[0].MeltSingleton? then 1 else 0) + Melts(conditions[1..])
  }

  function Announced(sdk: Sdk, coin: Bytes32, conditions: seq<Condition>): seq<Bytes32> {
    if conditions == [] then []
    else
      var c := conditions[0];
      (if c.CreateCoinAnnouncement? then [sdk.Announcement(coin, c.announced)] else []) +
      Announced(sdk, coin, conditions[1..])
  }

  function AssertedAnnouncements(conditions: seq<Condition>): set<Bytes32> {
    set c | c in conditions && c.AssertCoinAnnouncement? :: c.coinAnnouncementId
  }

  function ConcurrentCoins(conditions: seq<Condition>): seq<Bytes32> {
    if conditions == [] then []
    else
      var c := conditions[0];
      (if c.AssertConcurrentSpend? then [c.concurrentCoinId] else []) + ConcurrentCoins(conditions[1..])
  }

  function ConcurrentPuzzles(conditions: seq<Condition>): seq<Bytes32> {
    if conditions == [] then []
    else
      var c := conditions[0];
      (if c.AssertConcurrentPuzzle? then [c.concurrentPuzzleHash] else []) + ConcurrentPuzzles(conditions[1..])
  }

  lemma {:induction false} CreatesConcat(a: seq<Condition>, b: seq<Condition>, asset: Option<Bytes32>)
    ensures Creates(a + b, asset) == Creates(a, asset) + Creates(b, asset)
  {
    if a == [] {
      assert a + b == b;
    } else {
      var c, rest := a[0], a[1..];
      var head := if c.CreateCoin? then [DecodedOutput(c.puzzleHash, c.amount, asset)] else [];
      assert (a + b)[0] == c && (a + b)[1..] == rest + b;
      CreatesConcat(rest, b, asset);
      ConcatAssociative(head, Creates(rest, asset), Creates(b, asset));
    }
  }

  lemma CreatesNext(conditions: seq<Condition>, i: nat, asset: Option<Bytes32>)
    requires i < |conditions|
    ensures var c := conditions[i];
            Creates(conditions[..i + 1], asset) ==
            Creates(conditions[..i], asset) +
            if c.CreateCoin? then [DecodedOutput(c.puzzleHash, c.amount, asset)] else []
    ensures Creates(conditions[..i + 1], asset) <= Creates(conditions, asset)
  {
    assert conditions[..i + 1] == conditions[..i] + [conditions[i]];
    CreatesConcat(conditions[..i], [conditions[i]], asset);
    assert conditions == conditions[..i + 1] + conditions[i + 1..];
    CreatesConcat(conditions[..i + 1], conditions[i + 1..], asset);
  }

  lemma ReadingConcat(a: seq<Condition>, b: seq<Condition>)
    ensures Reserved(a + b) == Reserved(a) + Reserved(b)
    ensures SignatureConditions(a + b) == SignatureConditions(a) + SignatureConditions(b)
    ensures Melts(a + b) == Melts(a) + Melts(b)
    ensures ConcurrentCoins(a + b) == ConcurrentCoins(a) + ConcurrentCoins(b)
    ensures ConcurrentPuzzles(a + b) == ConcurrentPuzzles(a) + ConcurrentPuzzles(b)
  {
    CountsConcat(a, b);
    SignaturesConcat(a, b);
    ConcurrentCoinsConcat(a, b);
    ConcurrentPuzzlesConcat(a, b);
  }

  lemma {:induction false} CountsConcat(a: seq<Condition>, b: seq<Condition>)
    ensures Reserved(a + b) == Reserved(a) + Reserved(b)
    ensures Melts(a + b) == Melts(a) + Melts(b)
  {
    if a == [] {
      assert a + b == b;
    } else {
      assert (a + b)[0] == a[0] && (a + b)[1..] == a[1..] + b;
      CountsConcat(a[1..], b);
    }
  }

  lemma {:induction false} SignaturesConcat(a: seq<Condition>, b: seq<Condition>)
    ensures SignatureConditions(a + b) == SignatureConditions(a) + SignatureConditions(b)
  {
    if a == [] {
      assert a + b == b;
    } else {
      var c, rest := a[0], a[1..];
      var head := if c.AggSigMe? then [c] else [];
      assert (a + b)[0] == c && (a + b)[1..] == rest + b;
      SignaturesConcat(rest, b);
      ConcatAssociative(head, SignatureConditions(rest), SignatureConditions(b));
    }
  }

  lemma {:induction false} ConcurrentCoinsConcat(a: seq<Condition>, b: seq<Condition>)
    ensures ConcurrentCoins(a + b) == ConcurrentCoins(a) + ConcurrentCoins(b)
  {
    if a == [] {
      assert a + b == b;
    } else {
      var c, rest := a[0], a[1..];
      var head := if c.AssertConcurrentSpend? then [c.concurrentCoinId] else [];
      assert (a + b)[0] == c && (a + b)[1..] == rest + b;
      ConcurrentCoinsConcat(rest, b);
      ConcatAssociative(head, ConcurrentCoins(rest), ConcurrentCoins(b));
    }
  }

  lemma {:induction false} ConcurrentPuzzlesConcat(a: seq<Condition>, b: seq<Condition>)
    ensures ConcurrentPuzzles(a + b) == ConcurrentPuzzles(a) + ConcurrentPuzzles(b)
  {
    if a == [] {
      assert a + b == b;
    } else {
      var c, rest := a[0], a[1..];
      var head := if c.AssertConcurrentPuzzle? then [c.concurrentPuzzleHash] else [];
      assert (a + b)[0] == c && (a + b)[1..] == rest + b;
      ConcurrentPuzzlesConcat(rest, b);
      ConcatAssociative(head, ConcurrentPuzzles(rest), ConcurrentPuzzles(b));
    }
  }

  /** One more condition read. */
  lemma ReadingNext(conditions: seq<Condition>, i: nat)
    requires i < |conditions|
    ensures var c := conditions[i];
            var before, after := conditions[..i], conditions[..i + 1];
            && Reserved(after) == Reserved(before) + (if c.ReserveFee? then c.fee else 0)
            && Melts(after) == Melts(before) + (if c.MeltSingleton? then 1 else 0)
            && ConcurrentCoins(after) ==
               ConcurrentCoins(before) + (if c.AssertConcurrentSpend? then [c.concurrentCoinId] else [])
            && ConcurrentPuzzles(after) ==
               ConcurrentPuzzles(before) + (if c.AssertConcurrentPuzzle? then [c.concurrentPuzzleHash] else [])
            && AssertedAnnouncements(after) ==
               AssertedAnnouncements(before) + (if c.AssertCoinAnnouncement? then {c.coinAnnouncementId} else {})
    ensures Reserved(conditions[..i + 1]) <= Reserved(conditions)
  {
    assert conditions[..i + 1] == conditions[..i] + [conditions[i]];
    ReadingConcat(conditions[..i], [conditions[i]]);
    assert conditions == conditions[..i + 1] + conditions[i + 1..];
    ReadingConcat(conditions[..i + 1], conditions[i + 1..]);
  }

  // ---- signatures ----

  predicate NoSignature(conditions: seq<Condition>) {
    forall c :: c in conditions ==> !c.AggSigMe? && !c.NonMeAggSig?
  }

  predicate OnlyMeSignatures(conditions: seq<Condition>) {
    forall c :: c in conditions ==> !c.NonMeAggSig?
  }

  /** The 32-byte message of the one AGG_SIG_ME, if there is exactly one and it is a word. */
  function SoleMessage(conditions: seq<Condition>): Option<Bytes32> {
    var signatures := SignatureConditions(conditions);
    if |signatures| == 1 && signatures[0].AggSigMe? && |signatures[0].message| == 32
    then Some(Word(signatures[0].message))
    else None
  }

  // ---- allowlists ----

  predicate BenignAssertion(c: Condition) {
    || c.AssertSelf? || c.AssertCoinAnnouncement? || c.AssertPuzzleAnnouncement?
    || c.AssertConcurrentSpend? || c.AssertConcurrentPuzzle?
  }

  predicate TransferPermits(c: Condition) {
    c.CreateCoin? || c.AggSigMe? || BenignAssertion(c)
  }

  datatype RehomeClass = NftOuter | NftSigned | NftEve | Launcher

  predicate RehomePermits(c: Condition, leg: RehomeClass) {
    if c.AggSigMe? then leg == NftOuter
    else if c.CreateCoinAnnouncement? then leg == Launcher
    else c.CreateCoin? || BenignAssertion(c)
  }

  datatype MeltConditionList = Presented | Signed

  predicate MeltPermits(c: Condition, list: MeltConditionList) {
    if c.AggSigMe? then list == Presented else c.MeltSingleton? || BenignAssertion(c)
  }

  // ---- quotes ----

  /** The conditions a bare quote `(q . conditions)` fixes for every solution. */
  function ProveQuoted(sdk: Sdk, puzzle: SExp): Option<seq<Condition>> {
    if puzzle.Pair? && puzzle.first == Atom([1]) then sdk.DecodeList(puzzle.rest) else None
  }

  datatype CommittedSpend = CommittedSpend(message: Bytes32, conditions: seq<Condition>)

  /** What a standard-layer solution commits its signature to: refused unless the delegated
      puzzle is a quote. */
  function CommittedStandardSpend(sdk: Sdk, solution: SExp): Option<CommittedSpend> {
    match sdk.StandardSolutionOf(solution)
    case None => None
    case Some(s) =>
      match ProveQuoted(sdk, s.delegatedPuzzle)
      case None => None
      case Some(conditions) => Some(CommittedSpend(sdk.Hash(s.delegatedPuzzle), conditions))
  }

  /** The quoted list behind a melt's signature, found in the solution by its hash. */
  function CommittedMeltConditions(sdk: Sdk, solution: SExp, message: Bytes32): Option<seq<Condition>> {
    match FindSubtree(sdk, solution, message, 0)
    case None => None
    case Some(delegated) => ProveQuoted(sdk, delegated)
  }

  /** The one odd-amount, non-structural destination an inner list hands a singleton to. */
  function RehomeDestination(sdk: Sdk, conditions: seq<Condition>): Option<Bytes32> {
    var created := Creates(conditions, None);
    if |created| == 1 && created[0].amount % 2 == 1 && !sdk.IsSinkHash(created[0].puzzleHash)
    then Some(created[0].puzzleHash)
    else None
  }

  /** The loop that reads the destination, refusing at the first bad CREATE_COIN. */
  method InnerRehomeDestination(sdk: Sdk, conditions: seq<Condition>) returns (r: Option<Bytes32>)
    ensures r == RehomeDestination(sdk, conditions)
  {
    var destination: Option<Bytes32> := None;
    for i := 0 to |conditions|
      invariant var seen := Creates(conditions[..i], None);
                if destination.None? then seen == []
                else && |seen| == 1 && seen[0].amount % 2 == 1 && !sdk.IsSinkHash(seen[0].puzzleHash)
                     && destination == Some(seen[0].puzzleHash)
    {
      CreatesNext(conditions, i, None);
      var c := conditions[i];
      if c.CreateCoin? {
        if destination.Some? { return None; }
        if c.amount % 2 == 0 { return None; }
        if sdk.IsSinkHash(c.puzzleHash) { return None; }
        destination := Some(c.puzzleHash);
      }
    }
    assert conditions[..|conditions|] == conditions;
    return destination;
  }
}
