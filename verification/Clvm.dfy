/** CLVM values and the foreign code the verifier leans on.

    The chia-wallet-sdk drivers, the CLVM interpreter and the hash functions are not part of
    this model: `Sdk` holds one total function for each call the verifier makes into them,
    and every statement is proved for all such functions. The few laws a statement needs are
    the predicates below, taken as hypotheses where they are used. */
module Clvm {
  import opened Prelude

  datatype SExp = Atom(bytes: seq<Byte>) | Pair(first: SExp, rest: SExp)

  datatype Coin = Coin(parent: Bytes32, puzzleHash: Bytes32, amount: U64)

  /** A coin spend; `None` stands for bytes that do not decode to a CLVM value. */
  datatype CoinSpend = CoinSpend(coin: Coin, puzzleReveal: Option<SExp>, solution: Option<SExp>)

  datatype PublicKey = PublicKey(bytes: seq<Byte>)

  /** The seven signature conditions other than AGG_SIG_ME. */
  datatype AggSigFamily = Unsafe | Parent | Puzzle | Amount | PuzzleAmount | ParentAmount | ParentPuzzle

  /** Timelocks and assertions a coin makes about itself. */
  datatype SelfAssertion =
    | SecondsAbsolute | SecondsRelative | HeightAbsolute | HeightRelative
    | BeforeSecondsAbsolute | BeforeSecondsRelative | BeforeHeightAbsolute | BeforeHeightRelative
    | MyCoinId | MyParentId | MyPuzzleHash | MyAmount | MyBirthSeconds | MyBirthHeight | Ephemeral

  datatype Condition =
    | CreateCoin(puzzleHash: Bytes32, amount: U64, memos: Option<SExp>)
    | ReserveFee(fee: U64)
    | AggSigMe(publicKey: PublicKey, message: seq<Byte>)
    | NonMeAggSig(family: AggSigFamily, key: PublicKey, text: seq<Byte>)
    | MeltSingleton
    | CreateCoinAnnouncement(announced: seq<Byte>)
    | AssertCoinAnnouncement(coinAnnouncementId: Bytes32)
    | AssertPuzzleAnnouncement(puzzleAnnouncementId: Bytes32)
    | AssertConcurrentSpend(concurrentCoinId: Bytes32)
    | AssertConcurrentPuzzle(concurrentPuzzleHash: Bytes32)
    | AssertSelf(assertion: SelfAssertion, operand: SExp)
    // Messages, puzzle announcements, NFT owner and metadata changes, unknown opcodes.
    | OtherCondition(opcode: SExp, operands: SExp)

  /** A driver's answer: an error, "not this layer", or the parsed layer. */
  datatype Parse<+T> = Malformed | Absent | Found(value: T)

  datatype CatView = CatView(assetId: Bytes32, p2Puzzle: SExp, p2Solution: SExp)
  datatype OptionView = OptionView(p2Puzzle: SExp, p2Solution: SExp)
  datatype LineageKind = EveProof | LineageProof
  datatype NftView = NftView(launcherId: Bytes32, proof: LineageKind, p2Puzzle: SExp, p2Solution: SExp)
  /** With an original public key a solution reveals a hidden puzzle instead of a delegated one. */
  datatype StandardSolution = StandardSolution(
    originalPublicKey: Option<PublicKey>, delegatedPuzzle: SExp, delegatedSolution: SExp)

  datatype Sdk = Sdk(
    treeHash: SExp -> Bytes32,
    coinId: Coin -> Bytes32,
    announcementId: (Bytes32, seq<Byte>) -> Bytes32,
    run: (SExp, SExp) -> Option<SExp>,
    decode: SExp -> Option<seq<Condition>>,
    parseCat: (Coin, SExp, SExp) -> Parse<CatView>,
    parseOption: (Coin, SExp, SExp) -> Parse<OptionView>,
    parseOneOfMany: SExp -> Parse<()>,
    parseNft: (Coin, SExp, SExp) -> Parse<NftView>,
    isSingleton: SExp -> bool,
    parseStandard: SExp -> Parse<PublicKey>,
    parseStandardSolution: SExp -> Option<StandardSolution>,
    parseSettlement: SExp -> Parse<()>,
    settlementHash: Bytes32,
    launcherHash: Bytes32)
  {
    function Hash(node: SExp): Bytes32 { treeHash(node) }

    function IdOf(coin: Coin): Bytes32 { coinId(coin) }

    function Announcement(coin: Bytes32, message: seq<Byte>): Bytes32 { announcementId(coin, message) }

    function CatOf(coin: Coin, puzzle: SExp, solution: SExp): Parse<CatView> { parseCat(coin, puzzle, solution) }

    function OptionOf(coin: Coin, puzzle: SExp,
                      solution: SExp): Parse<OptionView> { parseOption(coin, puzzle, solution) }

    function OneOfManyOf(puzzle: SExp): Parse<()> { parseOneOfMany(puzzle) }

    function NftOf(coin: Coin, puzzle: SExp, solution: SExp): Parse<NftView> { parseNft(coin, puzzle, solution) }

    predicate Singleton(puzzle: SExp) { isSingleton(puzzle) }

    function StandardOf(puzzle: SExp): Parse<PublicKey> { parseStandard(puzzle) }

    function StandardSolutionOf(solution: SExp): Option<StandardSolution> { parseStandardSolution(solution) }

    function SettlementOf(puzzle: SExp): Parse<()> { parseSettlement(puzzle) }

    function DecodeList(node: SExp): Option<seq<Condition>> { decode(node) }

    /** Run a puzzle and decode the conditions it emits. */
    function RunConditions(puzzle: SExp, solution: SExp): Option<seq<Condition>> {
      match run(puzzle, solution)
      case None => None
      case Some(output) => decode(output)
    }

    /** A settlement-payments or singleton-launcher destination. */
    predicate IsSinkHash(puzzleHash: Bytes32) {
      puzzleHash == settlementHash || puzzleHash == launcherHash
    }

    /** The law of the CLVM quote operator: a quote ignores its solution. */
    ghost predicate QuoteLaw() {
      forall quoted: SExp, solution: SExp :: run(Pair(Atom([1]), quoted), solution) == Some(quoted)
    }

    /** The solution spends by its delegated puzzle, not by a hidden one. */
    predicate Delegates(solution: SExp) {
      StandardSolutionOf(solution).Some? && StandardSolutionOf(solution).value.originalPublicKey.None?
    }

    /** Spent by a delegated puzzle, the standard layer emits its own AGG_SIG_ME over that puzzle's
        tree hash, then whatever it evaluates to. Spent by a hidden one it fails, or emits what the
        puzzle in the delegated place evaluates to and signs nothing itself. */
    ghost predicate StandardLaw() {
      forall puzzle: SExp, solution: SExp ::
        StandardOf(puzzle).Found? && StandardSolutionOf(solution).Some? ==>
          var s := StandardSolutionOf(solution).value;
          var inner := RunConditions(s.delegatedPuzzle, s.delegatedSolution);
          if s.originalPublicKey.None?
          then RunConditions(puzzle, solution) ==
               (match inner
                case None => None
                case Some(emitted) =>
                  Some([AggSigMe(StandardOf(puzzle).value, Hash(s.delegatedPuzzle).bytes)] + emitted))
          else RunConditions(puzzle, solution) == None || RunConditions(puzzle, solution) == inner
    }

    /** A layer is recognised by the puzzle alone, what an option or an NFT wraps is curried into that
        puzzle, and no CAT is an option coin. */
    ghost predicate LayerLaw() {
      && (forall coin: Coin, puzzle: SExp, s: SExp, t: SExp {:trigger CatOf(coin, puzzle, s), CatOf(coin, puzzle, t)} ::
            SameCat(CatOf(coin, puzzle, s), CatOf(coin, puzzle, t)))
      && (forall coin: Coin, puzzle: SExp, s: SExp, t: SExp
            {:trigger OptionOf(coin, puzzle, s), OptionOf(coin, puzzle, t)} ::
            SameOption(OptionOf(coin, puzzle, s), OptionOf(coin, puzzle, t)))
      && (forall coin: Coin, puzzle: SExp, s: SExp, t: SExp {:trigger NftOf(coin, puzzle, s), NftOf(coin, puzzle, t)} ::
            SameNft(NftOf(coin, puzzle, s), NftOf(coin, puzzle, t)))
      && (forall coin: Coin, puzzle: SExp, solution: SExp {:trigger CatOf(coin, puzzle, solution)} ::
            CatOf(coin, puzzle, solution).Found? ==>
              !OptionOf(coin, puzzle, solution).Found? && !OneOfManyOf(puzzle).Found?)
    }

    /** Two different CLVM values with one tree hash. */
    ghost predicate Collision(a: SExp, b: SExp) {
      a != b && Hash(a) == Hash(b)
    }
  }

  /** A revocable CAT reveals its inner puzzle in the solution, so only the asset is the puzzle's. */
  predicate SameCat(x: Parse<CatView>, y: Parse<CatView>) {
    && (x.Absent? <==> y.Absent?)
    && (x.Found? && y.Found? ==> x.value.assetId == y.value.assetId)
  }

  predicate SameOption(x: Parse<OptionView>, y: Parse<OptionView>) {
    (x.Absent? <==> y.Absent?) && (x.Found? && y.Found? ==> x.value.p2Puzzle == y.value.p2Puzzle)
  }

  predicate SameNft(x: Parse<NftView>, y: Parse<NftView>) {
    && (x.Absent? <==> y.Absent?)
    && (x.Found? && y.Found? ==> x.value.launcherId == y.value.launcherId && x.value.p2Puzzle == y.value.p2Puzzle)
  }

  /** `sub` sits `depth` pairs below `node`. */
  predicate SubtreeAt(node: SExp, sub: SExp, depth: nat) {
    if depth == 0 then node == sub
    else node.Pair? && (SubtreeAt(node.first, sub, depth - 1) || SubtreeAt(node.rest, sub, depth - 1))
  }

  const MAX_SOLUTION_SEARCH_DEPTH: nat := 256

  /** The first subtree of `node`, in preorder, whose tree hash is `target`. */
  function FindSubtree(sdk: Sdk, node: SExp, target: Bytes32, depth: nat): Option<SExp> {
    if sdk.Hash(node) == target then Some(node)
    else if depth >= MAX_SOLUTION_SEARCH_DEPTH then None
    else if node.Atom? then None
    else
      var left := FindSubtree(sdk, node.first, target, depth + 1);
      if left.Some? then left else FindSubtree(sdk, node.rest, target, depth + 1)
  }

  /** What the search returns is a subtree with the hash it was asked for, within the bound. */
  lemma {:induction false} FindSubtreeSound(sdk: Sdk, node: SExp, target: Bytes32, depth: nat)
    requires depth <= MAX_SOLUTION_SEARCH_DEPTH
    requires FindSubtree(sdk, node, target, depth).Some?
    ensures var found := FindSubtree(sdk, node, target, depth).value;
            && sdk.Hash(found) == target
            && exists d: nat :: depth + d <= MAX_SOLUTION_SEARCH_DEPTH && SubtreeAt(node, found, d)
  {
    var found := FindSubtree(sdk, node, target, depth).value;
    if sdk.Hash(node) == target {
      assert SubtreeAt(node, found, 0);
    } else {
      var side := if FindSubtree(sdk, node.first, target, depth + 1).Some? then node.first else node.rest;
      FindSubtreeSound(sdk, side, target, depth + 1);
      var d: nat :| depth + 1 + d <= MAX_SOLUTION_SEARCH_DEPTH && SubtreeAt(side, found, d);
      assert SubtreeAt(node, found, d + 1);
    }
  }

  /** A subtree with that hash within the bound is never missed. */
  lemma {:induction false} FindSubtreeComplete(sdk: Sdk, node: SExp, target: Bytes32, depth: nat, sub: SExp, d: nat)
    requires depth + d <= MAX_SOLUTION_SEARCH_DEPTH
    requires SubtreeAt(node, sub, d) && sdk.Hash(sub) == target
    ensures FindSubtree(sdk, node, target, depth).Some?
    decreases d
  {
    if sdk.Hash(node) != target && d > 0 {
      if SubtreeAt(node.first, sub, d - 1) {
        FindSubtreeComplete(sdk, node.first, target, depth + 1, sub, d - 1);
      } else {
        FindSubtreeComplete(sdk, node.rest, target, depth + 1, sub, d - 1);
      }
    }
  }

  /** The search succeeds exactly when a matching subtree exists at depth 256 or less. */
  lemma FindSubtreeExact(sdk: Sdk, node: SExp, target: Bytes32)
    ensures FindSubtree(sdk, node, target, 0).Some? <==>
            exists sub: SExp, d: nat ::
              d <= 256 && SubtreeAt(node, sub, d) && sdk.Hash(sub) == target
  {
    if FindSubtree(sdk, node, target, 0).Some? {
      FindSubtreeSound(sdk, node, target, 0);
    }
    forall sub: SExp, d: nat | d <= MAX_SOLUTION_SEARCH_DEPTH && SubtreeAt(node, sub, d) && sdk.Hash(sub) == target
      ensures FindSubtree(sdk, node, target, 0).Some?
    {
      FindSubtreeComplete(sdk, node, target, 0, sub, d);
    }
  }
}
