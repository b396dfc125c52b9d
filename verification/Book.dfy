/** The meaning of a bundle, without a ledger: a book of every coin it spends, every coin it
    creates and every fact its bundle-level checks need, over unbounded integers. `EntryOf`
    says what one coin spend contributes; books add up, entry by entry. */
module Book {
  import opened Prelude
  import opened Clvm
  import opened Conditions
  import opened Settlement

  /** An NFT act, with the owner it ends on. */
  datatype NftOperation =
    | Transfer(launcherId: Bytes32, destination: Bytes32)
    | Mint(launcherId: Bytes32, owner: Bytes32)
  {
    function Owner(): Bytes32 { if Transfer? then destination else owner }
  }

  /** A spent launcher: its id, the coin that must have created it, what it announces. */
  datatype Launch = Launch(coinId: Bytes32, parent: Bytes32, announced: seq<Bytes32>)

  ghost function LaunchedIds(launches: seq<Launch>): set<Bytes32> {
    set l | l in launches :: l.coinId
  }

  datatype Book = Book(
    spent: seq<DecodedOutput>,
    created: seq<DecodedOutput>,
    fee: nat,
    melted: nat,
    melts: seq<Bytes32>,
    operations: seq<NftOperation>,
    bindings: seq<CoinBinding>,
    launches: seq<Launch>,
    eveParents: seq<Bytes32>,
    asserted: set<Bytes32>)
  {
    function Plus(entry: Book): Book {
      Book(spent + entry.spent, created + entry.created, fee + entry.fee, melted + entry.melted,
           melts + entry.melts, operations + entry.operations, bindings + entry.bindings,
           launches + entry.launches, eveParents + entry.eveParents, asserted + entry.asserted)
    }
  }

  const EMPTY_BOOK := Book([], [], 0, 0, [], [], [], [], [], {})

  // ---- totals ----

  /** The value in `asset` among these coins. */
  function Total(coins: seq<DecodedOutput>, asset: Option<Bytes32>): nat {
    if coins == [] then 0
    else (if coins[0].assetId == asset then coins[0].amount else 0) + Total(coins[1..], asset)
  }

  lemma {:induction false} TotalConcat(a: seq<DecodedOutput>, b: seq<DecodedOutput>, asset: Option<Bytes32>)
    ensures Total(a + b, asset) == Total(a, asset) + Total(b, asset)
  {
    if a == [] {
      assert a + b == b;
    } else {
      assert (a + b)[1..] == a[1..] + b;
      TotalConcat(a[1..], b, asset);
    }
  }

  lemma TotalPrefix(a: seq<DecodedOutput>, b: seq<DecodedOutput>, asset: Option<Bytes32>)
    requires a <= b
    ensures Total(a, asset) <= Total(b, asset)
  {
    assert b == a + b[|a|..];
    TotalConcat(a, b[|a|..], asset);
  }

  /** The outputs bound for a structural puzzle (`sink`), or for a free address. */
  function Routed(sdk: Sdk, coins: seq<DecodedOutput>, sink: bool): seq<DecodedOutput> {
    if coins == [] then []
    else
      (if sdk.IsSinkHash(coins[0].puzzleHash) == sink then [coins[0]] else []) + Routed(sdk, coins[1..], sink)
  }

  lemma {:induction false} RoutedConcat(sdk: Sdk, a: seq<DecodedOutput>, b: seq<DecodedOutput>, sink: bool)
    ensures Routed(sdk, a + b, sink) == Routed(sdk, a, sink) + Routed(sdk, b, sink)
  {
    if a == [] {
      assert a + b == b;
    } else {
      assert (a + b)[1..] == a[1..] + b;
      RoutedConcat(sdk, a[1..], b, sink);
    }
  }

  /** Routing splits the created value and loses none of it. */
  lemma {:induction false} RoutedTotals(sdk: Sdk, coins: seq<DecodedOutput>, asset: Option<Bytes32>)
    ensures Total(Routed(sdk, coins, false), asset) + Total(Routed(sdk, coins, true), asset) == Total(coins, asset)
    ensures forall o :: o in Routed(sdk, coins, true) ==> sdk.IsSinkHash(o.puzzleHash)
    ensures forall o :: o in Routed(sdk, coins, false) ==> !sdk.IsSinkHash(o.puzzleHash)
  {
    if coins != [] {
      RoutedTotals(sdk, coins[1..], asset);
      var sink := sdk.IsSinkHash(coins[0].puzzleHash);
      TotalConcat([coins[0]], Routed(sdk, coins[1..], sink), asset);
      assert Routed(sdk, coins, !sink) == Routed(sdk, coins[1..], !sink);
    }
  }

  /** Every total the ledger keeps is representable in 64 bits. */
  ghost predicate Fits(book: Book) {
    && book.fee <= U64_MAX
    && book.melted <= U64_MAX
    && (forall asset :: Total(book.spent, asset) <= U64_MAX)
    && (forall asset :: Total(book.created, asset) <= U64_MAX)
  }

  /** Totals only grow, so a book that fits fitted at every earlier point. */
  lemma FitsEarlier(book: Book, later: Book)
    requires book.spent <= later.spent && book.created <= later.created
    requires book.fee <= later.fee && book.melted <= later.melted
    requires Fits(later)
    ensures Fits(book)
  {
    forall asset ensures Total(book.spent, asset) <= U64_MAX && Total(book.created, asset) <= U64_MAX {
      TotalPrefix(book.spent, later.spent, asset);
      TotalPrefix(book.created, later.created, asset);
    }
  }

  // ---- what one coin spend contributes ----

  function Spent(coin: Coin, asset: Option<Bytes32>): seq<DecodedOutput> {
    [DecodedOutput(coin.puzzleHash, coin.amount, asset)]
  }

  /** A wallet-signed send of XCH or of a CAT: the delegated puzzle is a quote and the one
      AGG_SIG_ME signs it. Only the XCH arm reads fees and announcement assertions. */
  function SendEntry(sdk: Sdk, coin: Coin, asset: Option<Bytes32>, puzzle: SExp, solution: SExp): Option<Book> {
    var committed := CommittedStandardSpend(sdk, solution);
    var emitted := sdk.RunConditions(puzzle, solution);
    if committed.Some? && emitted.Some? && SoleMessage(emitted.value) == Some(committed.value.message) &&
       OnlyMeSignatures(emitted.value)
    then
      var conditions := emitted.value;
      Some(EMPTY_BOOK.(
        spent := Spent(coin, asset),
        created := Creates(conditions, asset),
        fee := if asset.None? then Reserved(conditions) else 0,
        bindings := [BindingOf(sdk, coin, conditions)],
        asserted := if asset.None? then AssertedAnnouncements(conditions) else {}))
    else None
  }

  /** A settlement coin claimed by announcement: nothing in it is signed. */
  function ClaimEntry(sdk: Sdk, coin: Coin, asset: Option<Bytes32>, puzzle: SExp, solution: SExp): Option<Book> {
    var emitted := sdk.RunConditions(puzzle, solution);
    if emitted.Some? && NoSignature(emitted.value)
    then Some(EMPTY_BOOK.(spent := Spent(coin, asset), created := Creates(emitted.value, asset)))
    else None
  }

  function CatEntry(sdk: Sdk, coin: Coin, cat: CatView): Option<Book> {
    match sdk.SettlementOf(cat.p2Puzzle)
    case Malformed => None
    case Found(_) => ClaimEntry(sdk, coin, Some(cat.assetId), cat.p2Puzzle, cat.p2Solution)
    case Absent =>
      if sdk.StandardOf(cat.p2Puzzle).Found?
      then SendEntry(sdk, coin, Some(cat.assetId), cat.p2Puzzle, cat.p2Solution)
      else None
  }

  /** An option transfer: signed, allowlisted, and re-homing the singleton to one free address. */
  function OptionEntry(sdk: Sdk, coin: Coin, puzzle: SExp, solution: SExp): Option<Book> {
    var committed := CommittedStandardSpend(sdk, solution);
    var emitted := sdk.RunConditions(puzzle, solution);
    if sdk.StandardOf(puzzle).Found? && committed.Some? && emitted.Some? &&
       SoleMessage(emitted.value) == Some(committed.value.message) &&
       (forall c :: c in emitted.value ==> TransferPermits(c)) &&
       RehomeDestination(sdk, emitted.value).Some?
    then Some(EMPTY_BOOK.(spent := Spent(coin, None), created := Creates(emitted.value, None)))
    else None
  }

  /** The one odd-amount CREATE_COIN of a singleton's outer conditions. */
  predicate SingleOddCreate(conditions: seq<Condition>) {
    var created := Creates(conditions, None);
    |created| == 1 && created[0].amount % 2 == 1
  }

  /** What an NFT transfer's signature authorizes: its message and the new owner, read from the
      quoted list and refused when that list does anything but re-home. */
  function SignedTransfer(sdk: Sdk, nft: NftView): Option<(Bytes32, Bytes32)> {
    var committed := CommittedStandardSpend(sdk, nft.p2Solution);
    if sdk.StandardOf(nft.p2Puzzle).Found? && committed.Some? &&
       (forall c :: c in committed.value.conditions ==> RehomePermits(c, NftSigned)) &&
       RehomeDestination(sdk, committed.value.conditions).Some?
    then Some((committed.value.message, RehomeDestination(sdk, committed.value.conditions).value))
    else None
  }

  function NftTransferEntry(sdk: Sdk, coin: Coin, nft: NftView, puzzle: SExp, solution: SExp): Option<Book> {
    var act := SignedTransfer(sdk, nft);
    var emitted := sdk.RunConditions(puzzle, solution);
    if act.Some? && emitted.Some? && SoleMessage(emitted.value) == Some(act.value.0) &&
       (forall c :: c in emitted.value ==> RehomePermits(c, NftOuter)) && SingleOddCreate(emitted.value)
    then Some(EMPTY_BOOK.(
      spent := Spent(coin, None),
      created := Creates(emitted.value, None),
      operations := [Transfer(nft.launcherId, act.value.1)]))
    else None
  }

  /** Who an eve puzzle settles the new NFT onto, read from its own quote. */
  function EveOwner(sdk: Sdk, nft: NftView): Option<Bytes32> {
    var inner := ProveQuoted(sdk, nft.p2Puzzle);
    if inner.Some? && NoSignature(inner.value) && (forall c :: c in inner.value ==> RehomePermits(c, NftEve))
    then RehomeDestination(sdk, inner.value)
    else None
  }

  function NftEveEntry(sdk: Sdk, coin: Coin, nft: NftView, puzzle: SExp, solution: SExp): Option<Book> {
    var owner := EveOwner(sdk, nft);
    var emitted := sdk.RunConditions(puzzle, solution);
    if owner.Some? && emitted.Some? && NoSignature(emitted.value) &&
       (forall c :: c in emitted.value ==> RehomePermits(c, NftEve)) && SingleOddCreate(emitted.value)
    then Some(EMPTY_BOOK.(
      spent := Spent(coin, None),
      created := Creates(emitted.value, None),
      operations := [Mint(nft.launcherId, owner.value)],
      eveParents := [coin.parent]))
    else None
  }

  function LaunchEntry(sdk: Sdk, coin: Coin, puzzle: SExp, solution: SExp): Option<Book> {
    var emitted := sdk.RunConditions(puzzle, solution);
    if emitted.Some? && NoSignature(emitted.value) &&
       (forall c :: c in emitted.value ==> RehomePermits(c, Launcher)) && SingleOddCreate(emitted.value)
    then
      Some(EMPTY_BOOK.(
        spent := Spent(coin, None),
        created := Creates(emitted.value, None),
        launches := [Launch(sdk.IdOf(coin), coin.parent, Announced(sdk, sdk.IdOf(coin), emitted.value))]))
    else None
  }

  /** A terminal singleton spend: the quoted list its one signature commits to melts the
      singleton once and does nothing else of consequence. */
  predicate MeltAuthorized(sdk: Sdk, puzzle: SExp, solution: SExp) {
    var emitted := sdk.RunConditions(puzzle, solution);
    && emitted.Some?
    && (forall c :: c in emitted.value ==> MeltPermits(c, Presented))
    && SoleMessage(emitted.value).Some?
    && var committed := CommittedMeltConditions(sdk, solution, SoleMessage(emitted.value).value);
    && committed.Some?
    && (forall c :: c in committed.value ==> MeltPermits(c, Signed))
    && Melts(committed.value) == 1
  }

  function MeltEntry(sdk: Sdk, coin: Coin, puzzle: SExp, solution: SExp): Option<Book> {
    if MeltAuthorized(sdk, puzzle, solution)
    then Some(EMPTY_BOOK.(spent := Spent(coin, None), melted := coin.amount, melts := [sdk.IdOf(coin)]))
    else None
  }

  /** The accounting arm a coin spend is dispatched to, in the order the layers are tried. */
  datatype Arm =
    | CatArm(cat: CatView)
    | OptionArm(option: OptionView)
    | LaunchArm
    | NftTransferArm(nft: NftView)
    | NftEveArm(nft: NftView)
    | MeltArm
    | StandardArm
    | SettlementArm
    | NoArm

  function ArmOf(sdk: Sdk, coin: Coin, puzzle: SExp, solution: SExp): Arm {
    if sdk.Hash(puzzle) != coin.puzzleHash then NoArm else
    match sdk.CatOf(coin, puzzle, solution)
    case Malformed => NoArm
    case Found(cat) => CatArm(cat)
    case Absent =>
      match sdk.OptionOf(coin, puzzle, solution)
      case Malformed => NoArm
      case Found(option) => OptionArm(option)
      case Absent =>
        if !sdk.OneOfManyOf(puzzle).Absent? then NoArm
        else if coin.puzzleHash == sdk.launcherHash then LaunchArm
        else
          match sdk.NftOf(coin, puzzle, solution)
          case Malformed => NoArm
          case Found(nft) => if nft.proof.EveProof? then NftEveArm(nft) else NftTransferArm(nft)
          case Absent =>
            if sdk.Singleton(puzzle) then MeltArm
            else if sdk.StandardOf(puzzle).Found? then StandardArm
            else if sdk.StandardOf(puzzle).Malformed? then NoArm
            else if sdk.SettlementOf(puzzle).Found? then SettlementArm
            else NoArm
  }

  function ArmFor(sdk: Sdk, spend: CoinSpend): Arm {
    if spend.puzzleReveal.None? || spend.solution.None? then NoArm
    else ArmOf(sdk, spend.coin, spend.puzzleReveal.value, spend.solution.value)
  }

  /** The contribution of one coin spend, or `None` when the verifier must refuse it. */
  function EntryOf(sdk: Sdk, spend: CoinSpend): Option<Book> {
    if spend.puzzleReveal.None? || spend.solution.None? then None
    else
      var coin, puzzle, solution := spend.coin, spend.puzzleReveal.value, spend.solution.value;
      match ArmOf(sdk, coin, puzzle, solution)
      case CatArm(cat) => CatEntry(sdk, coin, cat)
      case OptionArm(option) => OptionEntry(sdk, coin, option.p2Puzzle, option.p2Solution)
      case LaunchArm => LaunchEntry(sdk, coin, puzzle, solution)
      case NftTransferArm(nft) => NftTransferEntry(sdk, coin, nft, puzzle, solution)
      case NftEveArm(nft) => NftEveEntry(sdk, coin, nft, puzzle, solution)
      case MeltArm => MeltEntry(sdk, coin, puzzle, solution)
      case StandardArm => SendEntry(sdk, coin, None, puzzle, solution)
      case SettlementArm => ClaimEntry(sdk, coin, None, puzzle, solution)
      case NoArm => None
  }

  predicate AllAdmitted(sdk: Sdk, spends: seq<CoinSpend>) {
    forall spend :: spend in spends ==> EntryOf(sdk, spend).Some?
  }

  /** The book of a whole bundle. */
  function BookOf(sdk: Sdk, spends: seq<CoinSpend>): Book
    requires AllAdmitted(sdk, spends)
  {
    if spends == [] then EMPTY_BOOK
    else EntryOf(sdk, spends[0]).value.Plus(BookOf(sdk, spends[1..]))
  }

  lemma PlusAssociative(a: Book, b: Book, c: Book)
    ensures a.Plus(b).Plus(c) == a.Plus(b.Plus(c))
  {
    var left, right := a.Plus(b).Plus(c), a.Plus(b.Plus(c));
    assert left.spent == right.spent && left.created == right.created;
    assert left.melts == right.melts && left.operations == right.operations && left.bindings == right.bindings;
    assert left.launches == right.launches && left.eveParents == right.eveParents;
    assert left.asserted == right.asserted;
  }

  lemma PlusEmpty(a: Book)
    ensures a.Plus(EMPTY_BOOK) == a && EMPTY_BOOK.Plus(a) == a
  {
    assert a.spent + [] == a.spent && a.created + [] == a.created && a.melts + [] == a.melts;
    assert a.operations + [] == a.operations && a.bindings + [] == a.bindings && a.launches + [] == a.launches;
    assert a.eveParents + [] == a.eveParents && a.asserted + {} == a.asserted;
  }

  lemma {:induction false} BookOfConcat(sdk: Sdk, a: seq<CoinSpend>, b: seq<CoinSpend>)
    requires AllAdmitted(sdk, a) && AllAdmitted(sdk, b)
    ensures AllAdmitted(sdk, a + b)
    ensures BookOf(sdk, a + b) == BookOf(sdk, a).Plus(BookOf(sdk, b))
  {
    if a == [] {
      assert a + b == b;
      PlusEmpty(BookOf(sdk, b));
    } else {
      assert (a + b)[1..] == a[1..] + b;
      BookOfConcat(sdk, a[1..], b);
      PlusAssociative(EntryOf(sdk, a[0]).value, BookOf(sdk, a[1..]), BookOf(sdk, b));
    }
  }
}
