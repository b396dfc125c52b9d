/** What the accounting arms admit, read off the conditions themselves: every arm's test and entry in terms of
    the puzzles, the lists and the coins, and of no helper the arm calls. */
module Reading {
  import opened Prelude
  import opened Clvm
  import opened Conditions
  import opened Settlement
  import opened Book

  // ---- lists ----

  /** A condition that makes, pays, signs, melts, announces or is unknown, rather than assert. */
  predicate Acts(c: Condition) {
    || c.CreateCoin? || c.ReserveFee? || c.AggSigMe? || c.NonMeAggSig? || c.MeltSingleton?
    || c.CreateCoinAnnouncement? || c.OtherCondition?
  }

  /** One AGG_SIG_ME stands in the list, and it signs this word. */
  ghost predicate SignsOnly(list: seq<Condition>, message: Bytes32) {
    exists i :: 0 <= i < |list| && list[i].AggSigMe? && list[i].message == message.bytes &&
                forall j :: 0 <= j < |list| && list[j].AggSigMe? ==> j == i
  }

  /** One CREATE_COIN stands in the list, and it pays this. */
  ghost predicate MakesOnly(list: seq<Condition>, hash: Bytes32, amount: U64) {
    exists i :: 0 <= i < |list| && list[i].CreateCoin? && list[i].puzzleHash == hash && list[i].amount == amount &&
                forall j :: 0 <= j < |list| && list[j].CreateCoin? ==> j == i
  }

  /** A quote of this list. */
  predicate Quotes(sdk: Sdk, puzzle: SExp, list: seq<Condition>) {
    puzzle.Pair? && puzzle.first == Atom([1]) && sdk.DecodeList(puzzle.rest) == Some(list)
  }

  lemma {:induction false} NoneSigns(list: seq<Condition>)
    ensures SignatureConditions(list) == [] <==> forall i :: 0 <= i < |list| ==> !list[i].AggSigMe?
  {
    if list != [] {
      NoneSigns(list[1..]);
      forall i | 1 <= i < |list| ensures list[i] == list[1..][i - 1] {
      }
    }
  }

  lemma {:induction false} SoleMessageReads(list: seq<Condition>, message: Bytes32)
    ensures SoleMessage(list) == Some(message) <==> SignsOnly(list, message)
  {
    if list != [] {
      var rest := list[1..];
      NoneSigns(rest);
      if list[0].AggSigMe? {
        assert SignatureConditions(list) == [list[0]] + SignatureConditions(rest);
        SignsFirst(list, message);
      } else {
        assert SignatureConditions(list) == SignatureConditions(rest);
        SoleMessageReads(rest, message);
        SignsLater(list, message);
      }
    }
  }

  lemma SignsFirst(list: seq<Condition>, message: Bytes32)
    requires list != [] && list[0].AggSigMe?
    ensures SignsOnly(list, message) <==>
            list[0].message == message.bytes && forall i :: 0 <= i < |list[1..]| ==> !list[1..][i].AggSigMe?
  {
    forall i | 0 <= i < |list| - 1 ensures list[1..][i] == list[i + 1] {
    }
    if SignsOnly(list, message) {
      forall i | 0 <= i < |list[1..]| ensures !list[1..][i].AggSigMe? {
        assert list[1..][i] == list[i + 1];
      }
    }
  }

  lemma SignsLater(list: seq<Condition>, message: Bytes32)
    requires list != [] && !list[0].AggSigMe?
    ensures SignsOnly(list, message) <==> SignsOnly(list[1..], message)
  {
    var rest := list[1..];
    if i :| 0 <= i < |list| && list[i].AggSigMe? && list[i].message == message.bytes &&
            forall j :: 0 <= j < |list| && list[j].AggSigMe? ==> j == i
    {
      assert rest[i - 1] == list[i];
      forall j | 0 <= j < |rest| && rest[j].AggSigMe? ensures j == i - 1 {
        assert rest[j] == list[j + 1];
      }
    }
    if i :| 0 <= i < |rest| && rest[i].AggSigMe? && rest[i].message == message.bytes &&
            forall j :: 0 <= j < |rest| && rest[j].AggSigMe? ==> j == i
    {
      assert list[i + 1] == rest[i];
      forall j | 0 <= j < |list| && list[j].AggSigMe? ensures j == i + 1 {
        assert list[j] == rest[j - 1];
      }
    }
  }

  lemma {:induction false} NoneMakes(list: seq<Condition>, asset: Option<Bytes32>)
    ensures Creates(list, asset) == [] <==> forall i :: 0 <= i < |list| ==> !list[i].CreateCoin?
  {
    if list != [] {
      NoneMakes(list[1..], asset);
      forall i | 1 <= i < |list| ensures list[i] == list[1..][i - 1] {
      }
    }
  }

  lemma {:induction false} OneCreateReads(list: seq<Condition>, hash: Bytes32, amount: U64, asset: Option<Bytes32>)
    ensures Creates(list, asset) == [DecodedOutput(hash, amount, asset)] <==> MakesOnly(list, hash, amount)
  {
    if list != [] {
      var rest := list[1..];
      NoneMakes(rest, asset);
      if list[0].CreateCoin? {
        var first := DecodedOutput(list[0].puzzleHash, list[0].amount, asset);
        assert Creates(list, asset) == [first] + Creates(rest, asset);
        assert Creates(list, asset)[0] == first && Creates(list, asset)[1..] == Creates(rest, asset);
        assert Creates(list, asset) == [DecodedOutput(hash, amount, asset)] <==>
               Creates(rest, asset) == [] && first == DecodedOutput(hash, amount, asset);
        MakesFirst(list, hash, amount);
      } else {
        assert Creates(list, asset) == Creates(rest, asset);
        OneCreateReads(rest, hash, amount, asset);
        MakesLater(list, hash, amount);
      }
    }
  }

  lemma MakesFirst(list: seq<Condition>, hash: Bytes32, amount: U64)
    requires list != [] && list[0].CreateCoin?
    ensures MakesOnly(list, hash, amount) <==>
            list[0].puzzleHash == hash && list[0].amount == amount &&
            forall i :: 0 <= i < |list[1..]| ==> !list[1..][i].CreateCoin?
  {
    forall i | 0 <= i < |list| - 1 ensures list[1..][i] == list[i + 1] {
    }
    if MakesOnly(list, hash, amount) {
      forall i | 0 <= i < |list[1..]| ensures !list[1..][i].CreateCoin? {
        assert list[1..][i] == list[i + 1];
      }
    }
  }

  lemma MakesLater(list: seq<Condition>, hash: Bytes32, amount: U64)
    requires list != [] && !list[0].CreateCoin?
    ensures MakesOnly(list, hash, amount) <==> MakesOnly(list[1..], hash, amount)
  {
    var rest := list[1..];
    if i :| 0 <= i < |list| && list[i].CreateCoin? && list[i].puzzleHash == hash && list[i].amount == amount &&
            forall j :: 0 <= j < |list| && list[j].CreateCoin? ==> j == i
    {
      assert rest[i - 1] == list[i];
      forall j | 0 <= j < |rest| && rest[j].CreateCoin? ensures j == i - 1 {
        assert rest[j] == list[j + 1];
      }
    }
    if i :| 0 <= i < |rest| && rest[i].CreateCoin? && rest[i].puzzleHash == hash && rest[i].amount == amount &&
            forall j :: 0 <= j < |rest| && rest[j].CreateCoin? ==> j == i
    {
      assert list[i + 1] == rest[i];
      forall j | 0 <= j < |list| && list[j].CreateCoin? ensures j == i + 1 {
        assert list[j] == rest[j - 1];
      }
    }
  }

  /** Each list of permitted conditions, in terms of what it excludes. */
  lemma AllowlistsRead(c: Condition)
    ensures TransferPermits(c) <==> c.CreateCoin? || c.AggSigMe? || !Acts(c)
    ensures RehomePermits(c, NftOuter) <==> c.CreateCoin? || c.AggSigMe? || !Acts(c)
    ensures RehomePermits(c, NftSigned) <==> c.CreateCoin? || !Acts(c)
    ensures RehomePermits(c, NftEve) <==> c.CreateCoin? || !Acts(c)
    ensures RehomePermits(c, Launcher) <==> c.CreateCoin? || c.CreateCoinAnnouncement? || !Acts(c)
    ensures MeltPermits(c, Presented) <==> c.AggSigMe? || c.MeltSingleton? || !Acts(c)
    ensures MeltPermits(c, Signed) <==> c.MeltSingleton? || !Acts(c)
  {
  }

  predicate Free(sdk: Sdk, hash: Bytes32) {
    hash != sdk.settlementHash && hash != sdk.launcherHash
  }

  /** The re-home a list performs: one coin, of odd amount, at a free hash. */
  ghost predicate Rehomes(sdk: Sdk, list: seq<Condition>, hash: Bytes32, amount: U64) {
    MakesOnly(list, hash, amount) && amount % 2 == 1 && Free(sdk, hash)
  }

  lemma RehomeReads(sdk: Sdk, list: seq<Condition>, hash: Bytes32)
    ensures RehomeDestination(sdk, list) == Some(hash) <==> exists amount :: Rehomes(sdk, list, hash, amount)
  {
    var created := Creates(list, None);
    if RehomeDestination(sdk, list) == Some(hash) {
      AssetOf(list, None);
      assert created == [DecodedOutput(hash, created[0].amount, None)];
      OneCreateReads(list, hash, created[0].amount, None);
      assert Rehomes(sdk, list, hash, created[0].amount);
    }
    if amount :| Rehomes(sdk, list, hash, amount) {
      OneCreateReads(list, hash, amount, None);
    }
  }

  lemma {:induction false} AssetOf(list: seq<Condition>, asset: Option<Bytes32>)
    ensures forall o :: o in Creates(list, asset) ==> o.assetId == asset
  {
    if list != [] {
      AssetOf(list[1..], asset);
    }
  }

  lemma SingleCreateReads(list: seq<Condition>)
    ensures SingleOddCreate(list) <==> exists hash, amount :: MakesOnly(list, hash, amount) && amount % 2 == 1
    ensures forall hash, amount :: MakesOnly(list, hash, amount) ==>
              Creates(list, None) == [DecodedOutput(hash, amount, None)]
  {
    var created := Creates(list, None);
    if SingleOddCreate(list) {
      AssetOf(list, None);
      assert created == [DecodedOutput(created[0].puzzleHash, created[0].amount, None)];
      OneCreateReads(list, created[0].puzzleHash, created[0].amount, None);
    }
    forall hash, amount | MakesOnly(list, hash, amount) ensures created == [DecodedOutput(hash, amount, None)] {
      OneCreateReads(list, hash, amount, None);
    }
  }

  // ---- the conditions a spend is judged by ----

  function Ran(sdk: Sdk, puzzle: SExp, solution: SExp): seq<Condition> {
    match sdk.RunConditions(puzzle, solution)
    case None => []
    case Some(list) => list
  }

  /** The conditions the coin's arm reads: inside a CAT or an option the inner ones, else what the coin emits. */
  function Judged(sdk: Sdk, spend: CoinSpend): seq<Condition> {
    match ArmFor(sdk, spend)
    case CatArm(cat) => Ran(sdk, cat.p2Puzzle, cat.p2Solution)
    case OptionArm(option) => Ran(sdk, option.p2Puzzle, option.p2Solution)
    case NoArm => []
    case _ => Ran(sdk, spend.puzzleReveal.value, spend.solution.value)
  }

  // ---- the arms ----

  /** Whatever arm admits a spend, its reveal is the puzzle the coin commits to. */
  lemma AdmittedRevealHashes(sdk: Sdk, spend: CoinSpend)
    requires EntryOf(sdk, spend).Some?
    ensures spend.puzzleReveal.Some? && spend.solution.Some?
    ensures sdk.treeHash(spend.puzzleReveal.value) == spend.coin.puzzleHash
  {
  }

  /** The puzzle a standard layer signs in this solution: a quote of this list. */
  predicate Delegated(sdk: Sdk, solution: SExp, program: SExp, list: seq<Condition>) {
    && sdk.parseStandardSolution(solution).Some?
    && sdk.parseStandardSolution(solution).value.delegatedPuzzle == program
    && Quotes(sdk, program, list)
  }

  lemma CommittedReads(sdk: Sdk, solution: SExp, program: SExp, list: seq<Condition>)
    ensures Delegated(sdk, solution, program, list) ==>
              CommittedStandardSpend(sdk, solution) == Some(CommittedSpend(sdk.treeHash(program), list))
    ensures CommittedStandardSpend(sdk, solution).Some? ==>
              exists p, l :: Delegated(sdk, solution, p, l)
  {
    if CommittedStandardSpend(sdk, solution).Some? {
      var p := sdk.parseStandardSolution(solution).value.delegatedPuzzle;
      assert Delegated(sdk, solution, p, CommittedStandardSpend(sdk, solution).value.conditions);
    }
  }

  /** What is read of an NFT transfer: the program signed and its list, the new owner it pays, and the outer
      conditions with the one coin they make. */
  datatype Transferred = Transferred(program: SExp, signed: seq<Condition>, owner: Bytes32, ownerAmount: U64,
                                     outer: seq<Condition>, hash: Bytes32, amount: U64)

  ghost predicate TransferReads(sdk: Sdk, nft: NftView, puzzle: SExp, solution: SExp, r: Transferred) {
    && sdk.parseStandard(nft.p2Puzzle).Found?
    && Delegated(sdk, nft.p2Solution, r.program, r.signed)
    && (forall c :: c in r.signed ==> c.CreateCoin? || !Acts(c))
    && Rehomes(sdk, r.signed, r.owner, r.ownerAmount)
    && sdk.RunConditions(puzzle, solution) == Some(r.outer)
    && (forall c :: c in r.outer ==> c.CreateCoin? || c.AggSigMe? || !Acts(c))
    && SignsOnly(r.outer, sdk.treeHash(r.program))
    && MakesOnly(r.outer, r.hash, r.amount) && r.amount % 2 == 1
  }

  function TransferBook(coin: Coin, nft: NftView, r: Transferred): Book {
    EMPTY_BOOK.(spent := [DecodedOutput(coin.puzzleHash, coin.amount, None)],
                created := [DecodedOutput(r.hash, r.amount, None)],
                operations := [Transfer(nft.launcherId, r.owner)])
  }

  /** An NFT transfer is admitted exactly when its signed list re-homes it to a free owner and else only asserts,
      and the outer list adds the one signature over that list; its entry names that owner. */
  lemma TransferExactly(sdk: Sdk, coin: Coin, nft: NftView, puzzle: SExp, solution: SExp)
    ensures NftTransferEntry(sdk, coin, nft, puzzle, solution).Some? <==>
            exists r :: TransferReads(sdk, nft, puzzle, solution, r)
    ensures forall r :: TransferReads(sdk, nft, puzzle, solution, r) ==>
              NftTransferEntry(sdk, coin, nft, puzzle, solution) == Some(TransferBook(coin, nft, r))
  {
    forall r | TransferReads(sdk, nft, puzzle, solution, r)
      ensures NftTransferEntry(sdk, coin, nft, puzzle, solution) == Some(TransferBook(coin, nft, r))
    {
      TransferEnters(sdk, coin, nft, puzzle, solution, r);
    }
    if NftTransferEntry(sdk, coin, nft, puzzle, solution).Some? {
      var r := TransferRead(sdk, coin, nft, puzzle, solution);
    }
  }

  lemma TransferEnters(sdk: Sdk, coin: Coin, nft: NftView, puzzle: SExp, solution: SExp, r: Transferred)
    requires TransferReads(sdk, nft, puzzle, solution, r)
    ensures NftTransferEntry(sdk, coin, nft, puzzle, solution) == Some(TransferBook(coin, nft, r))
  {
    CommittedReads(sdk, nft.p2Solution, r.program, r.signed);
    RehomeReads(sdk, r.signed, r.owner);
    SoleMessageReads(r.outer, sdk.treeHash(r.program));
    SingleCreateReads(r.outer);
    forall c | c in r.signed ensures RehomePermits(c, NftSigned) { AllowlistsRead(c); }
    forall c | c in r.outer ensures RehomePermits(c, NftOuter) { AllowlistsRead(c); }
  }

  lemma TransferRead(sdk: Sdk, coin: Coin, nft: NftView, puzzle: SExp, solution: SExp) returns (r: Transferred)
    requires NftTransferEntry(sdk, coin, nft, puzzle, solution).Some?
    ensures TransferReads(sdk, nft, puzzle, solution, r)
  {
    var committed := CommittedStandardSpend(sdk, nft.p2Solution).value;
    var program := sdk.parseStandardSolution(nft.p2Solution).value.delegatedPuzzle;
    var owner, outer := RehomeDestination(sdk, committed.conditions).value, sdk.RunConditions(puzzle, solution).value;
    RehomeReads(sdk, committed.conditions, owner);
    var ownerAmount :| Rehomes(sdk, committed.conditions, owner, ownerAmount);
    SoleMessageReads(outer, sdk.treeHash(program));
    SingleCreateReads(outer);
    var hash, amount :| MakesOnly(outer, hash, amount) && amount % 2 == 1;
    forall c | c in committed.conditions ensures c.CreateCoin? || !Acts(c) { AllowlistsRead(c); }
    forall c | c in outer ensures c.CreateCoin? || c.AggSigMe? || !Acts(c) { AllowlistsRead(c); }
    r := Transferred(program, committed.conditions, owner, ownerAmount, outer, hash, amount);
  }

  // The other arms, each against its own reading.

  datatype Moved = Moved(program: SExp, signed: seq<Condition>, list: seq<Condition>, hash: Bytes32, amount: U64)

  ghost predicate OptionReads(sdk: Sdk, puzzle: SExp, solution: SExp, r: Moved) {
    && sdk.parseStandard(puzzle).Found?
    && Delegated(sdk, solution, r.program, r.signed)
    && sdk.RunConditions(puzzle, solution) == Some(r.list)
    && SignsOnly(r.list, sdk.treeHash(r.program))
    && (forall c :: c in r.list ==> c.CreateCoin? || c.AggSigMe? || !Acts(c))
    && Rehomes(sdk, r.list, r.hash, r.amount)
  }

  /** An option coin moves exactly when its one signature is over a quote and what it emits re-homes it to a
      free hash and else only asserts. */
  lemma OptionExactly(sdk: Sdk, coin: Coin, puzzle: SExp, solution: SExp)
    ensures OptionEntry(sdk, coin, puzzle, solution).Some? <==> exists r :: OptionReads(sdk, puzzle, solution, r)
    ensures forall r :: OptionReads(sdk, puzzle, solution, r) ==>
              OptionEntry(sdk, coin, puzzle, solution) ==
              Some(EMPTY_BOOK.(spent := [DecodedOutput(coin.puzzleHash, coin.amount, None)],
                               created := [DecodedOutput(r.hash, r.amount, None)]))
  {
    forall r | OptionReads(sdk, puzzle, solution, r)
      ensures OptionEntry(sdk, coin, puzzle, solution) ==
              Some(EMPTY_BOOK.(spent := [DecodedOutput(coin.puzzleHash, coin.amount, None)],
                               created := [DecodedOutput(r.hash, r.amount, None)]))
    {
      CommittedReads(sdk, solution, r.program, r.signed);
      RehomeReads(sdk, r.list, r.hash);
      SoleMessageReads(r.list, sdk.treeHash(r.program));
      SingleCreateReads(r.list);
      forall c | c in r.list ensures TransferPermits(c) { AllowlistsRead(c); }
    }
    if OptionEntry(sdk, coin, puzzle, solution).Some? {
      var r := OptionRead(sdk, coin, puzzle, solution);
    }
  }

  lemma OptionRead(sdk: Sdk, coin: Coin, puzzle: SExp, solution: SExp) returns (r: Moved)
    requires OptionEntry(sdk, coin, puzzle, solution).Some?
    ensures OptionReads(sdk, puzzle, solution, r)
  {
    var signed := CommittedStandardSpend(sdk, solution).value.conditions;
    var program := sdk.parseStandardSolution(solution).value.delegatedPuzzle;
    var list := sdk.RunConditions(puzzle, solution).value;
    var hash := RehomeDestination(sdk, list).value;
    SoleMessageReads(list, sdk.treeHash(program));
    RehomeReads(sdk, list, hash);
    var amount :| Rehomes(sdk, list, hash, amount);
    forall c | c in list ensures c.CreateCoin? || c.AggSigMe? || !Acts(c) { AllowlistsRead(c); }
    r := Moved(program, signed, list, hash, amount);
  }

  datatype Settled = Settled(quoted: seq<Condition>, owner: Bytes32, ownerAmount: U64, outer: seq<Condition>,
                             hash: Bytes32, amount: U64)

  ghost predicate EveReads(sdk: Sdk, nft: NftView, puzzle: SExp, solution: SExp, r: Settled) {
    && Quotes(sdk, nft.p2Puzzle, r.quoted)
    && (forall c :: c in r.quoted ==> c.CreateCoin? || !Acts(c))
    && Rehomes(sdk, r.quoted, r.owner, r.ownerAmount)
    && sdk.RunConditions(puzzle, solution) == Some(r.outer)
    && (forall c :: c in r.outer ==> c.CreateCoin? || !Acts(c))
    && MakesOnly(r.outer, r.hash, r.amount) && r.amount % 2 == 1
  }

  function EveBook(coin: Coin, nft: NftView, r: Settled): Book {
    EMPTY_BOOK.(spent := [DecodedOutput(coin.puzzleHash, coin.amount, None)],
                created := [DecodedOutput(r.hash, r.amount, None)],
                operations := [Mint(nft.launcherId, r.owner)], eveParents := [coin.parent])
  }

  /** An eve is admitted exactly when its own quote hands it to a free owner and it and the outer list else only
      assert. */
  lemma EveExactly(sdk: Sdk, coin: Coin, nft: NftView, puzzle: SExp, solution: SExp)
    ensures NftEveEntry(sdk, coin, nft, puzzle, solution).Some? <==> exists r :: EveReads(sdk, nft, puzzle, solution, r)
    ensures forall r :: EveReads(sdk, nft, puzzle, solution, r) ==>
              NftEveEntry(sdk, coin, nft, puzzle, solution) == Some(EveBook(coin, nft, r))
  {
    forall r | EveReads(sdk, nft, puzzle, solution, r)
      ensures NftEveEntry(sdk, coin, nft, puzzle, solution) == Some(EveBook(coin, nft, r))
    {
      RehomeReads(sdk, r.quoted, r.owner);
      SingleCreateReads(r.outer);
      forall c | c in r.quoted + r.outer ensures RehomePermits(c, NftEve) && !c.AggSigMe? && !c.NonMeAggSig? {
        AllowlistsRead(c);
      }
      assert forall c :: c in r.quoted || c in r.outer ==> c in r.quoted + r.outer;
    }
    if NftEveEntry(sdk, coin, nft, puzzle, solution).Some? {
      var r := EveRead(sdk, coin, nft, puzzle, solution);
    }
  }

  lemma EveRead(sdk: Sdk, coin: Coin, nft: NftView, puzzle: SExp, solution: SExp) returns (r: Settled)
    requires NftEveEntry(sdk, coin, nft, puzzle, solution).Some?
    ensures EveReads(sdk, nft, puzzle, solution, r)
  {
    var quoted, outer := ProveQuoted(sdk, nft.p2Puzzle).value, sdk.RunConditions(puzzle, solution).value;
    var owner := RehomeDestination(sdk, quoted).value;
    RehomeReads(sdk, quoted, owner);
    var ownerAmount :| Rehomes(sdk, quoted, owner, ownerAmount);
    SingleCreateReads(outer);
    var hash, amount :| MakesOnly(outer, hash, amount) && amount % 2 == 1;
    forall c | c in quoted ensures c.CreateCoin? || !Acts(c) { AllowlistsRead(c); }
    forall c | c in outer ensures c.CreateCoin? || !Acts(c) { AllowlistsRead(c); }
    r := Settled(quoted, owner, ownerAmount, outer, hash, amount);
  }

  ghost predicate LaunchReads(sdk: Sdk, puzzle: SExp, solution: SExp, list: seq<Condition>, hash: Bytes32,
                              amount: U64)
  {
    && sdk.RunConditions(puzzle, solution) == Some(list)
    && (forall c :: c in list ==> c.CreateCoin? || c.CreateCoinAnnouncement? || !Acts(c))
    && MakesOnly(list, hash, amount) && amount % 2 == 1
  }

  /** A launcher is admitted exactly when it makes one coin, of odd amount, and else announces and asserts; what
      is recorded of it is its id, its parent and those announcements. */
  lemma LaunchExactly(sdk: Sdk, coin: Coin, puzzle: SExp, solution: SExp)
    ensures LaunchEntry(sdk, coin, puzzle, solution).Some? <==>
            exists list, hash, amount :: LaunchReads(sdk, puzzle, solution, list, hash, amount)
    ensures forall list, hash, amount :: LaunchReads(sdk, puzzle, solution, list, hash, amount) ==>
              exists announced ::
                && LaunchEntry(sdk, coin, puzzle, solution) ==
                   Some(EMPTY_BOOK.(spent := [DecodedOutput(coin.puzzleHash, coin.amount, None)],
                                    created := [DecodedOutput(hash, amount, None)],
                                    launches := [Launch(sdk.coinId(coin), coin.parent, announced)]))
                && AnnouncedBy(sdk, coin, list, announced)
  {
    forall list, hash, amount | LaunchReads(sdk, puzzle, solution, list, hash, amount)
      ensures LaunchEntry(sdk, coin, puzzle, solution) ==
              Some(EMPTY_BOOK.(spent := [DecodedOutput(coin.puzzleHash, coin.amount, None)],
                               created := [DecodedOutput(hash, amount, None)],
                               launches := [Launch(sdk.coinId(coin), coin.parent,
                                                   Announced(sdk, sdk.coinId(coin), list))]))
      ensures AnnouncedBy(sdk, coin, list, Announced(sdk, sdk.coinId(coin), list))
    {
      SingleCreateReads(list);
      forall c | c in list ensures RehomePermits(c, Launcher) && !c.AggSigMe? && !c.NonMeAggSig? {
        AllowlistsRead(c);
      }
      AnnouncedReads(sdk, coin, list);
    }
    if LaunchEntry(sdk, coin, puzzle, solution).Some? {
      var list := sdk.RunConditions(puzzle, solution).value;
      SingleCreateReads(list);
      var hash, amount :| MakesOnly(list, hash, amount) && amount % 2 == 1;
      forall c | c in list ensures c.CreateCoin? || c.CreateCoinAnnouncement? || !Acts(c) { AllowlistsRead(c); }
      assert LaunchReads(sdk, puzzle, solution, list, hash, amount);
    }
  }

  /** The ids of exactly the announcements the coin makes. */
  ghost predicate AnnouncedBy(sdk: Sdk, coin: Coin, list: seq<Condition>, ids: seq<Bytes32>) {
    forall id :: id in ids <==>
      exists message :: CreateCoinAnnouncement(message) in list && sdk.announcementId(sdk.coinId(coin), message) == id
  }

  lemma {:induction false} AnnouncedReads(sdk: Sdk, coin: Coin, list: seq<Condition>)
    ensures AnnouncedBy(sdk, coin, list, Announced(sdk, sdk.coinId(coin), list))
  {
    if list != [] {
      AnnouncedReads(sdk, coin, list[1..]);
      assert list == [list[0]] + list[1..];
      if list[0].CreateCoinAnnouncement? {
        assert CreateCoinAnnouncement(list[0].announced) in list;
      }
    }
  }

  datatype Melted = Melted(presented: seq<Condition>, program: SExp, signed: seq<Condition>)

  ghost predicate MeltReads(sdk: Sdk, puzzle: SExp, solution: SExp, r: Melted) {
    && sdk.RunConditions(puzzle, solution) == Some(r.presented)
    && (forall c :: c in r.presented ==> c.AggSigMe? || c.MeltSingleton? || !Acts(c))
    && SignsOnly(r.presented, sdk.treeHash(r.program))
    && FindSubtree(sdk, solution, sdk.treeHash(r.program), 0) == Some(r.program)
    && Quotes(sdk, r.program, r.signed)
    && (forall c :: c in r.signed ==> c.MeltSingleton? || !Acts(c))
    && multiset(r.signed)[MeltSingleton] == 1
  }

  function MeltBook(sdk: Sdk, coin: Coin): Book {
    EMPTY_BOOK.(spent := [DecodedOutput(coin.puzzleHash, coin.amount, None)], melted := coin.amount,
                melts := [sdk.coinId(coin)])
  }

  /** A singleton is melted exactly when its one signature is over a quote in its solution that melts once, and
      neither list does anything else but assert. */
  lemma MeltExactly(sdk: Sdk, coin: Coin, puzzle: SExp, solution: SExp)
    ensures MeltEntry(sdk, coin, puzzle, solution).Some? <==> exists r :: MeltReads(sdk, puzzle, solution, r)
    ensures MeltEntry(sdk, coin, puzzle, solution).Some? ==>
              MeltEntry(sdk, coin, puzzle, solution) == Some(MeltBook(sdk, coin))
  {
    forall r | MeltReads(sdk, puzzle, solution, r) ensures MeltAuthorized(sdk, puzzle, solution) {
      SoleMessageReads(r.presented, sdk.treeHash(r.program));
      MarkersCounted(r.signed);
      forall c | c in r.presented ensures MeltPermits(c, Presented) { AllowlistsRead(c); }
      forall c | c in r.signed ensures MeltPermits(c, Signed) { AllowlistsRead(c); }
    }
    if MeltAuthorized(sdk, puzzle, solution) {
      var presented := sdk.RunConditions(puzzle, solution).value;
      var message := SoleMessage(presented).value;
      var program := FindSubtree(sdk, solution, message, 0).value;
      FindSubtreeSound(sdk, solution, message, 0);
      var signed := ProveQuoted(sdk, program).value;
      SoleMessageReads(presented, message);
      MarkersCounted(signed);
      forall c | c in presented ensures c.AggSigMe? || c.MeltSingleton? || !Acts(c) { AllowlistsRead(c); }
      forall c | c in signed ensures c.MeltSingleton? || !Acts(c) { AllowlistsRead(c); }
      assert MeltReads(sdk, puzzle, solution, Melted(presented, program, signed));
    }
  }

  lemma {:induction false} MarkersCounted(list: seq<Condition>)
    ensures Melts(list) == multiset(list)[MeltSingleton]
  {
    if list != [] {
      MarkersCounted(list[1..]);
      assert list == [list[0]] + list[1..];
    }
  }

  datatype Sent = Sent(program: SExp, signed: seq<Condition>, list: seq<Condition>)

  ghost predicate SendReads(sdk: Sdk, puzzle: SExp, solution: SExp, r: Sent) {
    && Delegated(sdk, solution, r.program, r.signed)
    && sdk.RunConditions(puzzle, solution) == Some(r.list)
    && SignsOnly(r.list, sdk.treeHash(r.program))
    && forall c :: c in r.list ==> !c.NonMeAggSig?
  }

  /** A send, of XCH or of a CAT, is admitted exactly when its one signature is over a quote and it asks for no
      other kind of signature. */
  lemma SendExactly(sdk: Sdk, coin: Coin, asset: Option<Bytes32>, puzzle: SExp, solution: SExp)
    ensures SendEntry(sdk, coin, asset, puzzle, solution).Some? <==> exists r :: SendReads(sdk, puzzle, solution, r)
  {
    forall r | SendReads(sdk, puzzle, solution, r) ensures SendEntry(sdk, coin, asset, puzzle, solution).Some? {
      CommittedReads(sdk, solution, r.program, r.signed);
      SoleMessageReads(r.list, sdk.treeHash(r.program));
    }
    if SendEntry(sdk, coin, asset, puzzle, solution).Some? {
      var program := sdk.parseStandardSolution(solution).value.delegatedPuzzle;
      var list := sdk.RunConditions(puzzle, solution).value;
      SoleMessageReads(list, sdk.treeHash(program));
      assert SendReads(sdk, puzzle, solution,
                       Sent(program, CommittedStandardSpend(sdk, solution).value.conditions, list));
    }
  }

  /** A settlement coin is claimed exactly when it runs and asks for no signature of any kind. */
  lemma ClaimExactly(sdk: Sdk, coin: Coin, asset: Option<Bytes32>, puzzle: SExp, solution: SExp)
    ensures ClaimEntry(sdk, coin, asset, puzzle, solution).Some? <==>
            exists list: seq<Condition> :: sdk.RunConditions(puzzle, solution) == Some(list) &&
                           forall c :: c in list ==> !c.AggSigMe? && !c.NonMeAggSig?
  {
  }

  // ---- the whole test ----

  ghost predicate Sends(sdk: Sdk, puzzle: SExp, solution: SExp) {
    exists r :: SendReads(sdk, puzzle, solution, r)
  }

  ghost predicate Claims(sdk: Sdk, puzzle: SExp, solution: SExp) {
    exists list: seq<Condition> ::
      sdk.RunConditions(puzzle, solution) == Some(list) && forall c :: c in list ==> !c.AggSigMe? && !c.NonMeAggSig?
  }

  ghost predicate Launches(sdk: Sdk, puzzle: SExp, solution: SExp) {
    exists list, hash, amount :: LaunchReads(sdk, puzzle, solution, list, hash, amount)
  }

  /** A CAT is judged inside: a settlement coin claimed, or a standard send. */
  ghost predicate CatMoves(sdk: Sdk, cat: CatView) {
    || (sdk.parseSettlement(cat.p2Puzzle).Found? && Claims(sdk, cat.p2Puzzle, cat.p2Solution))
    || (&& sdk.parseSettlement(cat.p2Puzzle).Absent? && sdk.parseStandard(cat.p2Puzzle).Found?
        && Sends(sdk, cat.p2Puzzle, cat.p2Solution))
  }

  ghost predicate NftMoves(sdk: Sdk, nft: NftView, puzzle: SExp, solution: SExp) {
    if nft.proof.EveProof? then exists r :: EveReads(sdk, nft, puzzle, solution, r)
    else exists r :: TransferReads(sdk, nft, puzzle, solution, r)
  }

  /** A coin that is neither CAT, option, one-of-many, launcher nor NFT: a melt, a send or a claim. */
  ghost predicate PlainMoves(sdk: Sdk, puzzle: SExp, solution: SExp) {
    if sdk.isSingleton(puzzle) then exists r :: MeltReads(sdk, puzzle, solution, r)
    else
      || (sdk.parseStandard(puzzle).Found? && Sends(sdk, puzzle, solution))
      || (&& sdk.parseStandard(puzzle).Absent? && sdk.parseSettlement(puzzle).Found?
          && Claims(sdk, puzzle, solution))
  }

  /** The spend of a coin, by the first layer its puzzle turns out to be. A layer that fails to parse refuses. */
  ghost predicate Moves(sdk: Sdk, coin: Coin, puzzle: SExp, solution: SExp) {
    var cat, option := sdk.parseCat(coin, puzzle, solution), sdk.parseOption(coin, puzzle, solution);
    var nft := sdk.parseNft(coin, puzzle, solution);
    || (cat.Found? && CatMoves(sdk, cat.value))
    || (cat.Absent? && option.Found? && OptionMoves(sdk, option.value))
    || (&& cat.Absent? && option.Absent? && sdk.parseOneOfMany(puzzle).Absent?
        && if coin.puzzleHash == sdk.launcherHash then Launches(sdk, puzzle, solution)
           else || (nft.Found? && NftMoves(sdk, nft.value, puzzle, solution))
                || (nft.Absent? && PlainMoves(sdk, puzzle, solution)))
  }

  lemma CatExactly(sdk: Sdk, coin: Coin, cat: CatView)
    ensures CatEntry(sdk, coin, cat).Some? <==> CatMoves(sdk, cat)
  {
    ClaimExactly(sdk, coin, Some(cat.assetId), cat.p2Puzzle, cat.p2Solution);
    SendExactly(sdk, coin, Some(cat.assetId), cat.p2Puzzle, cat.p2Solution);
  }

  /** The entry of the arm a coin that is no CAT and no option takes. */
  lemma LaterExactly(sdk: Sdk, spend: CoinSpend)
    requires spend.puzzleReveal.Some? && spend.solution.Some?
    ensures var coin, puzzle, solution := spend.coin, spend.puzzleReveal.value, spend.solution.value;
            match ArmFor(sdk, spend)
            case LaunchArm => EntryOf(sdk, spend).Some? <==> Launches(sdk, puzzle, solution)
            case NftTransferArm(nft) => EntryOf(sdk, spend).Some? <==> NftMoves(sdk, nft, puzzle, solution)
            case NftEveArm(nft) => EntryOf(sdk, spend).Some? <==> NftMoves(sdk, nft, puzzle, solution)
            case MeltArm => EntryOf(sdk, spend).Some? <==> PlainMoves(sdk, puzzle, solution)
            case StandardArm => EntryOf(sdk, spend).Some? <==> PlainMoves(sdk, puzzle, solution)
            case SettlementArm => EntryOf(sdk, spend).Some? <==> PlainMoves(sdk, puzzle, solution)
            case _ => true
  {
    var coin, puzzle, solution := spend.coin, spend.puzzleReveal.value, spend.solution.value;
    match ArmFor(sdk, spend)
    case LaunchArm => LaunchExactly(sdk, coin, puzzle, solution);
    case NftTransferArm(nft) => TransferExactly(sdk, coin, nft, puzzle, solution);
    case NftEveArm(nft) => EveExactly(sdk, coin, nft, puzzle, solution);
    case MeltArm => MeltExactly(sdk, coin, puzzle, solution);
    case StandardArm => SendExactly(sdk, coin, None, puzzle, solution);
    case SettlementArm => ClaimExactly(sdk, coin, None, puzzle, solution);
    case _ =>
  }

  ghost predicate OptionMoves(sdk: Sdk, option: OptionView) {
    exists r :: OptionReads(sdk, option.p2Puzzle, option.p2Solution, r)
  }

  /** A coin spend is admitted exactly when it decodes, its reveal hashes to the coin, and it moves as the first
      layer it is says it may. */
  lemma AdmittedExactly(sdk: Sdk, spend: CoinSpend)
    ensures EntryOf(sdk, spend).Some? <==>
            && spend.puzzleReveal.Some? && spend.solution.Some?
            && sdk.treeHash(spend.puzzleReveal.value) == spend.coin.puzzleHash
            && Moves(sdk, spend.coin, spend.puzzleReveal.value, spend.solution.value)
  {
    if spend.puzzleReveal.Some? && spend.solution.Some? {
      var coin, puzzle, solution := spend.coin, spend.puzzleReveal.value, spend.solution.value;
      match ArmOf(sdk, coin, puzzle, solution)
      case CatArm(cat) => CatExactly(sdk, coin, cat);
      case OptionArm(option) => OptionExactly(sdk, coin, option.p2Puzzle, option.p2Solution);
      case _ => LaterExactly(sdk, spend);
    }
  }
}
