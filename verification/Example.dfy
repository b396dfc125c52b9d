/** The laws can be met: a small interpreter, codec and kit that satisfy every hypothesis the other
    modules take. */
module Example {
  import opened Prelude
  import opened Clvm
  import opened Conditions
  import opened Book
  import opened Text
  import opened Gate
  import opened Commitments
  import opened Signing
  import opened Building

  /** The word that repeats one byte. */
  function Filled(b: Byte): Bytes32 {
    Word(seq(32, _ => b))
  }

  lemma FilledDiffer(a: Byte, b: Byte)
    requires a != b
    ensures Filled(a) != Filled(b)
  {
    assert Filled(a).bytes[0] != Filled(b).bytes[0];
  }

  // ---- the interpreter ----

  const KEY := PublicKey([])
  const STANDARD := Atom([9])
  const LAUNCHER := Atom([8])

  /** A puzzle tagged as a quote (1), a layer, which is a CAT (2), an NFT (3), an option (4), an eve NFT (5) or
      a singleton (6), or a CAT whose TAIL signs (7). */
  predicate IsTagged(puzzle: SExp, tag: Byte) {
    puzzle.Pair? && puzzle.first == Atom([tag])
  }

  predicate IsLayer(puzzle: SExp) {
    puzzle.Pair? && puzzle.first.Atom? && |puzzle.first.bytes| == 1 && 2 <= puzzle.first.bytes[0] <= 6
  }

  function TreeHash(node: SExp): Bytes32 {
    if node == LAUNCHER then Filled(2) else if IsTagged(node, 1) then Filled(3) else Filled(0)
  }

  function CoinId(coin: Coin): Bytes32 {
    Filled((coin.parent.bytes[0] + 3 * coin.amount + 10) % 256)
  }

  /** A quote yields what it quotes; a layer runs what it wraps; the launcher emits its solution; a signing
      TAIL adds a signature; the standard puzzle signs for a delegated puzzle and runs it. */
  function Run(puzzle: SExp, solution: SExp): Option<SExp>
    decreases solution, puzzle
  {
    if IsTagged(puzzle, 1) then Some(puzzle.rest)
    else if IsLayer(puzzle) then Run(puzzle.rest, solution)
    else if puzzle == LAUNCHER then Some(solution)
    else if IsTagged(puzzle, 7) then
      match Run(puzzle.rest, solution)
      case None => None
      case Some(output) => Some(Pair(Encode(AggSigMe(KEY, [])), output))
    else if puzzle == STANDARD && solution.Pair? then
      match Run(solution.first, solution.rest)
      case None => None
      case Some(output) => Some(Pair(Encode(AggSigMe(KEY, TreeHash(solution.first).bytes)), output))
    else None
  }

  function Unary(n: nat): seq<Byte> {
    seq(n, _ => 0)
  }

  function Leaf(code: Byte, bytes: seq<Byte>): SExp {
    Pair(Atom([code]), Atom(bytes))
  }

  /** Amounts are in unary; a payment's memos follow its amount when it has any. */
  function Encode(c: Condition): SExp {
    match c
    case AggSigMe(_, message) => Leaf(50, message)
    case CreateCoin(puzzleHash, amount, memos) =>
      Pair(Atom([51]), Pair(Atom(puzzleHash.bytes), Pair(Atom(Unary(amount)),
        if memos.None? then Atom([]) else Pair(memos.value, Atom([])))))
    case ReserveFee(fee) => Leaf(52, Unary(fee))
    case MeltSingleton => Leaf(53, [])
    case CreateCoinAnnouncement(message) => Leaf(60, message)
    case AssertCoinAnnouncement(id) => Leaf(61, id.bytes)
    case AssertPuzzleAnnouncement(id) => Leaf(63, id.bytes)
    case AssertConcurrentSpend(id) => Leaf(64, id.bytes)
    case _ => Atom([])
  }

  function EncodeList(conditions: seq<Condition>): SExp {
    if conditions == [] then Atom([]) else Pair(Encode(conditions[0]), EncodeList(conditions[1..]))
  }

  function DecodePayment(arguments: SExp): Option<Condition> {
    match arguments
    case Pair(Atom(hash), Pair(Atom(amount), tail)) =>
      if |hash| != 32 || |amount| > U64_MAX then None
      else
        (match tail
         case Atom(_) => Some(CreateCoin(Word(hash), |amount|, None))
         case Pair(memos, _) => Some(CreateCoin(Word(hash), |amount|, Some(memos))))
    case _ => None
  }

  function DecodeLeaf(code: Byte, bytes: seq<Byte>): Option<Condition> {
    if code == 50 then Some(AggSigMe(KEY, bytes))
    else if code == 52 && |bytes| <= U64_MAX then Some(ReserveFee(|bytes|))
    else if code == 53 then Some(MeltSingleton)
    else if code == 60 then Some(CreateCoinAnnouncement(bytes))
    else if code == 61 && |bytes| == 32 then Some(AssertCoinAnnouncement(Word(bytes)))
    else if code == 63 && |bytes| == 32 then Some(AssertPuzzleAnnouncement(Word(bytes)))
    else if code == 64 && |bytes| == 32 then Some(AssertConcurrentSpend(Word(bytes)))
    else None
  }

  function DecodeOne(node: SExp): Option<Condition> {
    match node
    case Pair(Atom(code), arguments) =>
      if |code| != 1 then None
      else if code[0] == 51 then DecodePayment(arguments)
      else if arguments.Atom? then DecodeLeaf(code[0], arguments.bytes)
      else None
    case _ => None
  }

  function Decode(node: SExp): Option<seq<Condition>> {
    if node.Atom? then (if node.bytes == [] then Some([]) else None)
    else
      var first, rest := DecodeOne(node.first), Decode(node.rest);
      if first.None? || rest.None? then None else Some([first.value] + rest.value)
  }

  predicate Known(c: Condition) {
    || (c.AggSigMe? && c.publicKey == KEY)
    || c.CreateCoin? || c.ReserveFee? || c.MeltSingleton? || c.CreateCoinAnnouncement?
    || c.AssertCoinAnnouncement? || c.AssertPuzzleAnnouncement? || c.AssertConcurrentSpend?
  }

  lemma DecodesOne(c: Condition)
    requires Known(c)
    ensures DecodeOne(Encode(c)) == Some(c)
  {
    if c.CreateCoin? {
      assert Word(c.puzzleHash.bytes) == c.puzzleHash;
    }
  }

  lemma {:induction false} DecodesBack(conditions: seq<Condition>)
    requires forall c :: c in conditions ==> Known(c)
    ensures Decode(EncodeList(conditions)) == Some(conditions)
  {
    if conditions != [] {
      DecodesOne(conditions[0]);
      DecodesBack(conditions[1..]);
      assert conditions == [conditions[0]] + conditions[1..];
    }
  }

  function ParseCat(coin: Coin, puzzle: SExp, solution: SExp): Parse<CatView> {
    if IsTagged(puzzle, 2) || IsTagged(puzzle, 7) then Found(CatView(Filled(12), puzzle.rest, solution)) else Absent
  }

  function ParseNft(coin: Coin, puzzle: SExp, solution: SExp): Parse<NftView> {
    if IsTagged(puzzle, 3) then Found(NftView(Filled(13), LineageProof, puzzle.rest, solution))
    else if IsTagged(puzzle, 5) then Found(NftView(coin.parent, EveProof, puzzle.rest, solution))
    else Absent
  }

  function ParseOption(coin: Coin, puzzle: SExp, solution: SExp): Parse<OptionView> {
    if IsTagged(puzzle, 4) then Found(OptionView(puzzle.rest, solution)) else Absent
  }

  function ParseStandard(puzzle: SExp): Parse<PublicKey> {
    if puzzle == STANDARD then Found(KEY) else Absent
  }

  function ParseSolution(solution: SExp): Option<StandardSolution> {
    if solution.Pair? then Some(StandardSolution(None, solution.first, solution.rest)) else None
  }

  function SmallSdk(): Sdk {
    Sdk(TreeHash, CoinId, (coin: Bytes32, message: seq<Byte>) => coin, Run, Decode,
        ParseCat, ParseOption, (puzzle: SExp) => Absent, ParseNft, (puzzle: SExp) => IsTagged(puzzle, 6),
        ParseStandard, ParseSolution, (puzzle: SExp) => Absent, Filled(1), Filled(2))
  }

  lemma StandardHolds()
    ensures SmallSdk().QuoteLaw() && SmallSdk().StandardLaw()
  {
    var sdk := SmallSdk();
    forall puzzle: SExp, solution: SExp | sdk.StandardOf(puzzle).Found? && sdk.StandardSolutionOf(solution).Some?
      ensures var s := sdk.StandardSolutionOf(solution).value;
              sdk.RunConditions(puzzle, solution) ==
              match sdk.RunConditions(s.delegatedPuzzle, s.delegatedSolution)
                case None => None
                case Some(emitted) =>
                  Some([AggSigMe(sdk.StandardOf(puzzle).value, sdk.Hash(s.delegatedPuzzle).bytes)] + emitted)
    {
      var output, own := Run(solution.first, solution.rest), AggSigMe(KEY, TreeHash(solution.first).bytes);
      if output.Some? {
        assert Run(puzzle, solution) == Some(Pair(Encode(own), output.value));
        DecodesOne(own);
      }
    }
  }

  lemma LayersHold()
    ensures SmallSdk().LayerLaw()
  {
  }

  lemma NftsHold()
    ensures NftLaw(SmallSdk())
  {
    forall coin: Coin, puzzle: SExp, solution: SExp |
      SmallSdk().NftOf(coin, puzzle, solution).Found? && SmallSdk().RunConditions(puzzle, solution).Some?
      ensures NftHandsOn(SmallSdk(), SmallSdk().NftOf(coin, puzzle, solution).value,
                         SmallSdk().RunConditions(puzzle, solution).value)
    {
      LayerRuns(puzzle, solution);
    }
    forall coin: Coin, puzzle: SExp, s: SExp, t: SExp |
      SmallSdk().NftOf(coin, puzzle, s).Found? && SmallSdk().NftOf(coin, puzzle, t).Found?
      ensures NftCreatesAlike(SmallSdk(), puzzle, s, t, SmallSdk().NftOf(coin, puzzle, s).value,
                              SmallSdk().NftOf(coin, puzzle, t).value)
    {
      LayerRuns(puzzle, s);
      LayerRuns(puzzle, t);
    }
  }

  lemma LayerRuns(puzzle: SExp, solution: SExp)
    requires IsLayer(puzzle)
    ensures SmallSdk().RunConditions(puzzle, solution) == SmallSdk().RunConditions(puzzle.rest, solution)
  {
  }

  lemma SignaturesHandedOn(spend: CoinSpend)
    requires EntryOf(SmallSdk(), spend).Some? && !IsTagged(spend.puzzleReveal.value, 7)
    ensures KeepsSignatures(SmallSdk(), spend)
  {
    if ArmFor(SmallSdk(), spend).CatArm? || ArmFor(SmallSdk(), spend).OptionArm? {
      LayerRuns(spend.puzzleReveal.value, spend.solution.value);
    }
  }

  // ---- the codec ----

  function DigitOf(c: char): (n: int)
    ensures 0 <= n < 16
  {
    if '0' <= c <= '9' then (c - '0') as int else if 'a' <= c <= 'f' then 10 + (c - 'a') as int else 0
  }

  function Unhex(text: string): seq<Byte> {
    if |text| < 2 then [] else [16 * DigitOf(text[0]) + DigitOf(text[1])] + Unhex(text[2..])
  }

  lemma {:induction false} UnhexHex(bytes: seq<Byte>)
    ensures Unhex(Hex(bytes)) == bytes && |Hex(bytes)| == 2 * |bytes|
  {
    if bytes != [] {
      UnhexHex(bytes[1..]);
      assert Hex(bytes)[2..] == Hex(bytes[1..]);
      assert bytes == [bytes[0]] + bytes[1..];
    }
  }

  /** An address is its prefix, a separator and the hash in hex. */
  function Address(hash: Bytes32, prefix: string): string {
    prefix + "1" + Hex(hash.bytes)
  }

  function HashIn(address: string): Option<Bytes32> {
    if |address| < 64 || |Unhex(address[|address| - 64..])| != 32 then None
    else Some(Word(Unhex(address[|address| - 64..])))
  }

  function Codes(text: string): seq<int> {
    seq(|text|, i requires 0 <= i < |text| => text[i] as int)
  }

  lemma CodesInjective(a: string, b: string)
    requires Codes(a) == Codes(b)
    ensures a == b
  {
    assert |a| == |Codes(a)| == |Codes(b)| == |b|;
    forall i | 0 <= i < |a| ensures a[i] == b[i] {
      assert Codes(a)[i] == Codes(b)[i];
    }
  }

  /** The fixed part of a key, hash and amount; what follows it is the asset. */
  function KeyHead(key: ReviewKey): seq<int> {
    [if key.hash.None? then 0 else 1, key.amount, if key.asset.None? then 0 else 1]
    + (if key.hash.None? then seq(32, _ => 0) else key.hash.value.bytes)
  }

  function KeyCodes(key: ReviewKey): seq<int> {
    KeyHead(key) + if key.asset.None? then [] else Codes(key.asset.value)
  }

  lemma KeyCodesInjective(a: ReviewKey, b: ReviewKey)
    requires KeyCodes(a) == KeyCodes(b)
    ensures a == b
  {
    assert KeyCodes(a)[..35] == KeyHead(a) && KeyCodes(b)[..35] == KeyHead(b);
    assert KeyHead(a)[0] == KeyHead(b)[0] && KeyHead(a)[1] == KeyHead(b)[1] && KeyHead(a)[2] == KeyHead(b)[2];
    assert KeyHead(a)[3..] == KeyHead(b)[3..];
    if a.hash.Some? {
      assert KeyHead(a)[3..] == a.hash.value.bytes && KeyHead(b)[3..] == b.hash.value.bytes;
    }
    if a.asset.Some? {
      assert KeyCodes(a)[35..] == Codes(a.asset.value) && KeyCodes(b)[35..] == Codes(b.asset.value);
      CodesInjective(a.asset.value, b.asset.value);
    }
  }

  predicate TextLe(a: string, b: string) {
    LexLe(Codes(a), Codes(b))
  }

  predicate KeyLe(a: ReviewKey, b: ReviewKey) {
    LexLe(KeyCodes(a), KeyCodes(b))
  }

  function SmallCodec(): Codec {
    Codec(Address, HashIn, (text: string) => text, TextLe, KeyLe)
  }

  lemma TextOrdered()
    ensures TotalOrder(SmallCodec().textLe)
  {
    forall a: string, b: string ensures (TextLe(a, b) || TextLe(b, a)) && (TextLe(a, b) && TextLe(b, a) ==> a == b) {
      LexTotal(Codes(a), Codes(b));
      if Codes(a) == Codes(b) { CodesInjective(a, b); }
    }
    forall a: string, b: string, c: string | TextLe(a, b) && TextLe(b, c) ensures TextLe(a, c) {
      LexTransitive(Codes(a), Codes(b), Codes(c));
    }
  }

  lemma KeysOrdered()
    ensures TotalOrder(SmallCodec().keyLe)
  {
    forall a: ReviewKey, b: ReviewKey ensures (KeyLe(a, b) || KeyLe(b, a)) && (KeyLe(a, b) && KeyLe(b, a) ==> a == b) {
      LexTotal(KeyCodes(a), KeyCodes(b));
      if KeyCodes(a) == KeyCodes(b) { KeyCodesInjective(a, b); }
    }
    forall a: ReviewKey, b: ReviewKey, c: ReviewKey | KeyLe(a, b) && KeyLe(b, c) ensures KeyLe(a, c) {
      LexTransitive(KeyCodes(a), KeyCodes(b), KeyCodes(c));
    }
  }

  lemma AddressReads(hash: Bytes32, prefix: string)
    requires prefix == "xch" || prefix == "nft"
    ensures HashIn(Address(hash, prefix)) == Some(hash)
    ensures Address(hash, prefix) != "" && ' ' !in Address(hash, prefix)
  {
    var text := Address(hash, prefix);
    UnhexHex(hash.bytes);
    HexIsLower(hash.bytes);
    assert text[|text| - 64..] == Hex(hash.bytes);
    assert Word(hash.bytes) == hash;
  }

  lemma CodecIsLawful()
    ensures SmallCodec().Lawful()
  {
    TextOrdered();
    KeysOrdered();
    forall hash: Bytes32, prefix: string | prefix == "xch" || prefix == "nft"
      ensures HashIn(Address(hash, prefix)) == Some(hash) && Address(hash, prefix) != ""
              && ' ' !in Address(hash, prefix)
    {
      AddressReads(hash, prefix);
    }
  }

  // ---- the kit ----

  /** One coin of three mojos under the one key there is. */
  const PURSE := Coin(Filled(5), Filled(0), 3)

  function SmallKit(): Kit {
    Kit(SmallSdk(), SmallCodec(), (hash: Bytes32) => if hash == Filled(0) then Some(KEY) else None,
        (key: PublicKey) => STANDARD, (delegated: SExp) => Pair(delegated, Atom([])), EncodeList,
        (hash: Bytes32) => Atom(hash.bytes), [PURSE], Filled(6), 500)
  }

  lemma KitIsLawful()
    ensures SmallKit().Lawful()
  {
    var kit := SmallKit();
    StandardHolds();
    FilledDiffer(0, 2);
    assert forall key :: kit.StandardOnly(kit.Puzzle(key));
    forall conditions | kit.Writes(conditions)
      ensures kit.sdk.DecodeList(kit.encodeConditions(conditions)) == Some(conditions)
    {
      DecodesBack(conditions);
    }
  }
}
