/** The engine's XCH builders, and the round trip: whatever they return, the signer's gate opens
    on with the builder's own summary. */
module Building {
  import opened Prelude
  import opened Clvm
  import opened Conditions
  import opened Settlement
  import opened Book
  import opened Verify
  import opened Text
  import opened Gate
  import opened Selection
  import opened Splitting
  import opened Ledger
  import opened Bundles

  /** The public material a builder works from: the wallet's coins, the key controlling each puzzle
      hash, where change goes, and the driver calls that lay out a standard spend. */
  datatype Kit = Kit(
    sdk: Sdk,
    codec: Codec,
    syntheticKey: Bytes32 -> Option<PublicKey>,
    standardPuzzle: PublicKey -> SExp,
    standardSolution: SExp -> SExp,
    encodeConditions: seq<Condition> -> SExp,
    hint: Bytes32 -> SExp,
    spendable: seq<Coin>,
    changeHash: Bytes32,
    coinCap: nat)
  {
    function KeyFor(coin: Coin): Option<PublicKey> { syntheticKey(coin.puzzleHash) }

    function Puzzle(key: PublicKey): SExp { standardPuzzle(key) }

    function Quoted(conditions: seq<Condition>): SExp { Pair(Atom([1]), encodeConditions(conditions)) }

    function Solution(conditions: seq<Condition>): SExp { standardSolution(Quoted(conditions)) }

    function Hinted(puzzleHash: Bytes32): Option<SExp> { Some(hint(puzzleHash)) }

    /** The standard-layer spend of a coin under its key, with these conditions. */
    function StandardSpend(coin: Coin, conditions: seq<Condition>): CoinSpend
      requires KeyFor(coin).Some?
    {
      CoinSpend(coin, Some(Puzzle(KeyFor(coin).value)), Some(Solution(conditions)))
    }

    /** What the builders write: payments with their hint or none, fees, concurrency assertions. */
    predicate Writes(conditions: seq<Condition>) {
      forall c :: c in conditions ==>
        || (c.CreateCoin? && (c.memos == None || c.memos == Hinted(c.puzzleHash)))
        || c.ReserveFee? || c.AssertConcurrentSpend?
    }

    /** The driver laws a round trip rests on: a standard puzzle is recognised as that and nothing
        else, hashes to the puzzle hash its key controls, a solution quotes what it was given, and
        what the builders write decodes to itself. */
    ghost predicate Lawful() {
      && sdk.QuoteLaw() && sdk.StandardLaw()
      && (forall hash, key :: syntheticKey(hash) == Some(key) ==> sdk.Hash(Puzzle(key)) == hash)
      && (forall key :: StandardOnly(Puzzle(key)))
      && (forall delegated :: sdk.Delegates(standardSolution(delegated)) &&
            sdk.StandardSolutionOf(standardSolution(delegated)).value.delegatedPuzzle == delegated)
      && (forall conditions :: Writes(conditions) ==> sdk.DecodeList(encodeConditions(conditions)) == Some(conditions))
      && codec.Decode("").None?
    }

    ghost predicate StandardOnly(puzzle: SExp) {
      && sdk.StandardOf(puzzle).Found?
      && sdk.Hash(puzzle) != sdk.launcherHash
      && sdk.OneOfManyOf(puzzle).Absent? && !sdk.Singleton(puzzle)
      && (forall coin: Coin, solution: SExp {:trigger sdk.CatOf(coin, puzzle, solution)} ::
            sdk.CatOf(coin, puzzle, solution).Absent?)
      && (forall coin: Coin, solution: SExp {:trigger sdk.OptionOf(coin, puzzle, solution)} ::
            sdk.OptionOf(coin, puzzle, solution).Absent?)
      && (forall coin: Coin, solution: SExp {:trigger sdk.NftOf(coin, puzzle, solution)} ::
            sdk.NftOf(coin, puzzle, solution).Absent?)
    }
  }

  /** The spend context: the coin spends laid down so far. */
  class SpendContext {
    var spends: seq<CoinSpend>

    constructor ()
      ensures spends == []
    {
      spends := [];
    }

    /** Spend a coin under its owning key, or fail when the wallet does not hold that key. */
    method SpendStandard(kit: Kit, coin: Coin, conditions: seq<Condition>) returns (ok: bool)
      modifies this
      ensures ok <==> kit.KeyFor(coin).Some?
      ensures ok ==> spends == old(spends) + [kit.StandardSpend(coin, conditions)]
    {
      if kit.KeyFor(coin).None? { return false; }
      spends := spends + [kit.StandardSpend(coin, conditions)];
      return true;
    }

    /** Tie every coin after the first to the lead coin, so the set is spent together or not at all. */
    method LinkSupportingCoins(kit: Kit, coins: seq<Coin>) returns (ok: bool)
      requires coins != []
      modifies this
      ensures ok <==> AllKeyed(kit, coins[1..])
      ensures ok ==> spends == old(spends) + Supporting(kit, kit.sdk.IdOf(coins[0]), coins[1..])
    {
      var lead := kit.sdk.IdOf(coins[0]);
      assert Supporting(kit, lead, coins[1..][..0]) == [];
      for i := 1 to |coins|
        invariant AllKeyed(kit, coins[1..][..i - 1])
        invariant spends == old(spends) + Supporting(kit, lead, coins[1..][..i - 1])
      {
        ghost var rest := coins[1..];
        var ok' := SpendStandard(kit, coins[i], [AssertConcurrentSpend(lead)]);
        if !ok' {
          assert coins[i] == rest[i - 1] && rest[i - 1] in rest;
          return false;
        }
        assert rest[..i] == rest[..i - 1] + [coins[i]];
        SupportingAppend(kit, lead, rest[..i - 1], coins[i]);
      }
      assert coins[1..][..|coins| - 1] == coins[1..];
      return true;
    }
  }

  predicate AllKeyed(kit: Kit, coins: seq<Coin>) {
    forall c :: c in coins ==> kit.KeyFor(c).Some?
  }

  function Supporting(kit: Kit, lead: Bytes32, coins: seq<Coin>): seq<CoinSpend>
    requires AllKeyed(kit, coins)
  {
    if coins == [] then []
    else [kit.StandardSpend(coins[0], [AssertConcurrentSpend(lead)])] + Supporting(kit, lead, coins[1..])
  }

  lemma {:induction false} SupportingAppend(kit: Kit, lead: Bytes32, coins: seq<Coin>, coin: Coin)
    requires AllKeyed(kit, coins) && kit.KeyFor(coin).Some?
    ensures AllKeyed(kit, coins + [coin])
    ensures Supporting(kit, lead, coins + [coin]) ==
            Supporting(kit, lead, coins) + [kit.StandardSpend(coin, [AssertConcurrentSpend(lead)])]
  {
    if coins == [] {
      assert coins + [coin] == [coin];
    } else {
      assert (coins + [coin])[1..] == coins[1..] + [coin];
      SupportingAppend(kit, lead, coins[1..], coin);
    }
  }

  /** A whole built bundle: the lead coin carries the payment, the rest are tied to it. */
  function BundleOf(kit: Kit, coins: seq<Coin>, lead: seq<Condition>): seq<CoinSpend>
    requires coins != [] && AllKeyed(kit, coins)
  {
    [kit.StandardSpend(coins[0], lead)] + Supporting(kit, kit.sdk.IdOf(coins[0]), coins[1..])
  }

  // ---- what the verifier makes of a built bundle ----

  /** No payment goes to a structural hash. */
  ghost predicate Free(sdk: Sdk, conditions: seq<Condition>) {
    forall c :: c in conditions && c.CreateCoin? ==> !sdk.IsSinkHash(c.puzzleHash)
  }

  /** The verifier's entry for a built spend: that coin, those outputs, that fee. */
  lemma BuiltEntry(kit: Kit, coin: Coin, conditions: seq<Condition>)
    requires kit.Lawful() && kit.KeyFor(coin).Some? && kit.Writes(conditions)
    ensures var entry := EntryOf(kit.sdk, kit.StandardSpend(coin, conditions));
            && entry.Some?
            && entry.value.spent == Spent(coin, None)
            && PlainBook(entry.value, Creates(conditions, None), Reserved(conditions))
            && (Free(kit.sdk, conditions) ==> NoSink(entry.value))
    ensures !IsOptionCoin(kit.sdk, kit.StandardSpend(coin, conditions))
  {
    var puzzle, solution := kit.Puzzle(kit.KeyFor(coin).value), kit.Solution(conditions);
    var own := AggSigMe(kit.sdk.StandardOf(puzzle).value, kit.sdk.Hash(kit.Quoted(conditions)).bytes);
    StandardArmTaken(kit, coin, solution);
    SignedQuote(kit, coin, conditions);
    SoleSendEntry(kit.sdk, coin, puzzle, solution, own, conditions);
  }

  /** A built spend emits its own signature and then what it was given, which is what it quotes. */
  lemma SignedQuote(kit: Kit, coin: Coin, conditions: seq<Condition>)
    requires kit.Lawful() && kit.KeyFor(coin).Some? && kit.Writes(conditions)
    ensures var puzzle, solution := kit.Puzzle(kit.KeyFor(coin).value), kit.Solution(conditions);
            var own := AggSigMe(kit.sdk.StandardOf(puzzle).value, kit.sdk.Hash(kit.Quoted(conditions)).bytes);
            && kit.sdk.StandardOf(puzzle).Found?
            && kit.sdk.RunConditions(puzzle, solution) == Some([own] + conditions)
            && CommittedStandardSpend(kit.sdk, solution) == Some(CommittedSpend(Word(own.message), conditions))
            && SignatureConditions([own] + conditions) == [own] && OnlyMeSignatures([own] + conditions)
            && Creates([own] + conditions, None) == Creates(conditions, None)
            && Reserved([own] + conditions) == Reserved(conditions)
            && (Free(kit.sdk, conditions) ==> Free(kit.sdk, [own] + conditions))
  {
    var puzzle := kit.Puzzle(kit.KeyFor(coin).value);
    assert kit.StandardOnly(puzzle);
    RunsQuoted(kit, puzzle, conditions);
    OwnSignatureOnly(kit, AggSigMe(kit.sdk.StandardOf(puzzle).value, kit.sdk.Hash(kit.Quoted(conditions)).bytes),
                     conditions);
  }

  lemma StandardArmTaken(kit: Kit, coin: Coin, solution: SExp)
    requires kit.Lawful() && kit.KeyFor(coin).Some?
    ensures var puzzle := kit.Puzzle(kit.KeyFor(coin).value);
            && kit.sdk.StandardOf(puzzle).Found?
            && EntryOf(kit.sdk, CoinSpend(coin, Some(puzzle), Some(solution))) ==
              SendEntry(kit.sdk, coin, None, puzzle, solution)
            && !IsOptionCoin(kit.sdk, CoinSpend(coin, Some(puzzle), Some(solution)))
  {
    var puzzle := kit.Puzzle(kit.KeyFor(coin).value);
    assert kit.StandardOnly(puzzle);
    assert kit.sdk.Hash(puzzle) == coin.puzzleHash;
    assert ArmOf(kit.sdk, coin, puzzle, solution) == StandardArm;
  }

  /** A send that emits its own signature and then an unsigned list enters just that list. */
  lemma SoleSendEntry(sdk: Sdk, coin: Coin, puzzle: SExp, solution: SExp, own: Condition, conditions: seq<Condition>)
    requires own.AggSigMe? && |own.message| == 32
    requires sdk.RunConditions(puzzle, solution) == Some([own] + conditions)
    requires CommittedStandardSpend(sdk, solution) == Some(CommittedSpend(Word(own.message), conditions))
    requires SignatureConditions([own] + conditions) == [own] && OnlyMeSignatures([own] + conditions)
    requires Creates([own] + conditions, None) == Creates(conditions, None)
    requires Reserved([own] + conditions) == Reserved(conditions)
    requires Free(sdk, conditions) ==> Free(sdk, [own] + conditions)
    ensures var entry := SendEntry(sdk, coin, None, puzzle, solution);
            && entry.Some?
            && entry.value.spent == Spent(coin, None)
            && PlainBook(entry.value, Creates(conditions, None), Reserved(conditions))
            && entry.value.bindings == [BindingOf(sdk, coin, [own] + conditions)]
            && (Free(sdk, conditions) ==> NoSink(entry.value))
  {
    assert SoleMessage([own] + conditions) == Some(Word(own.message));
  }

  lemma RunsQuoted(kit: Kit, puzzle: SExp, conditions: seq<Condition>)
    requires kit.Lawful() && kit.sdk.StandardOf(puzzle).Found?
    requires kit.sdk.DecodeList(kit.encodeConditions(conditions)) == Some(conditions)
    ensures var committed := CommittedStandardSpend(kit.sdk, kit.Solution(conditions));
            && committed == Some(CommittedSpend(kit.sdk.Hash(kit.Quoted(conditions)), conditions))
            && kit.sdk.RunConditions(puzzle, kit.Solution(conditions)) ==
               Some([AggSigMe(kit.sdk.StandardOf(puzzle).value, kit.sdk.Hash(kit.Quoted(conditions)).bytes)] +
                    conditions)
  {
    var s := kit.sdk.StandardSolutionOf(kit.Solution(conditions)).value;
    assert s.delegatedPuzzle == kit.Quoted(conditions);
    assert kit.sdk.RunConditions(s.delegatedPuzzle, s.delegatedSolution) == Some(conditions);
  }

  lemma OwnSignatureOnly(kit: Kit, own: Condition, conditions: seq<Condition>)
    requires own.AggSigMe? && kit.Writes(conditions)
    ensures SignatureConditions([own] + conditions) == [own] && OnlyMeSignatures([own] + conditions)
    ensures Creates([own] + conditions, None) == Creates(conditions, None)
    ensures Reserved([own] + conditions) == Reserved(conditions)
    ensures Free(kit.sdk, conditions) ==> Free(kit.sdk, [own] + conditions)
  {
    assert ([own] + conditions)[1..] == conditions;
    WritesUnsigned(kit, conditions);
  }

  lemma {:induction false} WritesUnsigned(kit: Kit, conditions: seq<Condition>)
    requires kit.Writes(conditions)
    ensures SignatureConditions(conditions) == []
  {
    if conditions != [] {
      assert conditions[0] in conditions;
      WritesUnsigned(kit, conditions[1..]);
    }
  }

  /** A book with outputs and a fee but no melt, NFT act or mint. */
  ghost predicate PlainBook(book: Book, created: seq<DecodedOutput>, fee: nat) {
    && book.created == created && book.fee == fee && book.melted == 0
    && book.melts == [] && book.operations == [] && book.launches == [] && book.eveParents == []
  }

  ghost predicate NoSink(book: Book) {
    forall b :: b in book.bindings ==> !b.createsSink
  }

  /** The supporting coins add their value and nothing else. */
  lemma {:induction false} SupportingBook(kit: Kit, lead: Bytes32, coins: seq<Coin>)
    requires kit.Lawful() && AllKeyed(kit, coins)
    ensures AllAdmitted(kit.sdk, Supporting(kit, lead, coins)) && !IsOptionBundle(kit.sdk, Supporting(kit, lead, coins))
    ensures var book := BookOf(kit.sdk, Supporting(kit, lead, coins));
            PlainBook(book, [], 0) && NoSink(book) && SpendsXch(book, coins)
  {
    if coins != [] {
      SupportingBook(kit, lead, coins[1..]);
      BuiltEntry(kit, coins[0], [AssertConcurrentSpend(lead)]);
      assert coins[0] in coins;
      var entry := EntryOf(kit.sdk, kit.StandardSpend(coins[0], [AssertConcurrentSpend(lead)])).value;
      assert Creates([AssertConcurrentSpend(lead)], None) == [] && Reserved([AssertConcurrentSpend(lead)]) == 0;
      SpentAhead(coins[0], entry, BookOf(kit.sdk, Supporting(kit, lead, coins[1..])), coins[1..]);
      assert coins == [coins[0]] + coins[1..];
    }
  }

  /** The book spends these coins' value in XCH and nothing in any CAT. */
  ghost predicate SpendsXch(book: Book, coins: seq<Coin>) {
    Total(book.spent, None) == Sum(coins) && forall cat :: Total(book.spent, Some(cat)) == 0
  }

  lemma SpentAhead(coin: Coin, entry: Book, rest: Book, coins: seq<Coin>)
    requires entry.spent == Spent(coin, None) && SpendsXch(rest, coins)
    ensures SpendsXch(entry.Plus(rest), [coin] + coins)
  {
    assert entry.Plus(rest).spent[1..] == rest.spent;
    assert ([coin] + coins)[1..] == coins;
  }

  lemma {:induction false} CreatesAreFree(sdk: Sdk, conditions: seq<Condition>)
    requires Free(sdk, conditions)
    ensures Routed(sdk, Creates(conditions, None), false) == Creates(conditions, None)
    ensures Routed(sdk, Creates(conditions, None), true) == []
  {
    if conditions != [] {
      assert conditions[0] in conditions;
      CreatesAreFree(sdk, conditions[1..]);
      if conditions[0].CreateCoin? {
        assert Creates(conditions, None)[1..] == Creates(conditions[1..], None);
      } else {
        assert Creates(conditions, None) == Creates(conditions[1..], None);
      }
    }
  }

  /** The verifier reads a built bundle, whatever it pays: every coin is admitted, and the book holds
      the coins, the lead's outputs and the lead's fee. */
  lemma BuiltBook(kit: Kit, coins: seq<Coin>, lead: seq<Condition>)
    requires kit.Lawful() && coins != [] && AllKeyed(kit, coins) && kit.Writes(lead)
    ensures var spends := BundleOf(kit, coins, lead);
            && AllAdmitted(kit.sdk, spends) && !IsOptionBundle(kit.sdk, spends)
            && PlainBook(BookOf(kit.sdk, spends), Creates(lead, None), Reserved(lead))
            && SpendsXch(BookOf(kit.sdk, spends), coins)
            && (Free(kit.sdk, lead) ==> NoSink(BookOf(kit.sdk, spends)))
  {
    var spends := BundleOf(kit, coins, lead);
    var leadId := kit.sdk.IdOf(coins[0]);
    var supporting := Supporting(kit, leadId, coins[1..]);
    BuiltEntry(kit, coins[0], lead);
    SupportingBook(kit, leadId, coins[1..]);
    assert spends[1..] == supporting && spends == [spends[0]] + supporting;
    OptionTogether(kit.sdk, [spends[0]], supporting);
    SpentAhead(coins[0], EntryOf(kit.sdk, spends[0]).value, BookOf(kit.sdk, supporting), coins[1..]);
    assert coins == [coins[0]] + coins[1..];
    assert BookOf(kit.sdk, spends) == EntryOf(kit.sdk, spends[0]).value.Plus(BookOf(kit.sdk, supporting));
  }

  /** A built bundle that balances and pays no structural hash is accepted, and its effect is what the
      builder wrote. */
  lemma BuiltIsAccepted(kit: Kit, coins: seq<Coin>, lead: seq<Condition>)
    requires kit.Lawful() && coins != [] && AllKeyed(kit, coins) && kit.Writes(lead) && Free(kit.sdk, lead)
    requires Sum(coins) == Total(Creates(lead, None), None) + Reserved(lead) && Sum(coins) <= U64_MAX
    ensures Accepted(kit.sdk, BundleOf(kit, coins, lead))
    ensures EffectOf(kit.sdk, BundleOf(kit, coins, lead)) ==
            SpendEffect(Creates(lead, None), [], Reserved(lead), [], [])
  {
    BuiltBook(kit, coins, lead);
    PlainIsAccepted(kit.sdk, BundleOf(kit, coins, lead), coins, lead);
    PlainEffect(kit.sdk, BundleOf(kit, coins, lead), lead);
  }

  lemma PlainEffect(sdk: Sdk, spends: seq<CoinSpend>, lead: seq<Condition>)
    requires Accepted(sdk, spends) && !IsOptionBundle(sdk, spends) && Free(sdk, lead)
    requires PlainBook(BookOf(sdk, spends), Creates(lead, None), Reserved(lead))
    ensures EffectOf(sdk, spends) == SpendEffect(Creates(lead, None), [], Reserved(lead), [], [])
  {
    CreatesAreFree(sdk, lead);
  }

  lemma {:induction false} CreatesNoCat(conditions: seq<Condition>, cat: Bytes32)
    ensures Total(Creates(conditions, None), Some(cat)) == 0
  {
    if conditions != [] {
      CreatesNoCat(conditions[1..], cat);
      TotalConcat(if conditions[0].CreateCoin?
                  then [DecodedOutput(conditions[0].puzzleHash, conditions[0].amount, None)] else [],
                  Creates(conditions[1..], None), Some(cat));
    }
  }

  /** A plain book that balances passes every bundle-level check. */
  lemma PlainBookPasses(sdk: Sdk, book: Book, ids: seq<Bytes32>, coins: seq<Coin>, lead: seq<Condition>)
    requires PlainBook(book, Creates(lead, None), Reserved(lead)) && NoSink(book) && SpendsXch(book, coins)
    requires Sum(coins) == Total(Creates(lead, None), None) + Reserved(lead) <= U64_MAX
    ensures Fits(book) && MintBound(sdk, book, ids) && SettlementBound(book.bindings)
    ensures XchConserved(book, false) && CatsConserved(book)
  {
    forall asset: Option<Bytes32>
      ensures Total(book.spent, asset) <= U64_MAX && Total(book.created, asset) <= U64_MAX
    {
      if asset.Some? {
        CreatesNoCat(lead, asset.value);
        assert Total(book.spent, Some(asset.value)) == 0;
      }
    }
    forall cat ensures Total(book.spent, Some(cat)) == Total(book.created, Some(cat)) {
      CreatesNoCat(lead, cat);
    }
    assert forall i :: 0 <= i < |book.bindings| ==> book.bindings[i] in book.bindings;
  }

  lemma PlainIsAccepted(sdk: Sdk, spends: seq<CoinSpend>, coins: seq<Coin>, lead: seq<Condition>)
    requires spends != [] && AllAdmitted(sdk, spends) && !IsOptionBundle(sdk, spends)
    requires PlainBook(BookOf(sdk, spends), Creates(lead, None), Reserved(lead))
    requires NoSink(BookOf(sdk, spends)) && SpendsXch(BookOf(sdk, spends), coins)
    requires Sum(coins) == Total(Creates(lead, None), None) + Reserved(lead) <= U64_MAX
    ensures Accepted(sdk, spends)
  {
    PlainBookPasses(sdk, BookOf(sdk, spends), CoinIds(sdk, spends), coins, lead);
  }
}
