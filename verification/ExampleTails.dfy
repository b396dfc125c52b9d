/** A CAT whose TAIL signs, under the example interpreter: an accepted bundle that asks for a signature no arm
    judged. */
module ExampleTails {
  import opened Prelude
  import opened Clvm
  import opened Conditions
  import opened Settlement
  import opened Book
  import opened Verify
  import opened Commitments
  import opened Signing
  import opened Reading
  import opened Example
  import opened ExampleBundles

  /** The standard puzzle under a CAT whose TAIL signs. */
  const MINTED := Pair(Atom([7]), STANDARD)

  function MintedList(amount: U64): seq<Condition> {
    [CreateCoin(TO, amount, None)]
  }

  function MintedSpend(coin: Coin): CoinSpend {
    CoinSpend(coin, Some(MINTED), Spend(coin, MintedList(coin.amount)).solution)
  }

  lemma MintedRuns(coin: Coin)
    ensures var own, list := AggSigMe(KEY, Filled(3).bytes), MintedList(coin.amount);
            && Unsigned(list)
            && SmallSdk().RunConditions(STANDARD, MintedSpend(coin).solution.value) == Some([own] + list)
            && SmallSdk().RunConditions(MINTED, MintedSpend(coin).solution.value) ==
               Some([AggSigMe(KEY, [])] + ([own] + list))
            && CommittedStandardSpend(SmallSdk(), MintedSpend(coin).solution.value) ==
               Some(CommittedSpend(Filled(3), list))
  {
    var own, tail := AggSigMe(KEY, Filled(3).bytes), AggSigMe(KEY, []);
    SpendRuns(coin, MintedList(coin.amount));
    DecodesOne(tail);
    var solution := MintedSpend(coin).solution.value;
    var output := Run(STANDARD, solution).value;
    assert Run(MINTED, solution) == Some(Pair(Encode(tail), output));
    assert Decode(Pair(Encode(tail), output)) == Some([tail] + Decode(output).value);
  }

  lemma MintedArm(coin: Coin)
    requires coin.puzzleHash == Filled(0)
    ensures ArmFor(SmallSdk(), MintedSpend(coin)) ==
            CatArm(CatView(Filled(12), STANDARD, MintedSpend(coin).solution.value))
    ensures !IsOptionCoin(SmallSdk(), MintedSpend(coin))
  {
  }

  lemma MintedEnters(coin: Coin)
    requires coin.puzzleHash == Filled(0)
    ensures EntryOf(SmallSdk(), MintedSpend(coin)) ==
            Some(EMPTY_BOOK.(spent := Spent(coin, Some(Filled(12))),
                             created := [DecodedOutput(TO, coin.amount, Some(Filled(12)))],
                             bindings := [BindingOf(SmallSdk(), coin, MintedList(coin.amount))]))
  {
    var own, list := AggSigMe(KEY, Filled(3).bytes), MintedList(coin.amount);
    MintedArm(coin);
    MintedRuns(coin);
    UnsignedList(list);
    StandardHolds();
    assert SoleMessage([own] + list) == Some(Word(own.message)) by {
      assert ([own] + list)[1..] == list;
    }
    CatSendEntry(SmallSdk(), coin, Filled(12), STANDARD, MintedSpend(coin).solution.value);
    assert list[1..] == [] && Creates(list, Some(Filled(12))) == [DecodedOutput(TO, coin.amount, Some(Filled(12)))];
  }

  /** Under any drivers: a CAT handed on whole to a free address is accepted on its own. */
  lemma CatMoveAccepted(sdk: Sdk, spend: CoinSpend, asset: Bytes32, to: Bytes32, binding: CoinBinding)
    requires !IsOptionCoin(sdk, spend) && !binding.createsSink
    requires EntryOf(sdk, spend) ==
             Some(EMPTY_BOOK.(spent := Spent(spend.coin, Some(asset)),
                              created := [DecodedOutput(to, spend.coin.amount, Some(asset))], bindings := [binding]))
    ensures Accepted(sdk, [spend])
  {
    var book := EntryOf(sdk, spend).value;
    assert [spend] + [] == [spend];
    SpendAhead(sdk, spend, []);
    PlusEmpty(book);
    assert book.spent[1..] == [] && book.created[1..] == [];
    assert forall a :: Total(book.spent, a) == Total(book.created, a) ==
                       if a == Some(asset) then spend.coin.amount else 0;
  }

  /** An accepted bundle that asks for a signature its analysis never saw: the hypothesis of
      `SignedIsAnalyzed` is needed. */
  lemma TailAsksForMore() returns (spend: CoinSpend)
    ensures Accepted(SmallSdk(), [spend]) && RequiredByAll(SmallSdk(), [], [spend]).Some?
    ensures !KeepsSignatures(SmallSdk(), spend)
    ensures MessagesOf(RequiredByAll(SmallSdk(), [], [spend]).value) != CommittedMessages(SmallSdk(), [], [spend])
  {
    var coin := Coin(Filled(40), Filled(0), 1);
    spend := MintedSpend(coin);
    MintedEnters(coin);
    MintedArm(coin);
    FreeBinding(coin);
    CatMoveAccepted(SmallSdk(), spend, Filled(12), TO, BindingOf(SmallSdk(), coin, MintedList(1)));
    MintedAsks(coin);
    OnlyOne(SmallSdk(), spend);
  }

  lemma FreeBinding(coin: Coin)
    ensures !BindingOf(SmallSdk(), coin, MintedList(coin.amount)).createsSink
  {
    FilledDiffer(7, 1);
    FilledDiffer(7, 2);
  }

  lemma MintedAsks(coin: Coin)
    requires coin.puzzleHash == Filled(0) && EntryOf(SmallSdk(), MintedSpend(coin)).Some?
    ensures RequiredBy(SmallSdk(), [], MintedSpend(coin)).Some? && !KeepsSignatures(SmallSdk(), MintedSpend(coin))
  {
    MintedRuns(coin);
    MintedArm(coin);
    MoreAsked(SmallSdk(), MintedSpend(coin), AggSigMe(KEY, []));
  }

  /** Under any drivers: a layer that puts a signature of its own before those its arm judged. */
  lemma MoreAsked(sdk: Sdk, spend: CoinSpend, tail: Condition)
    requires EntryOf(sdk, spend).Some? && OnlyMeSignatures(Judged(sdk, spend))
    requires tail.AggSigMe?
    requires sdk.RunConditions(spend.puzzleReveal.value, spend.solution.value) ==
             Some([tail] + Judged(sdk, spend))
    ensures RequiredBy(sdk, [], spend).Some? && !KeepsSignatures(sdk, spend)
  {
    var judged := Judged(sdk, spend);
    assert ([tail] + judged)[1..] == judged;
    assert |SignedMessages([tail] + judged)| == 1 + |SignedMessages(judged)|;
  }

  /** Under any drivers: a coin alone whose layers do not keep its signatures. */
  lemma OnlyOne(sdk: Sdk, spend: CoinSpend)
    requires EntryOf(sdk, spend).Some? && RequiredBy(sdk, [], spend).Some? && !KeepsSignatures(sdk, spend)
    ensures AllAdmitted(sdk, [spend]) && RequiredByAll(sdk, [], [spend]).Some?
    ensures MessagesOf(RequiredByAll(sdk, [], [spend]).value) != CommittedMessages(sdk, [], [spend])
  {
    assert [spend][1..] == [] && spend in [spend];
    assert RequiredByAll(sdk, [], [spend][1..]) == Some([]);
    if MessagesOf(RequiredByAll(sdk, [], [spend]).value) == CommittedMessages(sdk, [], [spend]) {
      SignedOnlyIfKept(sdk, [], [spend]);
    }
  }
}
