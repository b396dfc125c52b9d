/** Bundles under the example interpreter: one the gate opens on, and one whose verdict depends on the
    order of its spends because two of its coins share an id. */
module ExampleBundles {
  import opened Prelude
  import opened Clvm
  import opened Conditions
  import opened Settlement
  import opened Book
  import opened Verify
  import opened Gate
  import opened Signing
  import opened Selection
  import opened Splitting
  import opened Bundles
  import opened Building
  import opened Builders
  import opened Example

  // ---- a payment ----

  /** Two of the purse's three mojos go to an address, one is the fee. */
  const TO := Filled(7)

  function Line(): SpendOutput {
    SpendOutput(Address(TO, "xch"), 2, None)
  }

  function Wallet(): Owner {
    Owner(SmallCodec(), 1, (ix: nat) => Filled(6))
  }

  /** What the engine answers: the purse's spend, laid out as a send does. */
  lemma PaymentPays() returns (unsigned: UnsignedSpend)
    ensures Pays(SmallKit(), [], [PURSE], [(TO, 2)], 0, [Line()], 1, unsigned)
  {
    var kit := SmallKit();
    KitIsLawful();
    AddressReads(TO, "xch");
    OneLine(kit.codec, Address(TO, "xch"), 2);
    var lead := Lead(kit, [(TO, 2)], [], 1);
    LeadWritten(kit, [(TO, 2)], [], 1);
    BundleRequires(kit, [], [PURSE], lead);
    var spends := BundleOf(kit, [PURSE], lead);
    unsigned := UnsignedSpend(spends, RequiredByAll(kit.sdk, [], spends).value,
                              TransactionSummary([Line()], [], 1, [], []));
    assert [PURSE][1..] == [] && Sum([PURSE]) == 3;
  }

  lemma WalletHolds()
    ensures WalletOf(SmallKit(), Wallet()) && Outside(SmallKit(), Wallet(), [(TO, 2)])
  {
    CodecIsLawful();
    FilledDiffer(6, 7);
    FilledDiffer(6, 1);
    FilledDiffer(6, 2);
    FilledDiffer(7, 1);
    FilledDiffer(7, 2);
    assert Wallet().HashAt(0) == Filled(6);
  }

  /** The laws, the acceptance conditions and the gate can all be met together: under lawful drivers a
      send is paid, accepted and passes the gate of a wallet that owns only its change address. */
  lemma PaymentOpensGate() returns (unsigned: UnsignedSpend)
    ensures SmallKit().Lawful() && SmallCodec().Lawful() && WalletOf(SmallKit(), Wallet())
    ensures Pays(SmallKit(), [], [PURSE], [(TO, 2)], 0, [Line()], 1, unsigned)
    ensures GateOpens(SmallSdk(), Wallet(), unsigned)
  {
    KitIsLawful();
    CodecIsLawful();
    WalletHolds();
    unsigned := PaymentPays();
    PayRoundTrip(SmallKit(), [], Wallet(), [PURSE], [(TO, 2)], 0, [Line()], 1, unsigned);
  }

  // ---- one coin spent twice ----

  /** A spend of a keyless example coin: the standard puzzle with this list quoted. */
  function Spend(coin: Coin, list: seq<Condition>): CoinSpend {
    CoinSpend(coin, Some(STANDARD), Some(Pair(Pair(Atom([1]), EncodeList(list)), Atom([]))))
  }

  predicate Unsigned(list: seq<Condition>) {
    forall c :: c in list ==> Known(c) && !c.AggSigMe?
  }

  lemma {:induction false} UnsignedList(list: seq<Condition>)
    requires Unsigned(list)
    ensures SignatureConditions(list) == []
  {
    if list != [] {
      assert list[0] in list;
      UnsignedList(list[1..]);
    }
  }

  /** Such a spend emits its own signature, then its list, which is what it quotes. */
  lemma SpendRuns(coin: Coin, list: seq<Condition>)
    requires Unsigned(list)
    ensures var sdk, own := SmallSdk(), AggSigMe(KEY, Filled(3).bytes);
            && sdk.RunConditions(STANDARD, Spend(coin, list).solution.value) == Some([own] + list)
            && CommittedStandardSpend(sdk, Spend(coin, list).solution.value) ==
              Some(CommittedSpend(Word(own.message), list))
  {
    var own := AggSigMe(KEY, Filled(3).bytes);
    DecodesBack(list);
    DecodesOne(own);
    var quoted := Pair(Atom([1]), EncodeList(list));
    assert Run(quoted, Atom([])) == Some(EncodeList(list));
    assert Run(STANDARD, Pair(quoted, Atom([]))) == Some(Pair(Encode(own), EncodeList(list)));
  }

  lemma SpendIsSend(coin: Coin, list: seq<Condition>)
    requires coin.puzzleHash == Filled(0)
    ensures EntryOf(SmallSdk(), Spend(coin, list)) ==
            SendEntry(SmallSdk(), coin, None, STANDARD, Spend(coin, list).solution.value)
    ensures !IsOptionCoin(SmallSdk(), Spend(coin, list))
  {
    FilledDiffer(0, 2);
    assert ArmFor(SmallSdk(), Spend(coin, list)) == StandardArm;
  }

  /** Under any drivers: a send that emits its own signature and then an unsigned list enters the list. */
  lemma SendEnters(sdk: Sdk, coin: Coin, puzzle: SExp, solution: SExp, own: Condition, list: seq<Condition>)
    requires own.AggSigMe? && |own.message| == 32
    requires sdk.RunConditions(puzzle, solution) == Some([own] + list)
    requires CommittedStandardSpend(sdk, solution) == Some(CommittedSpend(Word(own.message), list))
    requires SignatureConditions(list) == [] && OnlyMeSignatures(list)
    ensures var entry := SendEntry(sdk, coin, None, puzzle, solution);
            entry.Some? && Enters(sdk, entry.value, coin, list)
  {
    assert ([own] + list)[1..] == list;
    SoleSendEntry(sdk, coin, puzzle, solution, own, list);
    OwnSignatureAddsNothing(sdk, coin, None, own, list);
  }

  /** What the verifier makes of such a spend. */
  lemma SpendEnters(coin: Coin, list: seq<Condition>)
    requires coin.puzzleHash == Filled(0) && Unsigned(list)
    ensures EntryOf(SmallSdk(), Spend(coin, list)).Some? && !IsOptionCoin(SmallSdk(), Spend(coin, list))
    ensures Enters(SmallSdk(), EntryOf(SmallSdk(), Spend(coin, list)).value, coin, list)
  {
    SpendRuns(coin, list);
    UnsignedList(list);
    SpendIsSend(coin, list);
    SendEnters(SmallSdk(), coin, STANDARD, Spend(coin, list).solution.value, AggSigMe(KEY, Filled(3).bytes), list);
  }

  ghost predicate Enters(sdk: Sdk, entry: Book, coin: Coin, list: seq<Condition>) {
    && entry.spent == Spent(coin, None) && PlainBook(entry, Creates(list, None), Reserved(list))
    && entry.bindings == [BindingOf(sdk, coin, list)] && entry.asserted == AssertedAnnouncements(list)
  }

  /** One more spend in front of a bundle. */
  lemma SpendAhead(sdk: Sdk, first: CoinSpend, rest: seq<CoinSpend>)
    requires EntryOf(sdk, first).Some? && AllAdmitted(sdk, rest)
    ensures AllAdmitted(sdk, [first] + rest)
    ensures BookOf(sdk, [first] + rest) == EntryOf(sdk, first).value.Plus(BookOf(sdk, rest))
    ensures IsOptionBundle(sdk, [first] + rest) <==> IsOptionCoin(sdk, first) || IsOptionBundle(sdk, rest)
  {
    var spends := [first] + rest;
    assert spends[0] == first && spends[1..] == rest && first in spends;
    OptionTogether(sdk, [first], rest);
  }

  lemma ThreeSpends(sdk: Sdk, a: CoinSpend, b: CoinSpend, c: CoinSpend)
    requires EntryOf(sdk, a).Some? && EntryOf(sdk, b).Some? && EntryOf(sdk, c).Some?
    requires !IsOptionCoin(sdk, a) && !IsOptionCoin(sdk, b) && !IsOptionCoin(sdk, c)
    ensures AllAdmitted(sdk, [a, b, c]) && !IsOptionBundle(sdk, [a, b, c])
    ensures BookOf(sdk, [a, b, c]) == EntryOf(sdk, a).value.Plus(EntryOf(sdk, b).value.Plus(EntryOf(sdk, c).value))
  {
    assert [c] + [] == [c] && [b] + [c] == [b, c] && [a] + [b, c] == [a, b, c];
    SpendAhead(sdk, c, []);
    SpendAhead(sdk, b, [c]);
    SpendAhead(sdk, a, [b, c]);
    PlusEmpty(EntryOf(sdk, c).value);
  }

  /** As much native value out as in, and nothing besides. */
  ghost predicate Even(book: Book, amount: nat) {
    && Total(book.spent, None) == amount == Total(book.created, None) && book.fee == 0 && book.melted == 0
    && forall asset :: Total(book.spent, Some(asset)) == 0 == Total(book.created, Some(asset))
  }

  lemma EvenTogether(x: Book, y: Book, a: nat, b: nat)
    requires Even(x, a) && Even(y, b)
    ensures Even(x.Plus(y), a + b)
  {
    forall asset ensures Total(x.Plus(y).spent, asset) == Total(x.spent, asset) + Total(y.spent, asset) &&
                         Total(x.Plus(y).created, asset) == Total(x.created, asset) + Total(y.created, asset) {
      TotalConcat(x.spent, y.spent, asset);
      TotalConcat(x.created, y.created, asset);
    }
  }

  lemma EvenBalances(book: Book, amount: nat)
    requires Even(book, amount) && amount <= U64_MAX
    ensures Fits(book) && XchConserved(book, false) && CatsConserved(book)
  {
    forall asset ensures Total(book.spent, asset) <= U64_MAX && Total(book.created, asset) <= U64_MAX {
      if asset.Some? {
        assert Total(book.spent, Some(asset.value)) == 0 == Total(book.created, Some(asset.value));
      }
    }
  }

  lemma {:induction false} WorthNothing(outputs: seq<DecodedOutput>, asset: Option<Bytes32>)
    requires forall o :: o in outputs ==> o.amount == 0
    ensures Total(outputs, asset) == 0
  {
    if outputs != [] {
      WorthNothing(outputs[1..], asset);
      assert outputs[0] in outputs;
    }
  }

  /** Two worthless coins, and lists that make one a sink in need of the other, and the other loud or quiet. */
  lemma ThreeLists() returns (sinker: Coin, twice: Coin, ls: seq<Condition>, ll: seq<Condition>, lq: seq<Condition>)
    ensures sinker.puzzleHash == Filled(0) == twice.puzzleHash && sinker.amount == 0 == twice.amount
    ensures NoValue(ls) && NoValue(ll) && NoValue(lq)
    ensures BindingOf(SmallSdk(), sinker, ls) == CoinBinding(Filled(30), Filled(0), true, false, [Filled(31)], [])
    ensures BindingOf(SmallSdk(), twice, ll) == CoinBinding(Filled(31), Filled(0), false, true, [], [])
    ensures BindingOf(SmallSdk(), twice, lq) == CoinBinding(Filled(31), Filled(0), false, false, [], [])
  {
    sinker, twice := Coin(Filled(20), Filled(0), 0), Coin(Filled(21), Filled(0), 0);
    ls := [CreateCoin(Filled(1), 0, None), AssertConcurrentSpend(Filled(31))];
    ll, lq := [AssertPuzzleAnnouncement(Filled(40))], [];
    assert ls[1..] == [AssertConcurrentSpend(Filled(31))] && ls[1..][1..] == [] && ll[1..] == [];
    assert ls[0] in ls && ll[0] in ll;
    assert Creates(ls, None) == [DecodedOutput(Filled(1), 0, None)];
  }

  /** A list that signs nothing, reserves nothing and creates only coins of no value. */
  ghost predicate NoValue(list: seq<Condition>) {
    Unsigned(list) && Reserved(list) == 0 && forall o :: o in Creates(list, None) ==> o.amount == 0
  }

  /** Three such spends of worthless coins: accepted exactly when their bindings are bound. */
  lemma WorthlessThree(a: CoinSpend, b: CoinSpend, c: CoinSpend, la: seq<Condition>, lb: seq<Condition>,
                       lc: seq<Condition>)
    requires Worthless(a, la) && Worthless(b, lb) && Worthless(c, lc)
    ensures Accepted(SmallSdk(), [a, b, c]) <==>
            SettlementBound([BindingOf(SmallSdk(), a.coin, la), BindingOf(SmallSdk(), b.coin, lb),
                             BindingOf(SmallSdk(), c.coin, lc)])
  {
    var sdk := SmallSdk();
    ThreeSpends(sdk, a, b, c);
    var x, y, z := EntryOf(sdk, a).value, EntryOf(sdk, b).value, EntryOf(sdk, c).value;
    WorthlessEntry(a, la);
    WorthlessEntry(b, lb);
    WorthlessEntry(c, lc);
    EvenTogether(y, z, 0, 0);
    EvenTogether(x, y.Plus(z), 0, 0);
    EvenBalances(x.Plus(y.Plus(z)), 0);
    assert x.Plus(y.Plus(z)).bindings ==
      [BindingOf(sdk, a.coin, la), BindingOf(sdk, b.coin, lb), BindingOf(sdk, c.coin, lc)];
    NoMints(sdk, x.Plus(y.Plus(z)), CoinIds(sdk, [a, b, c]));
  }

  lemma WorthlessEntry(spend: CoinSpend, list: seq<Condition>)
    requires Worthless(spend, list)
    ensures var entry := EntryOf(SmallSdk(), spend).value;
            && Even(entry, 0) && entry.launches == [] && entry.eveParents == []
            && entry.bindings == [BindingOf(SmallSdk(), spend.coin, list)]
  {
    var entry := EntryOf(SmallSdk(), spend).value;
    forall asset ensures Total(entry.spent, asset) == 0 == Total(entry.created, asset) {
      WorthNothing(entry.spent, asset);
      WorthNothing(entry.created, asset);
    }
  }

  lemma NoMints(sdk: Sdk, book: Book, ids: seq<Bytes32>)
    requires book.launches == [] && book.eveParents == []
    ensures MintBound(sdk, book, ids)
  {
  }

  ghost predicate Worthless(spend: CoinSpend, list: seq<Condition>) {
    && EntryOf(SmallSdk(), spend).Some? && !IsOptionCoin(SmallSdk(), spend)
    && Enters(SmallSdk(), EntryOf(SmallSdk(), spend).value, spend.coin, list)
    && spend.coin.amount == 0 && NoValue(list)
  }

  lemma WorthlessSpend(coin: Coin, list: seq<Condition>) returns (spend: CoinSpend)
    requires coin.puzzleHash == Filled(0) && coin.amount == 0 && NoValue(list)
    ensures Worthless(spend, list) && spend.coin == coin
  {
    spend := Spend(coin, list);
    SpendEnters(coin, list);
  }

  /** A sink that needs a coin spent twice, once loudly and once quietly: the later spend decides. */
  lemma LaterSpendDecides(sink: CoinSpend, loud: CoinSpend, quiet: CoinSpend,
                          ls: seq<Condition>, ll: seq<Condition>, lq: seq<Condition>)
    requires Worthless(sink, ls) && Worthless(loud, ll) && Worthless(quiet, lq)
    requires BindingOf(SmallSdk(), sink.coin, ls) == CoinBinding(Filled(30), Filled(0), true, false, [Filled(31)], [])
    requires BindingOf(SmallSdk(), loud.coin, ll) == CoinBinding(Filled(31), Filled(0), false, true, [], [])
    requires BindingOf(SmallSdk(), quiet.coin, lq) == CoinBinding(Filled(31), Filled(0), false, false, [], [])
    ensures Accepted(SmallSdk(), [sink, quiet, loud]) && !Accepted(SmallSdk(), [sink, loud, quiet])
  {
    FilledDiffer(30, 31);
    RepeatedCoinIdMakesOrderMatter(Filled(30), Filled(31), Filled(0));
    WorthlessThree(sink, quiet, loud, ls, lq, ll);
    WorthlessThree(sink, loud, quiet, ls, ll, lq);
  }

  /** Without distinct coin ids the order matters: a bundle that spends one coin twice is accepted in one
      order and refused in another, since the index of coin ids keeps the later of the two spends. */
  lemma OrderMatters() returns (sink: CoinSpend, loud: CoinSpend, quiet: CoinSpend)
    ensures loud.coin == quiet.coin && multiset([sink, quiet, loud]) == multiset([sink, loud, quiet])
    ensures Accepted(SmallSdk(), [sink, quiet, loud]) && !Accepted(SmallSdk(), [sink, loud, quiet])
  {
    var sinker, twice, ls, ll, lq := ThreeLists();
    sink := WorthlessSpend(sinker, ls);
    loud := WorthlessSpend(twice, ll);
    quiet := WorthlessSpend(twice, lq);
    LaterSpendDecides(sink, loud, quiet, ls, ll, lq);
  }
}
