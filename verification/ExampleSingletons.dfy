/** Singletons under the example interpreter: two launchers that pass on one launcher output, and a melt
    that an option bundle lets through. */
module ExampleSingletons {
  import opened Prelude
  import opened Clvm
  import opened Conditions
  import opened Settlement
  import opened Book
  import opened Verify
  import opened Mints
  import opened Commitments
  import opened Example
  import opened ExampleBundles
  import opened Building

  // ---- two launchers, one output ----

  lemma EvenMove(book: Book, coin: Coin, to: Bytes32)
    requires book.spent == Spent(coin, None) && book.created == [DecodedOutput(to, coin.amount, None)]
    requires book.fee == 0 && book.melted == 0
    ensures Even(book, coin.amount)
  {
    assert book.spent[1..] == [] && book.created[1..] == [];
  }

  /** A coin handed on whole. */
  ghost predicate HandsOn(sdk: Sdk, spend: CoinSpend, to: Bytes32) {
    && EntryOf(sdk, spend).Some? && !IsOptionCoin(sdk, spend)
    && var entry := EntryOf(sdk, spend).value;
    && Even(entry, spend.coin.amount) && entry.created == [DecodedOutput(to, spend.coin.amount, None)]
  }

  /** The funding coin of two mints: it makes one launcher output and asserts both launchers' announcements. */
  ghost predicate FundsBoth(sdk: Sdk, fund: CoinSpend, first: Bytes32, second: Bytes32) {
    && HandsOn(sdk, fund, sdk.launcherHash)
    && var entry := EntryOf(sdk, fund).value;
    && entry.launches == [] && entry.eveParents == [] && {first, second} <= entry.asserted
    && |entry.bindings| == 1 && entry.bindings[0].carriesAnnouncement
  }

  /** A launcher and the eve it makes, as children of one funding coin. */
  ghost predicate MintPair(sdk: Sdk, fund: Bytes32, launcher: CoinSpend, eve: CoinSpend, to: Bytes32, owner: Bytes32) {
    && HandsOn(sdk, launcher, to) && HandsOn(sdk, eve, owner) && ArmFor(sdk, launcher).LaunchArm?
    && !sdk.IsSinkHash(to) && !sdk.IsSinkHash(owner)
    && var id, l, e := sdk.IdOf(launcher.coin), EntryOf(sdk, launcher).value, EntryOf(sdk, eve).value;
    && l.launches == [Launch(id, fund, [id])] && l.eveParents == [] && l.bindings == []
    && e.launches == [] && e.eveParents == [id] && e.bindings == []
  }

  /** Five spends one after the other. */
  lemma FiveSpends(sdk: Sdk, a: CoinSpend, b: CoinSpend, c: CoinSpend, d: CoinSpend, e: CoinSpend)
    requires EntryOf(sdk, a).Some? && EntryOf(sdk, b).Some?
    requires EntryOf(sdk, c).Some? && EntryOf(sdk, d).Some? && EntryOf(sdk, e).Some?
    requires !IsOptionCoin(sdk, a) && !IsOptionCoin(sdk, b)
    requires !IsOptionCoin(sdk, c) && !IsOptionCoin(sdk, d) && !IsOptionCoin(sdk, e)
    ensures AllAdmitted(sdk, [a, b, c, d, e]) && !IsOptionBundle(sdk, [a, b, c, d, e])
    ensures BookOf(sdk, [a, b, c, d, e]) ==
            EntryOf(sdk, a).value.Plus(EntryOf(sdk, b).value.Plus(
              EntryOf(sdk, c).value.Plus(EntryOf(sdk, d).value.Plus(EntryOf(sdk, e).value))))
  {
    ThreeSpends(sdk, c, d, e);
    assert [b] + [c, d, e] == [b, c, d, e] && [a] + [b, c, d, e] == [a, b, c, d, e];
    SpendAhead(sdk, b, [c, d, e]);
    SpendAhead(sdk, a, [b, c, d, e]);
  }

  /** Under any drivers: two mints funded by one coin that made a single launcher output are accepted. */
  lemma BothMintsAccepted(sdk: Sdk, fund: CoinSpend, l: CoinSpend, m: CoinSpend, e: CoinSpend, f: CoinSpend,
                          to: Bytes32, owner: Bytes32)
    requires FundsBoth(sdk, fund, sdk.IdOf(l.coin), sdk.IdOf(m.coin))
    requires MintPair(sdk, sdk.IdOf(fund.coin), l, e, to, owner) && MintPair(sdk, sdk.IdOf(fund.coin), m, f, to, owner)
    requires fund.coin.amount + l.coin.amount + m.coin.amount + e.coin.amount + f.coin.amount <= U64_MAX
    ensures Accepted(sdk, [fund, l, m, e, f])
    ensures EffectOf(sdk, [fund, l, m, e, f]).protocolSink == [DecodedOutput(sdk.launcherHash, fund.coin.amount, None)]
  {
    var spends := [fund, l, m, e, f];
    FiveSpends(sdk, fund, l, m, e, f);
    var book := BookOf(sdk, spends);
    FiveEven(EntryOf(sdk, fund).value, EntryOf(sdk, l).value, EntryOf(sdk, m).value, EntryOf(sdk, e).value,
             EntryOf(sdk, f).value, fund.coin.amount, l.coin.amount, m.coin.amount, e.coin.amount, f.coin.amount);
    EvenBalances(book, fund.coin.amount + l.coin.amount + m.coin.amount + e.coin.amount + f.coin.amount);
    BothBound(sdk, book, CoinIds(sdk, spends), sdk.IdOf(fund.coin), sdk.IdOf(l.coin), sdk.IdOf(m.coin));
    LoudAlone(book.bindings);
    OneSink(sdk, fund.coin.amount, l.coin.amount, m.coin.amount, e.coin.amount, f.coin.amount, to, owner);
  }

  lemma FiveEven(a: Book, b: Book, c: Book, d: Book, e: Book, i: nat, j: nat, k: nat, l: nat, m: nat)
    requires Even(a, i) && Even(b, j) && Even(c, k) && Even(d, l) && Even(e, m)
    ensures Even(a.Plus(b.Plus(c.Plus(d.Plus(e)))), i + j + k + l + m)
  {
    EvenTogether(d, e, l, m);
    EvenTogether(c, d.Plus(e), k, l + m);
    EvenTogether(b, c.Plus(d.Plus(e)), j, k + (l + m));
    EvenTogether(a, b.Plus(c.Plus(d.Plus(e))), i, j + (k + (l + m)));
  }

  lemma BothBound(sdk: Sdk, book: Book, ids: seq<Bytes32>, fund: Bytes32, first: Bytes32, second: Bytes32)
    requires book.launches == [Launch(first, fund, [first]), Launch(second, fund, [second])]
    requires book.eveParents == [first, second] && {first, second} <= book.asserted && fund in ids
    requires exists o :: o in book.created && o.puzzleHash == sdk.launcherHash
    ensures MintBound(sdk, book, ids)
  {
    var l, m := book.launches[0], book.launches[1];
    assert l in book.launches && m in book.launches;
    assert book.eveParents[0] == first && book.eveParents[1] == second;
    assert first in l.announced && second in m.announced;
  }

  lemma LoudAlone(bindings: seq<CoinBinding>)
    requires |bindings| == 1 && bindings[0].carriesAnnouncement
    ensures SettlementBound(bindings)
  {
    assert Path(bindings, [0]);
    assert [0][|[0]| - 1] == 0;
  }

  lemma OneSink(sdk: Sdk, a: U64, b: U64, c: U64, d: U64, e: U64, to: Bytes32, owner: Bytes32)
    requires !sdk.IsSinkHash(to) && !sdk.IsSinkHash(owner)
    ensures var sink := DecodedOutput(sdk.launcherHash, a, None);
            Routed(sdk, [sink] + ([DecodedOutput(to, b, None)] + ([DecodedOutput(to, c, None)] +
              ([DecodedOutput(owner, d, None)] + [DecodedOutput(owner, e, None)]))), true) == [sink]
  {
    var fourth := [DecodedOutput(owner, d, None)] + [DecodedOutput(owner, e, None)];
    var third := [DecodedOutput(to, c, None)] + fourth;
    var second := [DecodedOutput(to, b, None)] + third;
    assert fourth[1..] == [DecodedOutput(owner, e, None)] && third[1..] == fourth && second[1..] == third;
    assert Routed(sdk, [DecodedOutput(owner, e, None)], true) == [];
    assert Routed(sdk, fourth, true) == [];
    assert Routed(sdk, third, true) == [];
    assert Routed(sdk, second, true) == [];
    assert ([DecodedOutput(sdk.launcherHash, a, None)] + second)[1..] == second;
  }

  /** A launcher makes a coin at the example's standard hash and announces it. */
  function Launcher(coin: Coin): CoinSpend {
    CoinSpend(coin, Some(LAUNCHER), Some(EncodeList(LauncherList(coin.amount))))
  }

  function LauncherList(amount: U64): seq<Condition> {
    [CreateCoin(Filled(0), amount, None), CreateCoinAnnouncement([])]
  }

  lemma LauncherEnters(coin: Coin)
    requires coin.puzzleHash == Filled(2) && coin.amount % 2 == 1
    ensures ArmFor(SmallSdk(), Launcher(coin)).LaunchArm? && !IsOptionCoin(SmallSdk(), Launcher(coin))
    ensures EntryOf(SmallSdk(), Launcher(coin)) ==
            Some(EMPTY_BOOK.(spent := Spent(coin, None), created := [DecodedOutput(Filled(0), coin.amount, None)],
                             launches := [Launch(CoinId(coin), coin.parent, [CoinId(coin)])]))
  {
    var solution := EncodeList(LauncherList(coin.amount));
    assert SmallSdk().RunConditions(LAUNCHER, solution) == Some(LauncherList(coin.amount)) by {
      DecodesBack(LauncherList(coin.amount));
      assert Run(LAUNCHER, solution) == Some(solution);
    }
    assert ArmFor(SmallSdk(), Launcher(coin)) == LaunchArm;
    LaunchEntryReads(SmallSdk(), coin, LAUNCHER, solution);
  }

  /** Under any drivers: what a launcher with that list enters. */
  lemma LaunchEntryReads(sdk: Sdk, coin: Coin, puzzle: SExp, solution: SExp)
    requires sdk.RunConditions(puzzle, solution) == Some(LauncherList(coin.amount)) && coin.amount % 2 == 1
    ensures LaunchEntry(sdk, coin, puzzle, solution) ==
            Some(EMPTY_BOOK.(spent := Spent(coin, None), created := [DecodedOutput(Filled(0), coin.amount, None)],
                             launches := [Launch(sdk.IdOf(coin), coin.parent, [sdk.Announcement(sdk.IdOf(coin), [])])]))
  {
    LauncherReads(sdk, coin);
  }

  lemma LauncherReads(sdk: Sdk, coin: Coin)
    ensures var list, id := LauncherList(coin.amount), sdk.IdOf(coin);
            && Creates(list, None) == [DecodedOutput(Filled(0), coin.amount, None)]
            && Announced(sdk, id, list) == [sdk.Announcement(id, [])]
  {
    var list, loud := LauncherList(coin.amount), [CreateCoinAnnouncement([])];
    assert list[1..] == loud && loud[1..] == [];
    assert Creates(loud, None) == [] && Announced(sdk, sdk.IdOf(coin), loud) == [sdk.Announcement(sdk.IdOf(coin), [])];
  }

  /** An eve hands its singleton to the example's address. */
  function Eve(coin: Coin): CoinSpend {
    CoinSpend(coin, Some(Pair(Atom([5]), Pair(Atom([1]), EncodeList(EveList(coin.amount))))), Some(Atom([])))
  }

  function EveList(amount: U64): seq<Condition> {
    [CreateCoin(TO, amount, None)]
  }

  lemma EveEnters(coin: Coin)
    requires coin.puzzleHash == Filled(0) && coin.amount % 2 == 1
    ensures !IsOptionCoin(SmallSdk(), Eve(coin))
    ensures EntryOf(SmallSdk(), Eve(coin)) ==
            Some(EMPTY_BOOK.(spent := Spent(coin, None), created := [DecodedOutput(TO, coin.amount, None)],
                             operations := [Mint(coin.parent, TO)], eveParents := [coin.parent]))
  {
    var list := EveList(coin.amount);
    DecodesBack(list);
    FilledDiffer(0, 2);
    FilledDiffer(7, 1);
    FilledDiffer(7, 2);
    assert list[1..] == [] && Creates(list, None) == [DecodedOutput(TO, coin.amount, None)];
    var quote := Pair(Atom([1]), EncodeList(list));
    assert Run(Pair(Atom([5]), quote), Atom([])) == Run(quote, Atom([])) == Some(EncodeList(list));
    assert ArmFor(SmallSdk(), Eve(coin)) == NftEveArm(NftView(coin.parent, EveProof, quote, Atom([])));
  }

  /** The launcher-hash output is asked for once, not once a launcher: this accepted bundle spends two
      launchers, of one mojo and of three, and makes one output of one mojo between them. */
  lemma LaunchersShareASink() returns (spends: seq<CoinSpend>, first: CoinSpend, second: CoinSpend)
    ensures Accepted(SmallSdk(), spends) && first in spends && second in spends
    ensures ArmFor(SmallSdk(), first).LaunchArm? && ArmFor(SmallSdk(), second).LaunchArm?
    ensures first.coin.amount == 1 && second.coin.amount == 3
    ensures EffectOf(SmallSdk(), spends).protocolSink == [DecodedOutput(SmallSdk().launcherHash, 1, None)]
  {
    var fund, e, f;
    fund, first, second, e, f := TwoMints();
    spends := [fund, first, second, e, f];
    BothMintsAccepted(SmallSdk(), fund, first, second, e, f, Filled(0), TO);
  }

  lemma TwoMints() returns (fund: CoinSpend, l: CoinSpend, m: CoinSpend, e: CoinSpend, f: CoinSpend)
    ensures var sdk := SmallSdk();
            && FundsBoth(sdk, fund, sdk.IdOf(l.coin), sdk.IdOf(m.coin))
            && MintPair(sdk, sdk.IdOf(fund.coin), l, e, Filled(0), TO)
            && MintPair(sdk, sdk.IdOf(fund.coin), m, f, Filled(0), TO)
    ensures fund.coin.amount == l.coin.amount == e.coin.amount == 1 && m.coin.amount == f.coin.amount == 3
  {
    var coin := Coin(Filled(40), Filled(0), 1);
    var id := CoinId(coin);
    fund := FundingSpend(coin, CoinId(Coin(id, Filled(2), 1)), CoinId(Coin(id, Filled(2), 3)));
    l, e := PairUnder(id, 1);
    m, f := PairUnder(id, 3);
  }

  lemma FundingSpend(coin: Coin, first: Bytes32, second: Bytes32) returns (fund: CoinSpend)
    requires coin.puzzleHash == Filled(0)
    ensures FundsBoth(SmallSdk(), fund, first, second) && fund.coin == coin
  {
    var list := FundingList(coin.amount, first, second);
    FundingReads(SmallSdk(), coin, first, second);
    fund := Spend(coin, list);
    SpendEnters(coin, list);
    EvenMove(EntryOf(SmallSdk(), fund).value, coin, SmallSdk().launcherHash);
  }

  lemma FundingReads(sdk: Sdk, coin: Coin, first: Bytes32, second: Bytes32)
    ensures var list := FundingList(coin.amount, first, second);
            && Unsigned(list) && Reserved(list) == 0
            && Creates(list, None) == [DecodedOutput(Filled(2), coin.amount, None)]
            && {first, second} <= AssertedAnnouncements(list) && BindingOf(sdk, coin, list).carriesAnnouncement
  {
    var list := FundingList(coin.amount, first, second);
    assert list[1] in list && list[2] in list;
    NoCreates(list[1..]);
    NothingReserved(list);
  }

  lemma {:induction false} NothingReserved(conditions: seq<Condition>)
    requires forall c :: c in conditions ==> !c.ReserveFee?
    ensures Reserved(conditions) == 0
  {
    if conditions != [] {
      NothingReserved(conditions[1..]);
    }
  }

  function FundingList(amount: U64, first: Bytes32, second: Bytes32): seq<Condition> {
    [CreateCoin(Filled(2), amount, None), AssertCoinAnnouncement(first), AssertCoinAnnouncement(second)]
  }

  lemma PairUnder(fund: Bytes32, amount: U64) returns (launcher: CoinSpend, eve: CoinSpend)
    requires amount % 2 == 1
    ensures MintPair(SmallSdk(), fund, launcher, eve, Filled(0), TO)
    ensures launcher.coin == Coin(fund, Filled(2), amount) && eve.coin.amount == amount
  {
    var coin := Coin(fund, Filled(2), amount);
    launcher, eve := Launcher(coin), Eve(Coin(CoinId(coin), Filled(0), amount));
    LauncherEnters(coin);
    EveEnters(eve.coin);
    EvenMove(EntryOf(SmallSdk(), launcher).value, coin, Filled(0));
    EvenMove(EntryOf(SmallSdk(), eve).value, eve.coin, TO);
    FilledDiffer(0, 1);
    FilledDiffer(0, 2);
    FilledDiffer(7, 1);
    FilledDiffer(7, 2);
  }

  // ---- an empty melt beside an option ----

  const OPTION := Pair(Atom([4]), STANDARD)
  const SINGLETON := Pair(Atom([6]), STANDARD)

  /** The standard spend of this list inside a layer. */
  function Layered(layer: SExp, coin: Coin, list: seq<Condition>): CoinSpend {
    CoinSpend(coin, Some(layer), Spend(coin, list).solution)
  }

  /** Under any drivers: what an option transfer with that quoted list enters. */
  lemma OptionEntryReads(sdk: Sdk, coin: Coin, puzzle: SExp, solution: SExp, own: Condition)
    requires own.AggSigMe? && |own.message| == 32 && sdk.StandardOf(puzzle).Found? && coin.amount % 2 == 1
    requires sdk.RunConditions(puzzle, solution) == Some([own] + EveList(coin.amount)) && !sdk.IsSinkHash(TO)
    requires CommittedStandardSpend(sdk, solution) == Some(CommittedSpend(Word(own.message), EveList(coin.amount)))
    ensures OptionEntry(sdk, coin, puzzle, solution) ==
            Some(EMPTY_BOOK.(spent := Spent(coin, None), created := [DecodedOutput(TO, coin.amount, None)]))
  {
    var list := EveList(coin.amount);
    OwnSignatureAddsNothing(sdk, coin, None, own, list);
    assert ([own] + list)[1..] == list && list[1..] == [];
    assert SignatureConditions(list) == [] && Creates(list, None) == [DecodedOutput(TO, coin.amount, None)];
  }

  /** An option coin re-homed to the example's address. */
  lemma OptionEnters(coin: Coin)
    requires coin.puzzleHash == Filled(0) && coin.amount % 2 == 1
    ensures var spend := Layered(OPTION, coin, EveList(coin.amount));
            && EntryOf(SmallSdk(), spend) ==
               Some(EMPTY_BOOK.(spent := Spent(coin, None), created := [DecodedOutput(TO, coin.amount, None)]))
            && IsOptionCoin(SmallSdk(), spend)
  {
    var spend := Layered(OPTION, coin, EveList(coin.amount));
    SpendRuns(coin, EveList(coin.amount));
    FilledDiffer(7, 1);
    FilledDiffer(7, 2);
    OptionEntryReads(SmallSdk(), coin, STANDARD, spend.solution.value, AggSigMe(KEY, Filled(3).bytes));
    assert ArmFor(SmallSdk(), spend) == OptionArm(OptionView(STANDARD, spend.solution.value));
  }

  /** Under any drivers: what a melt with that quoted list enters. */
  lemma MeltEntryReads(sdk: Sdk, coin: Coin, puzzle: SExp, solution: SExp, own: Condition)
    requires own.AggSigMe? && |own.message| == 32
    requires sdk.RunConditions(puzzle, solution) == Some([own] + [MeltSingleton])
    requires CommittedMeltConditions(sdk, solution, Word(own.message)) == Some([MeltSingleton])
    ensures MeltEntry(sdk, coin, puzzle, solution) ==
            Some(EMPTY_BOOK.(spent := Spent(coin, None), melted := coin.amount, melts := [sdk.IdOf(coin)]))
  {
    var list := [MeltSingleton];
    assert ([own] + list)[1..] == list && list[1..] == [];
    assert SignatureConditions(list) == [] && Melts(list) == 1;
  }

  /** The quote is found in the solution by its hash. */
  lemma MeltQuoteFound(coin: Coin)
    ensures CommittedMeltConditions(SmallSdk(), Spend(coin, [MeltSingleton]).solution.value, Filled(3)) ==
            Some([MeltSingleton])
  {
    var quote := Pair(Atom([1]), EncodeList([MeltSingleton]));
    FilledDiffer(0, 3);
    DecodesBack([MeltSingleton]);
    assert FindSubtree(SmallSdk(), quote, Filled(3), 1) == Some(quote);
    assert FindSubtree(SmallSdk(), Pair(quote, Atom([])), Filled(3), 0) == Some(quote);
  }

  /** The melt of a coin: its quoted list melts once and does nothing else. */
  lemma MeltEnters(coin: Coin)
    requires coin.puzzleHash == Filled(0)
    ensures var spend := Layered(SINGLETON, coin, [MeltSingleton]);
            && EntryOf(SmallSdk(), spend) ==
               Some(EMPTY_BOOK.(spent := Spent(coin, None), melted := coin.amount, melts := [CoinId(coin)]))
            && !IsOptionCoin(SmallSdk(), spend) && ArmFor(SmallSdk(), spend).MeltArm?
  {
    var solution, own := Spend(coin, [MeltSingleton]).solution.value, AggSigMe(KEY, Filled(3).bytes);
    assert SmallSdk().RunConditions(SINGLETON, solution) == Some([own] + [MeltSingleton]) by {
      SpendRuns(coin, [MeltSingleton]);
      LayerRuns(SINGLETON, solution);
    }
    MeltQuoteFound(coin);
    assert Word(own.message) == Filled(3);
    MeltEntryReads(SmallSdk(), coin, SINGLETON, solution, own);
    MeltArmTaken(coin, solution);
  }

  lemma MeltArmTaken(coin: Coin, solution: SExp)
    requires coin.puzzleHash == Filled(0)
    ensures ArmOf(SmallSdk(), coin, SINGLETON, solution) == MeltArm
    ensures !IsOptionCoin(SmallSdk(), CoinSpend(coin, Some(SINGLETON), Some(solution)))
  {
    FilledDiffer(0, 2);
  }

  /** Under any drivers: an option coin handed on whole and the melt of a coin of no value. */
  lemma EmptyMeltAccepted(sdk: Sdk, option: CoinSpend, melt: CoinSpend, to: Bytes32)
    requires EntryOf(sdk, option).Some? && IsOptionCoin(sdk, option)
    requires EntryOf(sdk, option).value ==
             EMPTY_BOOK.(spent := Spent(option.coin, None), created := [DecodedOutput(to, option.coin.amount, None)])
    requires EntryOf(sdk, melt) == Some(EMPTY_BOOK.(spent := Spent(melt.coin, None), melts := [sdk.IdOf(melt.coin)]))
    requires melt.coin.amount == 0
    ensures Accepted(sdk, [option, melt]) && IsOptionBundle(sdk, [option, melt])
    ensures EffectOf(sdk, [option, melt]).meltedSingletons == [sdk.IdOf(melt.coin)]
  {
    var x, y := EntryOf(sdk, option).value, EntryOf(sdk, melt).value;
    assert AllAdmitted(sdk, [option, melt]) && BookOf(sdk, [option, melt]) == x.Plus(y) &&
           IsOptionBundle(sdk, [option, melt])
    by {
      assert [melt] + [] == [melt] && [option] + [melt] == [option, melt];
      SpendAhead(sdk, melt, []);
      SpendAhead(sdk, option, [melt]);
      PlusEmpty(y);
    }
    EvenMove(x, option.coin, to);
    EmptyIsEven(y, melt.coin);
    EvenTogether(x, y, option.coin.amount, 0);
    QuietBalances(sdk, x.Plus(y), option.coin.amount, CoinIds(sdk, [option, melt]));
  }

  /** An even book that launches and binds nothing passes in option mode. */
  lemma QuietBalances(sdk: Sdk, book: Book, amount: nat, ids: seq<Bytes32>)
    requires Even(book, amount) && amount <= U64_MAX
    requires book.launches == [] && book.eveParents == [] && book.bindings == []
    ensures Fits(book) && XchConserved(book, true) && CatsConserved(book)
    ensures MintBound(sdk, book, ids) && SettlementBound(book.bindings)
  {
    EvenBalances(book, amount);
  }

  lemma EmptyIsEven(book: Book, coin: Coin)
    requires book.spent == Spent(coin, None) && book.created == [] && book.fee == 0 && book.melted == 0
    requires coin.amount == 0
    ensures Even(book, 0)
  {
    assert Spent(coin, None)[1..] == [];
  }

  /** The option-bundle refusal reads melted mojos only: this accepted option bundle melts a singleton. */
  lemma EmptyMeltPasses() returns (spends: seq<CoinSpend>, melt: CoinSpend)
    ensures Accepted(SmallSdk(), spends) && IsOptionBundle(SmallSdk(), spends)
    ensures melt in spends && ArmFor(SmallSdk(), melt).MeltArm?
    ensures EffectOf(SmallSdk(), spends).meltedSingletons == [SmallSdk().IdOf(melt.coin)]
  {
    var option;
    option, melt := OptionAndMelt();
    spends := [option, melt];
    EmptyMeltAccepted(SmallSdk(), option, melt, TO);
  }

  lemma OptionAndMelt() returns (option: CoinSpend, melt: CoinSpend)
    ensures var sdk := SmallSdk();
            && EntryOf(sdk, option) ==
               Some(EMPTY_BOOK.(spent := Spent(option.coin, None),
                                created := [DecodedOutput(TO, option.coin.amount, None)]))
            && EntryOf(sdk, melt) == Some(EMPTY_BOOK.(spent := Spent(melt.coin, None), melts := [sdk.IdOf(melt.coin)]))
            && IsOptionCoin(sdk, option) && ArmFor(sdk, melt).MeltArm? && melt.coin.amount == 0
  {
    var coin, empty := Coin(Filled(40), Filled(0), 1), Coin(Filled(41), Filled(0), 0);
    option, melt := Layered(OPTION, coin, EveList(1)), Layered(SINGLETON, empty, [MeltSingleton]);
    OptionEnters(coin);
    MeltEnters(empty);
  }

  // ---- a melt of value beside a send ----

  /** Under any drivers: a send that pays a free address and reserves a fee, and the melt of a coin of value. */
  lemma MeltBesideSendAccepted(sdk: Sdk, send: CoinSpend, melt: CoinSpend, to: Bytes32, paid: U64, fee: U64)
    requires SendsAndReserves(sdk, send, to, paid, fee) && MeltsWhole(sdk, melt)
    requires send.coin.amount == paid + fee && paid + fee + melt.coin.amount <= U64_MAX
    ensures Accepted(sdk, [send, melt]) && !IsOptionBundle(sdk, [send, melt])
    ensures EffectOf(sdk, [send, melt]).fee == fee + melt.coin.amount
    ensures EffectOf(sdk, [send, melt]).meltedSingletons == [sdk.IdOf(melt.coin)]
  {
    SendAndMeltBook(sdk, send, melt, to, paid, fee);
  }

  lemma SendAndMeltBook(sdk: Sdk, send: CoinSpend, melt: CoinSpend, to: Bytes32, paid: U64, fee: U64)
    requires SendsAndReserves(sdk, send, to, paid, fee) && MeltsWhole(sdk, melt)
    requires send.coin.amount == paid + fee && paid + fee + melt.coin.amount <= U64_MAX
    ensures AllAdmitted(sdk, [send, melt]) && !IsOptionBundle(sdk, [send, melt])
    ensures var book := BookOf(sdk, [send, melt]);
            && Fits(book) && XchConserved(book, false) && CatsConserved(book)
            && MintBound(sdk, book, CoinIds(sdk, [send, melt])) && SettlementBound(book.bindings)
            && ReportedFee(book, false) == fee + melt.coin.amount && book.melts == [sdk.IdOf(melt.coin)]
  {
    var x, y := EntryOf(sdk, send).value, EntryOf(sdk, melt).value;
    assert AllAdmitted(sdk, [send, melt]) && BookOf(sdk, [send, melt]) == x.Plus(y) &&
           !IsOptionBundle(sdk, [send, melt])
    by {
      assert [melt] + [] == [melt] && [send] + [melt] == [send, melt];
      SpendAhead(sdk, melt, []);
      SpendAhead(sdk, send, [melt]);
      PlusEmpty(y);
    }
    SendAndMeltBalance(x, y, send.coin, melt.coin, to, paid, fee);
    SendAndMeltQuiet(sdk, x, y, CoinIds(sdk, [send, melt]));
  }

  lemma SendAndMeltQuiet(sdk: Sdk, x: Book, y: Book, ids: seq<Bytes32>)
    requires x.launches == [] && x.eveParents == [] && y.launches == [] && y.eveParents == []
    requires |x.bindings| == 1 && !x.bindings[0].createsSink && y.bindings == []
    ensures MintBound(sdk, x.Plus(y), ids) && SettlementBound(x.Plus(y).bindings)
  {
    NoMints(sdk, x.Plus(y), ids);
    QuietAlone(x.bindings, x.Plus(y).bindings);
  }

  lemma QuietAlone(one: seq<CoinBinding>, bindings: seq<CoinBinding>)
    requires |one| == 1 && !one[0].createsSink && bindings == one + []
    ensures SettlementBound(bindings)
  {
    assert |bindings| == 1 && bindings[0] == one[0];
    NoSinks(bindings);
  }

  lemma NoSinks(bindings: seq<CoinBinding>)
    requires forall i: nat :: i < |bindings| ==> !bindings[i].createsSink
    ensures SettlementBound(bindings)
  {
  }

  ghost predicate SendsAndReserves(sdk: Sdk, send: CoinSpend, to: Bytes32, paid: U64, fee: U64) {
    && EntryOf(sdk, send).Some? && !IsOptionCoin(sdk, send)
    && var entry := EntryOf(sdk, send).value;
    && entry.spent == Spent(send.coin, None) && PlainBook(entry, [DecodedOutput(to, paid, None)], fee)
    && |entry.bindings| == 1 && !entry.bindings[0].createsSink
  }

  ghost predicate MeltsWhole(sdk: Sdk, melt: CoinSpend) {
    && !IsOptionCoin(sdk, melt)
    && EntryOf(sdk, melt) ==
       Some(EMPTY_BOOK.(spent := Spent(melt.coin, None), melted := melt.coin.amount, melts := [sdk.IdOf(melt.coin)]))
  }

  lemma SendAndMeltBalance(x: Book, y: Book, sent: Coin, melted: Coin, to: Bytes32, paid: U64, fee: U64)
    requires x.spent == Spent(sent, None) && PlainBook(x, [DecodedOutput(to, paid, None)], fee)
    requires y.spent == Spent(melted, None) && y.created == [] && y.fee == 0 && y.melted == melted.amount
    requires sent.amount == paid + fee && paid + fee + melted.amount <= U64_MAX
    ensures Fits(x.Plus(y)) && XchConserved(x.Plus(y), false) && CatsConserved(x.Plus(y))
    ensures ReportedFee(x.Plus(y), false) == fee + melted.amount
  {
    var book := x.Plus(y);
    assert x.spent[1..] == [] && y.spent[1..] == [] && x.created[1..] == [];
    assert book.created == x.created;
    forall asset
      ensures Total(book.spent, asset) == if asset.None? then sent.amount + melted.amount else 0
      ensures Total(book.created, asset) == if asset.None? then paid else 0
    {
      TotalConcat(x.spent, y.spent, asset);
    }
  }

  /** The ordinary deletion of a singleton: beside a send of 100 that pays 90 and reserves 10, a coin of one mojo
      is destroyed, and the fee is 11. */
  lemma MeltOfValuePasses() returns (spends: seq<CoinSpend>, melt: CoinSpend)
    ensures Accepted(SmallSdk(), spends) && !IsOptionBundle(SmallSdk(), spends)
    ensures melt in spends && ArmFor(SmallSdk(), melt).MeltArm? && melt.coin.amount == 1
    ensures EffectOf(SmallSdk(), spends).fee == 11
    ensures EffectOf(SmallSdk(), spends).meltedSingletons == [SmallSdk().IdOf(melt.coin)]
  {
    var send;
    send, melt := SendAndMelt();
    spends := [send, melt];
    MeltBesideSendAccepted(SmallSdk(), send, melt, TO, 90, 10);
  }

  lemma SendAndMelt() returns (send: CoinSpend, melt: CoinSpend)
    ensures SendsAndReserves(SmallSdk(), send, TO, 90, 10) && send.coin.amount == 100
    ensures MeltsWhole(SmallSdk(), melt) && ArmFor(SmallSdk(), melt).MeltArm? && melt.coin.amount == 1
  {
    var coin, single := Coin(Filled(40), Filled(0), 100), Coin(Filled(41), Filled(0), 1);
    send, melt := Spend(coin, PaysAndReserves(90, 10)), Layered(SINGLETON, single, [MeltSingleton]);
    PaysAndReservesReads(SmallSdk(), coin, 90, 10);
    FilledDiffer(7, 1);
    FilledDiffer(7, 2);
    SpendEnters(coin, PaysAndReserves(90, 10));
    MeltEnters(single);
  }

  function PaysAndReserves(paid: U64, fee: U64): seq<Condition> {
    [CreateCoin(TO, paid, None), ReserveFee(fee)]
  }

  lemma PaysAndReservesReads(sdk: Sdk, coin: Coin, paid: U64, fee: U64)
    ensures var list := PaysAndReserves(paid, fee);
            && Unsigned(list) && Reserved(list) == fee
            && Creates(list, None) == [DecodedOutput(TO, paid, None)]
            && (BindingOf(sdk, coin, list).createsSink ==> sdk.IsSinkHash(TO))
  {
    var list, last := PaysAndReserves(paid, fee), [ReserveFee(fee)];
    assert list[1..] == last && last[1..] == [];
    NoCreates(last);
    assert Reserved(last) == fee + Reserved(last[1..]);
  }
}
