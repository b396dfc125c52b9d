/** What a signature pins. The standard layer signs the tree hash of a delegated puzzle and says
    nothing of the solution; these lemmas show why admitting only quotes makes that enough.
    Each holds unless two different CLVM values with one tree hash are exhibited. */
module Commitments {
  import opened Prelude
  import opened Clvm
  import opened Conditions
  import opened Settlement
  import opened Book
  import opened Verify

  /** The delegated puzzle a standard-layer solution carries. */
  function DelegatedOf(sdk: Sdk, solution: SExp): SExp
    requires sdk.StandardSolutionOf(solution).Some?
  {
    sdk.StandardSolutionOf(solution).value.delegatedPuzzle
  }

  /** A standard layer with a quoted delegated puzzle emits the quoted list, after its own signature
      when the solution delegates, and without one when it takes the hidden path and does not fail. */
  lemma QuotedSpendEmits(sdk: Sdk, puzzle: SExp, solution: SExp)
    requires sdk.QuoteLaw() && sdk.StandardLaw() && sdk.StandardOf(puzzle).Found?
    requires CommittedStandardSpend(sdk, solution).Some?
    ensures var committed := CommittedStandardSpend(sdk, solution).value;
            var emitted := sdk.RunConditions(puzzle, solution);
            if sdk.Delegates(solution)
            then emitted ==
              Some([AggSigMe(sdk.StandardOf(puzzle).value, committed.message.bytes)] + committed.conditions)
            else emitted == None || emitted == Some(committed.conditions)
  {
    var delegated := DelegatedOf(sdk, solution);
    assert delegated == Pair(Atom([1]), delegated.rest);
  }

  /** An NFT transfer's message pins everything read through it: the quoted list and, with it, the
      new owner. The launcher is read from the coin's puzzle, not from what is signed. */
  lemma SameSignatureSameTransfer(sdk: Sdk, a: NftView, b: NftView)
    requires SignedTransfer(sdk, a).Some? && SignedTransfer(sdk, b).Some?
    requires SignedTransfer(sdk, a).value.0 == SignedTransfer(sdk, b).value.0
    ensures || (&& CommittedStandardSpend(sdk, a.p2Solution) == CommittedStandardSpend(sdk, b.p2Solution)
                && SignedTransfer(sdk, a) == SignedTransfer(sdk, b))
            || sdk.Collision(DelegatedOf(sdk, a.p2Solution), DelegatedOf(sdk, b.p2Solution))
  {
  }

  /** Whatever solution makes the standard layer emit the signed message runs to the layer's own
      signature and then exactly the list that was analyzed. The replay must spend by its delegated
      puzzle: on the hidden path the layer signs nothing, so no signature of the wallet is at stake. */
  lemma SignaturePinsConditions(sdk: Sdk, puzzle: SExp, analyzed: SExp, replay: SExp)
    requires sdk.QuoteLaw() && sdk.StandardLaw() && sdk.StandardOf(puzzle).Found?
    requires CommittedStandardSpend(sdk, analyzed).Some? && sdk.Delegates(replay)
    requires var emitted := sdk.RunConditions(puzzle, replay);
             && emitted.Some? && emitted.value != [] && emitted.value[0].AggSigMe?
             && emitted.value[0].message == CommittedStandardSpend(sdk, analyzed).value.message.bytes
    ensures var committed := CommittedStandardSpend(sdk, analyzed).value;
            || (&& sdk.RunConditions(puzzle, replay) ==
                   Some([AggSigMe(sdk.StandardOf(puzzle).value, committed.message.bytes)] + committed.conditions)
                && (SolelySigned(sdk, puzzle, replay) && SolelySigned(sdk, puzzle, analyzed) ==>
                      sdk.RunConditions(puzzle, replay) == sdk.RunConditions(puzzle, analyzed)))
            || sdk.Collision(DelegatedOf(sdk, analyzed), DelegatedOf(sdk, replay))
  {
    var signed, other := DelegatedOf(sdk, analyzed), DelegatedOf(sdk, replay);
    assert sdk.Hash(signed) == Word(sdk.Hash(signed).bytes) == sdk.Hash(other);
    if signed == other {
      assert signed == Pair(Atom([1]), signed.rest);
      SameMessageSameConditions(sdk, puzzle, analyzed, replay);
    }
  }

  /** Two solutions of one standard layer with the same signed message, each emitting exactly one
      signature, emit the same conditions. They cannot sit on different paths: the delegated path
      adds a signature to the list both of them quote. */
  lemma SameMessageSameConditions(sdk: Sdk, puzzle: SExp, s: SExp, t: SExp)
    requires sdk.QuoteLaw() && sdk.StandardLaw() && sdk.StandardOf(puzzle).Found?
    requires CommittedStandardSpend(sdk, s).Some? && CommittedStandardSpend(sdk, t).Some?
    requires CommittedStandardSpend(sdk, s).value.message == CommittedStandardSpend(sdk, t).value.message
    ensures || (&& CommittedStandardSpend(sdk, s) == CommittedStandardSpend(sdk, t)
                && (SolelySigned(sdk, puzzle, s) && SolelySigned(sdk, puzzle, t) ==>
                      sdk.RunConditions(puzzle, s) == sdk.RunConditions(puzzle, t)))
            || sdk.Collision(DelegatedOf(sdk, s), DelegatedOf(sdk, t))
  {
    QuotedSpendEmits(sdk, puzzle, s);
    QuotedSpendEmits(sdk, puzzle, t);
    var committed := CommittedStandardSpend(sdk, s).value;
    var own := AggSigMe(sdk.StandardOf(puzzle).value, committed.message.bytes);
    assert ([own] + committed.conditions)[1..] == committed.conditions;
  }

  /** The puzzle runs and emits exactly one signature, over a word. */
  predicate SolelySigned(sdk: Sdk, puzzle: SExp, solution: SExp) {
    sdk.RunConditions(puzzle, solution).Some? && SoleMessage(sdk.RunConditions(puzzle, solution).value).Some?
  }

  // ---- whole spends ----

  /** The delegated-puzzle hash the wallet's signature on this coin commits to; `None` for a coin
      that is spent without one. */
  function CommittedMessage(sdk: Sdk, spend: CoinSpend): Option<Bytes32>
    requires EntryOf(sdk, spend).Some?
  {
    match ArmFor(sdk, spend)
    case StandardArm => Some(CommittedStandardSpend(sdk, spend.solution.value).value.message)
    case CatArm(cat) =>
      if sdk.SettlementOf(cat.p2Puzzle).Absent?
        then Some(CommittedStandardSpend(sdk, cat.p2Solution).value.message) else None
    case OptionArm(option) => Some(CommittedStandardSpend(sdk, option.p2Solution).value.message)
    case NftTransferArm(nft) => Some(CommittedStandardSpend(sdk, nft.p2Solution).value.message)
    case MeltArm => SoleMessage(sdk.RunConditions(spend.puzzleReveal.value, spend.solution.value).value)
    case _ => None
  }

  /** The program that hash is the tree hash of. */
  function SignedProgram(sdk: Sdk, spend: CoinSpend): Option<SExp>
    requires EntryOf(sdk, spend).Some?
  {
    match ArmFor(sdk, spend)
    case StandardArm => Some(DelegatedOf(sdk, spend.solution.value))
    case CatArm(cat) =>
      if sdk.SettlementOf(cat.p2Puzzle).Absent? then Some(DelegatedOf(sdk, cat.p2Solution)) else None
    case OptionArm(option) => Some(DelegatedOf(sdk, option.p2Solution))
    case NftTransferArm(nft) => Some(DelegatedOf(sdk, nft.p2Solution))
    case MeltArm => FindSubtree(sdk, spend.solution.value, CommittedMessage(sdk, spend).value, 0)
    case _ => None
  }

  lemma SignedProgramHashes(sdk: Sdk, spend: CoinSpend)
    requires EntryOf(sdk, spend).Some?
    ensures SignedProgram(sdk, spend).Some? <==> CommittedMessage(sdk, spend).Some?
    ensures SignedProgram(sdk, spend).Some? ==>
              sdk.Hash(SignedProgram(sdk, spend).value) == CommittedMessage(sdk, spend).value
  {
    if ArmFor(sdk, spend).MeltArm? {
      FindSubtreeSound(sdk, spend.solution.value, CommittedMessage(sdk, spend).value, 0);
    }
  }

  /** Two spends of one coin that ask the wallet for the same thing: the same spend, or any two
      solutions that commit to the same signed message. */
  ghost predicate SameCommitment(sdk: Sdk, a: CoinSpend, b: CoinSpend)
    requires EntryOf(sdk, a).Some? && EntryOf(sdk, b).Some?
  {
    || a == b
    || (a.coin == b.coin && CommittedMessage(sdk, a).Some? && CommittedMessage(sdk, a) == CommittedMessage(sdk, b))
  }

  /** The two spends show two different values with one tree hash: as the coin's puzzle, or as the
      program the signature commits to. */
  ghost predicate Collide(sdk: Sdk, a: CoinSpend, b: CoinSpend)
    requires EntryOf(sdk, a).Some? && EntryOf(sdk, b).Some?
  {
    || sdk.Collision(a.puzzleReveal.value, b.puzzleReveal.value)
    || (&& SignedProgram(sdk, a).Some? && SignedProgram(sdk, b).Some?
        && sdk.Collision(SignedProgram(sdk, a).value, SignedProgram(sdk, b).value))
  }

  /** The NFT layers hand on the signatures of an inner list the transfer arm would permit, and the
      coins they create are decided by the inner list: two solutions of one NFT coin that run the inner
      puzzle alike create alike. */
  ghost predicate NftLaw(sdk: Sdk) {
    && (forall coin: Coin, puzzle: SExp, solution: SExp {:trigger sdk.NftOf(coin, puzzle, solution)} ::
          sdk.NftOf(coin, puzzle, solution).Found? && sdk.RunConditions(puzzle, solution).Some? ==>
            NftHandsOn(sdk, sdk.NftOf(coin, puzzle, solution).value, sdk.RunConditions(puzzle, solution).value))
    && (forall coin: Coin, puzzle: SExp, s: SExp, t: SExp
          {:trigger sdk.NftOf(coin, puzzle, s), sdk.NftOf(coin, puzzle, t)} ::
          sdk.NftOf(coin, puzzle, s).Found? && sdk.NftOf(coin, puzzle, t).Found? ==>
            NftCreatesAlike(sdk, puzzle, s, t, sdk.NftOf(coin, puzzle, s).value, sdk.NftOf(coin, puzzle, t).value))
  }

  ghost predicate NftHandsOn(sdk: Sdk, nft: NftView, outer: seq<Condition>) {
    var inner := sdk.RunConditions(nft.p2Puzzle, nft.p2Solution);
    && inner.Some?
    && (AllPermitted(inner.value, NftOuter) ==> SignatureConditions(outer) == SignatureConditions(inner.value))
  }

  predicate AllPermitted(conditions: seq<Condition>, leg: RehomeClass) {
    forall c :: c in conditions ==> RehomePermits(c, leg)
  }

  ghost predicate NftCreatesAlike(sdk: Sdk, puzzle: SExp, s: SExp, t: SExp, x: NftView, y: NftView) {
    && sdk.RunConditions(x.p2Puzzle, x.p2Solution) == sdk.RunConditions(y.p2Puzzle, y.p2Solution)
    && sdk.RunConditions(puzzle, s).Some? && sdk.RunConditions(puzzle, t).Some?
    ==> Creates(sdk.RunConditions(puzzle, s).value, None) == Creates(sdk.RunConditions(puzzle, t).value, None)
  }

  /** One coin, one puzzle, one signed message, and both spends admitted. */
  ghost predicate Resolved(sdk: Sdk, a: CoinSpend, b: CoinSpend) {
    && sdk.QuoteLaw() && sdk.StandardLaw() && sdk.LayerLaw()
    && EntryOf(sdk, a).Some? && EntryOf(sdk, b).Some?
    && a.coin == b.coin && a.puzzleReveal == b.puzzleReveal
    && CommittedMessage(sdk, a).Some? && CommittedMessage(sdk, a) == CommittedMessage(sdk, b)
  }

  /** The arm is decided by the puzzle, but for an unsigned eve. */
  lemma SameArm(sdk: Sdk, a: CoinSpend, b: CoinSpend)
    requires Resolved(sdk, a, b)
    ensures ArmFor(sdk, a).CatArm? <==> ArmFor(sdk, b).CatArm?
    ensures ArmFor(sdk, a).OptionArm? <==> ArmFor(sdk, b).OptionArm?
    ensures ArmFor(sdk, a).NftTransferArm? <==> ArmFor(sdk, b).NftTransferArm?
    ensures ArmFor(sdk, a).MeltArm? <==> ArmFor(sdk, b).MeltArm?
    ensures ArmFor(sdk, a).StandardArm? <==> ArmFor(sdk, b).StandardArm?
    ensures IsOptionCoin(sdk, a) <==> ArmFor(sdk, a).OptionArm?
  {
    var coin, puzzle := a.coin, a.puzzleReveal.value;
    assert SameCat(sdk.CatOf(coin, puzzle, a.solution.value), sdk.CatOf(coin, puzzle, b.solution.value));
    assert SameOption(sdk.OptionOf(coin, puzzle, a.solution.value), sdk.OptionOf(coin, puzzle, b.solution.value));
    assert SameNft(sdk.NftOf(coin, puzzle, a.solution.value), sdk.NftOf(coin, puzzle, b.solution.value));
  }

  /** The views two resolved spends are read through wrap one inner puzzle. */
  lemma SameViews(sdk: Sdk, a: CoinSpend, b: CoinSpend)
    requires Resolved(sdk, a, b)
    ensures ArmFor(sdk, a).CatArm? && ArmFor(sdk, b).CatArm? ==>
              SameCat(Found(ArmFor(sdk, a).cat), Found(ArmFor(sdk, b).cat))
    ensures ArmFor(sdk, a).OptionArm? && ArmFor(sdk, b).OptionArm? ==>
              SameOption(Found(ArmFor(sdk, a).option), Found(ArmFor(sdk, b).option))
    ensures ArmFor(sdk, a).NftTransferArm? && ArmFor(sdk, b).NftTransferArm? ==>
              SameNft(Found(ArmFor(sdk, a).nft), Found(ArmFor(sdk, b).nft))
  {
    var coin, puzzle := a.coin, a.puzzleReveal.value;
    assert SameCat(sdk.CatOf(coin, puzzle, a.solution.value), sdk.CatOf(coin, puzzle, b.solution.value));
    assert SameOption(sdk.OptionOf(coin, puzzle, a.solution.value), sdk.OptionOf(coin, puzzle, b.solution.value));
    assert SameNft(sdk.NftOf(coin, puzzle, a.solution.value), sdk.NftOf(coin, puzzle, b.solution.value));
  }

  /** The puzzle and solution of the standard layer an arm reads its signature from. */
  function StandardPart(sdk: Sdk, spend: CoinSpend): Option<(SExp, SExp)> {
    match ArmFor(sdk, spend)
    case StandardArm => Some((spend.puzzleReveal.value, spend.solution.value))
    case CatArm(cat) => Some((cat.p2Puzzle, cat.p2Solution))
    case OptionArm(option) => Some((option.p2Puzzle, option.p2Solution))
    case NftTransferArm(nft) => Some((nft.p2Puzzle, nft.p2Solution))
    case _ => None
  }

  /** Whatever spend makes a standard layer emit the message of an admitted one, bare or inside a CAT, an
      option or an NFT, runs that layer to its own signature and then exactly the list that was analyzed.
      The replay need not be admitted, nor spend the same coin. */
  lemma SignaturePinsReplay(sdk: Sdk, a: CoinSpend, b: CoinSpend)
    requires sdk.QuoteLaw() && sdk.StandardLaw()
    requires EntryOf(sdk, a).Some? && CommittedMessage(sdk, a).Some? && !ArmFor(sdk, a).MeltArm?
    requires StandardPart(sdk, b).Some? && EmitsMessage(sdk, StandardPart(sdk, b).value, CommittedMessage(sdk, a).value)
    ensures StandardPart(sdk, a).Some?
    ensures var (p, s) := StandardPart(sdk, a).value; var (q, t) := StandardPart(sdk, b).value;
            && CommittedStandardSpend(sdk, s).Some?
            && var committed := CommittedStandardSpend(sdk, s).value;
               || sdk.RunConditions(q, t) ==
                  Some([AggSigMe(sdk.StandardOf(q).value, committed.message.bytes)] + committed.conditions)
               || sdk.Collision(DelegatedOf(sdk, s), DelegatedOf(sdk, t))
  {
    var (p, s) := StandardPart(sdk, a).value;
    var (q, t) := StandardPart(sdk, b).value;
    var signed, other := DelegatedOf(sdk, s), DelegatedOf(sdk, t);
    assert sdk.Hash(signed) == Word(sdk.Hash(signed).bytes) == sdk.Hash(other);
    if signed == other {
      QuotedSpendEmits(sdk, q, t);
    }
  }

  /** A standard layer spent by its delegated puzzle whose first condition signs this message. */
  ghost predicate EmitsMessage(sdk: Sdk, part: (SExp, SExp), message: Bytes32) {
    var (puzzle, solution) := part;
    && sdk.StandardOf(puzzle).Found? && sdk.Delegates(solution)
    && var emitted := sdk.RunConditions(puzzle, solution);
    && emitted.Some? && emitted.value != []
    && emitted.value[0].AggSigMe? && emitted.value[0].message == message.bytes
  }

  /** A signed arm but the melt's: the standard layer inside is solely signed over its own quote. */
  lemma SignedThroughStandard(sdk: Sdk, spend: CoinSpend)
    requires EntryOf(sdk, spend).Some? && CommittedMessage(sdk, spend).Some? && !ArmFor(sdk, spend).MeltArm?
    requires ArmFor(sdk, spend).NftTransferArm? ==> sdk.QuoteLaw() && sdk.StandardLaw() && NftLaw(sdk)
    ensures StandardPart(sdk, spend).Some?
    ensures var (puzzle, solution) := StandardPart(sdk, spend).value;
            && sdk.StandardOf(puzzle).Found? && SolelySigned(sdk, puzzle, solution)
            && CommittedStandardSpend(sdk, solution).Some?
            && CommittedMessage(sdk, spend) == Some(CommittedStandardSpend(sdk, solution).value.message)
            && SignedProgram(sdk, spend) == Some(DelegatedOf(sdk, solution))
  {
    if ArmFor(sdk, spend).NftTransferArm? {
      var nft := ArmFor(sdk, spend).nft;
      assert sdk.NftOf(spend.coin, spend.puzzleReveal.value, spend.solution.value) == Found(nft);
      assert NftHandsOn(sdk, nft, sdk.RunConditions(spend.puzzleReveal.value, spend.solution.value).value);
      QuotedPermitted(sdk, nft.p2Puzzle, nft.p2Solution);
    }
  }

  /** What a quote of permitted conditions emits is permitted, its own signature included. */
  lemma QuotedPermitted(sdk: Sdk, puzzle: SExp, solution: SExp)
    requires sdk.QuoteLaw() && sdk.StandardLaw() && sdk.StandardOf(puzzle).Found?
    requires CommittedStandardSpend(sdk, solution).Some? && sdk.RunConditions(puzzle, solution).Some?
    requires AllPermitted(CommittedStandardSpend(sdk, solution).value.conditions, NftSigned)
    ensures AllPermitted(sdk.RunConditions(puzzle, solution).value, NftOuter)
  {
    QuotedSpendEmits(sdk, puzzle, solution);
  }

  /** Two resolved spends quote one list, and where they run one standard puzzle they emit the same. */
  lemma SameInnerConditions(sdk: Sdk, a: CoinSpend, b: CoinSpend)
    requires Resolved(sdk, a, b) && !ArmFor(sdk, a).MeltArm?
    requires ArmFor(sdk, a).NftTransferArm? ==> NftLaw(sdk)
    ensures StandardPart(sdk, a).Some? && StandardPart(sdk, b).Some?
    ensures var (p, s) := StandardPart(sdk, a).value; var (q, t) := StandardPart(sdk, b).value;
            || (&& CommittedStandardSpend(sdk, s) == CommittedStandardSpend(sdk, t)
                && (p == q ==> sdk.RunConditions(p, s) == sdk.RunConditions(q, t)))
            || Collide(sdk, a, b)
  {
    SameArm(sdk, a, b);
    SignedThroughStandard(sdk, a);
    SignedThroughStandard(sdk, b);
    var (p, s) := StandardPart(sdk, a).value;
    var (q, t) := StandardPart(sdk, b).value;
    SameMessageSameQuote(sdk, s, t);
    if p == q {
      SameMessageSameConditions(sdk, p, s, t);
    }
  }

  lemma SameMessageSameQuote(sdk: Sdk, s: SExp, t: SExp)
    requires CommittedStandardSpend(sdk, s).Some? && CommittedStandardSpend(sdk, t).Some?
    requires CommittedStandardSpend(sdk, s).value.message == CommittedStandardSpend(sdk, t).value.message
    ensures || CommittedStandardSpend(sdk, s) == CommittedStandardSpend(sdk, t)
            || sdk.Collision(DelegatedOf(sdk, s), DelegatedOf(sdk, t))
  {
  }

  /** The entry of a CAT send is decided by the quoted list: the layer's own signature creates nothing
      and binds nothing. */
  lemma CatSendEntry(sdk: Sdk, coin: Coin, asset: Bytes32, puzzle: SExp, solution: SExp)
    requires sdk.QuoteLaw() && sdk.StandardLaw() && sdk.StandardOf(puzzle).Found?
    requires SendEntry(sdk, coin, Some(asset), puzzle, solution).Some?
    ensures var list := CommittedStandardSpend(sdk, solution).value.conditions;
            SendEntry(sdk, coin, Some(asset), puzzle, solution) ==
            Some(EMPTY_BOOK.(spent := Spent(coin, Some(asset)), created := Creates(list, Some(asset)),
                             bindings := [BindingOf(sdk, coin, list)]))
  {
    QuotedSpendEmits(sdk, puzzle, solution);
    var committed := CommittedStandardSpend(sdk, solution).value;
    OwnSignatureAddsNothing(sdk, coin, Some(asset), AggSigMe(sdk.StandardOf(puzzle).value, committed.message.bytes),
                            committed.conditions);
  }

  lemma SameEntry(sdk: Sdk, a: CoinSpend, b: CoinSpend)
    requires Resolved(sdk, a, b) && (ArmFor(sdk, a).NftTransferArm? ==> NftLaw(sdk))
    ensures EntryOf(sdk, a) == EntryOf(sdk, b) || Collide(sdk, a, b)
  {
    SameArm(sdk, a, b);
    if !ArmFor(sdk, a).MeltArm? {
      SameViews(sdk, a, b);
      SameInnerConditions(sdk, a, b);
      if ArmFor(sdk, a).CatArm? {
        var x, y := ArmFor(sdk, a).cat, ArmFor(sdk, b).cat;
        CatSendEntry(sdk, a.coin, x.assetId, x.p2Puzzle, x.p2Solution);
        CatSendEntry(sdk, a.coin, x.assetId, y.p2Puzzle, y.p2Solution);
      } else if ArmFor(sdk, a).NftTransferArm? {
        var x, y := ArmFor(sdk, a).nft, ArmFor(sdk, b).nft;
        assert NftCreatesAlike(sdk, a.puzzleReveal.value, a.solution.value, b.solution.value,
                               sdk.NftOf(a.coin, a.puzzleReveal.value, a.solution.value).value,
                               sdk.NftOf(a.coin, a.puzzleReveal.value, b.solution.value).value);
      }
    }
  }

  /** Two admitted spends of one coin under one signed message enter the ledger alike, whichever arm
      and whichever path of the standard layer they take, and count alike as option coins. */
  lemma SameSignatureSameEntry(sdk: Sdk, a: CoinSpend, b: CoinSpend)
    requires sdk.QuoteLaw() && sdk.StandardLaw() && sdk.LayerLaw() && NftLaw(sdk)
    requires EntryOf(sdk, a).Some? && EntryOf(sdk, b).Some? && SameCommitment(sdk, a, b)
    ensures || (EntryOf(sdk, a) == EntryOf(sdk, b) && (IsOptionCoin(sdk, a) <==> IsOptionCoin(sdk, b)))
            || Collide(sdk, a, b)
  {
    if a != b && !sdk.Collision(a.puzzleReveal.value, b.puzzleReveal.value) {
      SameArm(sdk, a, b);
      SameArm(sdk, b, a);
      SameEntry(sdk, a, b);
    }
  }

  /** What one set of signatures authorizes over a whole bundle: a replay that keeps every signed
      message keeps the ledger, the coin ids and the fee mode, or at some coin a tree hash collides. */
  lemma {:induction false} SameSignaturesSameBook(sdk: Sdk, a: seq<CoinSpend>, b: seq<CoinSpend>)
    requires sdk.QuoteLaw() && sdk.StandardLaw() && sdk.LayerLaw() && NftLaw(sdk)
    requires |a| == |b| && AllAdmitted(sdk, a) && AllAdmitted(sdk, b)
    requires forall i :: 0 <= i < |a| ==> SameCommitment(sdk, a[i], b[i])
    ensures || (&& BookOf(sdk, a) == BookOf(sdk, b) && CoinIds(sdk, a) == CoinIds(sdk, b)
                && (IsOptionBundle(sdk, a) <==> IsOptionBundle(sdk, b)))
            || exists i :: 0 <= i < |a| && Collide(sdk, a[i], b[i])
  {
    if a != [] && !Collide(sdk, a[0], b[0]) {
      SameSignatureSameEntry(sdk, a[0], b[0]);
      var x, y := a[1..], b[1..];
      forall i | 0 <= i < |x| ensures x[i] == a[i + 1] && y[i] == b[i + 1] && SameCommitment(sdk, x[i], y[i]) {
        assert SameCommitment(sdk, a[i + 1], b[i + 1]);
      }
      SameSignaturesSameBook(sdk, x, y);
      if i :| 0 <= i < |x| && Collide(sdk, x[i], y[i]) {
        assert Collide(sdk, a[i + 1], b[i + 1]);
      } else {
        OptionAhead(sdk, a);
        OptionAhead(sdk, b);
      }
    }
  }

  lemma OptionAhead(sdk: Sdk, spends: seq<CoinSpend>)
    requires spends != []
    ensures IsOptionBundle(sdk, spends) <==> IsOptionCoin(sdk, spends[0]) || IsOptionBundle(sdk, spends[1..])
  {
    assert spends == [spends[0]] + spends[1..];
    if spend :| spend in spends && IsOptionCoin(sdk, spend) {
      assert spend == spends[0] || spend in spends[1..];
    }
  }

  /** So the verdict and the effect a person reviewed are those of every replay of the signatures. */
  lemma SameSignaturesSameEffect(sdk: Sdk, a: seq<CoinSpend>, b: seq<CoinSpend>)
    requires sdk.QuoteLaw() && sdk.StandardLaw() && sdk.LayerLaw() && NftLaw(sdk)
    requires |a| == |b| && AllAdmitted(sdk, a) && AllAdmitted(sdk, b)
    requires forall i :: 0 <= i < |a| ==> SameCommitment(sdk, a[i], b[i])
    ensures || ((Accepted(sdk, a) <==> Accepted(sdk, b)) && (Accepted(sdk, a) ==> EffectOf(sdk, a) == EffectOf(sdk, b)))
            || exists i :: 0 <= i < |a| && Collide(sdk, a[i], b[i])
  {
    SameSignaturesSameBook(sdk, a, b);
  }

  // ---- melts ----

  /** The list behind a melt's signature depends on the message alone. */
  lemma MeltMessagePinsList(sdk: Sdk, a: SExp, b: SExp, message: Bytes32)
    requires FindSubtree(sdk, a, message, 0).Some? && FindSubtree(sdk, b, message, 0).Some?
    ensures || CommittedMeltConditions(sdk, a, message) == CommittedMeltConditions(sdk, b, message)
            || sdk.Collision(FindSubtree(sdk, a, message, 0).value, FindSubtree(sdk, b, message, 0).value)
  {
    FindSubtreeSound(sdk, a, message, 0);
    FindSubtreeSound(sdk, b, message, 0);
  }

  /** An admitted melt: the one signature commits to a quote found in the coin's own solution, no
      more than 256 deep, whose list melts exactly once, creates nothing and signs nothing; and the
      whole coin is entered and destroyed, under its own id. */
  lemma AdmittedMelt(sdk: Sdk, spend: CoinSpend) returns (delegated: SExp, list: seq<Condition>)
    requires ArmFor(sdk, spend).MeltArm? && EntryOf(sdk, spend).Some?
    ensures var emitted := sdk.RunConditions(spend.puzzleReveal.value, spend.solution.value).value;
            && SoleMessage(emitted) == Some(sdk.Hash(delegated))
            && (exists d: nat :: d <= MAX_SOLUTION_SEARCH_DEPTH && SubtreeAt(spend.solution.value, delegated, d))
    ensures delegated.Pair? && delegated.first == Atom([1]) && sdk.DecodeList(delegated.rest) == Some(list)
    ensures multiset(list)[MeltSingleton] == 1
    ensures forall c :: c in list ==> !c.CreateCoin? && !c.AggSigMe? && !c.NonMeAggSig? && !c.ReserveFee?
    ensures var entry := EntryOf(sdk, spend).value;
            && entry.spent == [DecodedOutput(spend.coin.puzzleHash, spend.coin.amount, None)] && entry.created == []
            && entry.melted == spend.coin.amount && entry.melts == [sdk.IdOf(spend.coin)]
  {
    var puzzle, solution := spend.puzzleReveal.value, spend.solution.value;
    var message := SoleMessage(sdk.RunConditions(puzzle, solution).value).value;
    FindSubtreeSound(sdk, solution, message, 0);
    delegated := FindSubtree(sdk, solution, message, 0).value;
    list := CommittedMeltConditions(sdk, solution, message).value;
    MeltsCounted(list);
  }

  lemma {:induction false} MeltsCounted(conditions: seq<Condition>)
    ensures Melts(conditions) == multiset(conditions)[MeltSingleton]
  {
    if conditions != [] {
      MeltsCounted(conditions[1..]);
      assert conditions == [conditions[0]] + conditions[1..];
    }
  }

  /** The coins destroyed by a bundle, in order. */
  ghost function Destroyed(sdk: Sdk, spends: seq<CoinSpend>): seq<Bytes32> {
    if spends == [] then []
    else (if ArmFor(sdk, spends[0]).MeltArm? then [sdk.IdOf(spends[0].coin)] else []) + Destroyed(sdk, spends[1..])
  }

  ghost function DestroyedMojos(sdk: Sdk, spends: seq<CoinSpend>): nat {
    if spends == [] then 0
    else (if ArmFor(sdk, spends[0]).MeltArm? then spends[0].coin.amount else 0) + DestroyedMojos(sdk, spends[1..])
  }

  /** No melt goes unnamed: the effect lists exactly the coins the melt arm destroyed, and their
      mojos are exactly what the ledger calls melted. */
  lemma {:induction false} EveryMeltIsNamed(sdk: Sdk, spends: seq<CoinSpend>)
    requires AllAdmitted(sdk, spends)
    ensures BookOf(sdk, spends).melts == Destroyed(sdk, spends)
    ensures BookOf(sdk, spends).melted == DestroyedMojos(sdk, spends)
  {
    if spends != [] {
      EveryMeltIsNamed(sdk, spends[1..]);
      OnlyMeltsMelt(sdk, spends[0]);
    }
  }

  lemma {:induction false} DestroyedForNothing(sdk: Sdk, spends: seq<CoinSpend>)
    ensures DestroyedMojos(sdk, spends) == 0 <==>
            forall s :: s in spends && ArmFor(sdk, s).MeltArm? ==> s.coin.amount == 0
  {
    if spends != [] {
      assert spends == [spends[0]] + spends[1..];
      DestroyedForNothing(sdk, spends[1..]);
      assert spends[0] in spends;
    }
  }

  /** The option-bundle refusal looks at the melted mojos, so it lets through exactly the melts of
      coins that hold none. */
  lemma OptionMeltsAreEmpty(sdk: Sdk, spends: seq<CoinSpend>)
    requires Accepted(sdk, spends) && IsOptionBundle(sdk, spends)
    ensures forall s :: s in spends && ArmFor(sdk, s).MeltArm? ==> s.coin.amount == 0
  {
    EveryMeltIsNamed(sdk, spends);
    DestroyedForNothing(sdk, spends);
  }

  lemma OnlyMeltsMelt(sdk: Sdk, spend: CoinSpend)
    requires EntryOf(sdk, spend).Some?
    ensures var entry := EntryOf(sdk, spend).value;
            && entry.melts == (if ArmFor(sdk, spend).MeltArm? then [sdk.IdOf(spend.coin)] else [])
            && entry.melted == (if ArmFor(sdk, spend).MeltArm? then spend.coin.amount else 0)
  {
  }
}
