/** The custody core: after the gate opens, sign exactly the requirements re-derived from the
    verified coin spends, one for each coin the wallet authorizes and none for any other. */
module Signing {
  import opened Prelude
  import opened Clvm
  import opened Conditions
  import opened Settlement
  import opened Book
  import opened Verify
  import opened Commitments
  import opened Reading
  import opened Text
  import opened Gate

  datatype SecretKey = SecretKey(bytes: seq<Byte>)

  datatype RequiredSignature = RequiredSignature(publicKey: PublicKey, message: seq<Byte>)

  datatype UnsignedSpend = UnsignedSpend(
    coinSpends: seq<CoinSpend>,
    requiredSignatures: seq<RequiredSignature>,
    summary: TransactionSummary)

  /** A broadcast-ready bundle; the aggregate is kept as the list of signatures it adds up. */
  datatype SignedBundle = SignedBundle(coinSpends: seq<CoinSpend>, signatures: seq<seq<Byte>>)

  datatype WalletKeyScheme = LegacyProfile | CanonicalWallet

  /** The key-holding signer. Derivation, BLS and the ordering of byte strings are the libraries'. */
  datatype LocalSigner = LocalSigner(
    codec: Codec,
    addressGap: nat,
    scheme: WalletKeyScheme,
    walletKey: nat -> SecretKey,
    profileKey: nat -> SecretKey,
    synthetic: SecretKey -> SecretKey,
    publicKey: SecretKey -> PublicKey,
    standardHash: PublicKey -> Bytes32,
    genesis: seq<Byte>,
    blsSign: (SecretKey, seq<Byte>) -> seq<Byte>,
    signatureLe: (RequiredSignature, RequiredSignature) -> bool)
  {
    function PublicOf(key: SecretKey): PublicKey { publicKey(key) }

    /** The key funds live under at an address index. */
    function SpendingKey(ix: nat): SecretKey {
      match scheme
      case CanonicalWallet => walletKey(ix)
      case LegacyProfile => synthetic(profileKey(ix))
    }

    /** Whether one of the keys tried at an index is the target's. */
    predicate KeyAt(ix: nat, key: SecretKey) {
      key == SpendingKey(ix) || (scheme.LegacyProfile? && key == profileKey(ix))
    }

    function Sign(key: SecretKey, message: seq<Byte>): seq<Byte> { blsSign(key, message) }

    function AsOwner(): Owner {
      Owner(codec, addressGap, (ix: nat) => standardHash(publicKey(SpendingKey(ix))))
    }

    /** The first derived key, from `ix` up, with this public key. */
    function FindFrom(target: PublicKey, ix: nat): Option<SecretKey>
      decreases addressGap - ix
    {
      if ix >= addressGap then None
      else if scheme.LegacyProfile? && publicKey(profileKey(ix)) == target then Some(profileKey(ix))
      else if publicKey(SpendingKey(ix)) == target then Some(SpendingKey(ix))
      else FindFrom(target, ix + 1)
    }

    function FindKey(target: PublicKey): Option<SecretKey> { FindFrom(target, 0) }
  }

  /** A key is found exactly when one of the derived keys is the target's, and it is that key. */
  lemma {:induction false} FindFromExact(signer: LocalSigner, target: PublicKey, ix: nat)
    ensures signer.FindFrom(target, ix).Some? <==>
            exists k: nat, key :: ix <= k < signer.addressGap && signer.KeyAt(k, key) && signer.PublicOf(key) == target
    ensures signer.FindFrom(target, ix).Some? ==> signer.PublicOf(signer.FindFrom(target, ix).value) == target
    decreases signer.addressGap - ix
  {
    if ix < signer.addressGap {
      FindFromExact(signer, target, ix + 1);
      assert signer.KeyAt(ix, signer.SpendingKey(ix));
      if signer.FindFrom(target, ix).Some? && signer.FindFrom(target, ix + 1).None? {
        assert signer.KeyAt(ix, signer.FindFrom(target, ix).value);
      }
    }
  }

  /** Under the canonical scheme a key is found exactly when a wallet key below the gap is the target's, and it
      is the first of them. */
  lemma CanonicalKeyFound(signer: LocalSigner, target: PublicKey)
    requires signer.scheme.CanonicalWallet?
    ensures signer.FindKey(target).Some? <==>
            exists k: nat :: k < signer.addressGap && signer.publicKey(signer.walletKey(k)) == target
    ensures signer.FindKey(target).Some? ==>
              exists k: nat :: k < signer.addressGap && signer.FindKey(target) == Some(signer.walletKey(k)) &&
                               signer.publicKey(signer.walletKey(k)) == target &&
                               forall j: nat :: j < k ==> signer.publicKey(signer.walletKey(j)) != target
  {
    CanonicalFrom(signer, target, 0);
  }

  lemma {:induction false} CanonicalFrom(signer: LocalSigner, target: PublicKey, ix: nat)
    requires signer.scheme.CanonicalWallet?
    ensures match signer.FindFrom(target, ix)
            case None =>
              forall k: nat :: ix <= k < signer.addressGap ==> signer.publicKey(signer.walletKey(k)) != target
            case Some(key) =>
              exists k: nat :: ix <= k < signer.addressGap && key == signer.walletKey(k) &&
                               signer.publicKey(signer.walletKey(k)) == target &&
                               forall j: nat :: ix <= j < k ==> signer.publicKey(signer.walletKey(j)) != target
    decreases signer.addressGap - ix
  {
    if ix < signer.addressGap && signer.publicKey(signer.walletKey(ix)) != target {
      CanonicalFrom(signer, target, ix + 1);
    }
  }

  /** Under the legacy scheme the profile key and its synthetic key are both tried, the profile key first. */
  lemma LegacyKeyFound(signer: LocalSigner, target: PublicKey)
    requires signer.scheme.LegacyProfile?
    ensures signer.FindKey(target).Some? <==>
            exists k: nat :: k < signer.addressGap &&
                             (|| signer.publicKey(signer.profileKey(k)) == target
                              || signer.publicKey(signer.synthetic(signer.profileKey(k))) == target)
    ensures signer.FindKey(target).Some? ==>
              exists k: nat :: k < signer.addressGap &&
                               signer.FindKey(target).value ==
                                 (if signer.publicKey(signer.profileKey(k)) == target then signer.profileKey(k)
                                  else signer.synthetic(signer.profileKey(k))) &&
                               signer.publicKey(signer.FindKey(target).value) == target &&
                               forall j: nat :: j < k ==>
                                 signer.publicKey(signer.profileKey(j)) != target &&
                                 signer.publicKey(signer.synthetic(signer.profileKey(j))) != target
  {
    LegacyFrom(signer, target, 0);
  }

  lemma {:induction false} LegacyFrom(signer: LocalSigner, target: PublicKey, ix: nat)
    requires signer.scheme.LegacyProfile?
    ensures match signer.FindFrom(target, ix)
            case None =>
              forall k: nat :: ix <= k < signer.addressGap ==>
                signer.publicKey(signer.profileKey(k)) != target &&
                signer.publicKey(signer.synthetic(signer.profileKey(k))) != target
            case Some(key) =>
              exists k: nat :: ix <= k < signer.addressGap && signer.publicKey(key) == target &&
                               key == (if signer.publicKey(signer.profileKey(k)) == target then signer.profileKey(k)
                                       else signer.synthetic(signer.profileKey(k))) &&
                               forall j: nat :: ix <= j < k ==>
                                 signer.publicKey(signer.profileKey(j)) != target &&
                                 signer.publicKey(signer.synthetic(signer.profileKey(j))) != target
    decreases signer.addressGap - ix
  {
    if ix < signer.addressGap && signer.publicKey(signer.profileKey(ix)) != target &&
       signer.publicKey(signer.synthetic(signer.profileKey(ix))) != target
    {
      LegacyFrom(signer, target, ix + 1);
    }
  }

  /** The hashes the wallet owns are the standard puzzles over the keys its funds live under: the wallet keys,
      or the synthetic ones of the profile; and whoever such a puzzle names, the signer holds the key. */
  lemma OwnedIsHeld(signer: LocalSigner, hash: Bytes32)
    ensures signer.scheme.CanonicalWallet? ==>
              (signer.AsOwner().Owns(hash) <==>
               exists k: nat :: k < signer.addressGap &&
                                signer.standardHash(signer.publicKey(signer.walletKey(k))) == hash)
    ensures signer.scheme.LegacyProfile? ==>
              (signer.AsOwner().Owns(hash) <==>
               exists k: nat :: k < signer.addressGap &&
                                signer.standardHash(signer.publicKey(signer.synthetic(signer.profileKey(k)))) == hash)
    ensures signer.AsOwner().Owns(hash) ==>
              exists target :: signer.standardHash(target) == hash && signer.FindKey(target).Some?
  {
    var owner := signer.AsOwner();
    if k: nat :| k < signer.addressGap && owner.HashAt(k) == hash {
      var target := signer.publicKey(signer.SpendingKey(k));
      assert signer.standardHash(target) == hash;
      if signer.scheme.CanonicalWallet? {
        CanonicalKeyFound(signer, target);
      } else {
        LegacyKeyFound(signer, target);
      }
    }
    forall k: nat | k < signer.addressGap
      ensures signer.standardHash(signer.publicKey(signer.SpendingKey(k))) == hash ==> owner.Owns(hash)
    {
      assert owner.HashAt(k) == signer.standardHash(signer.publicKey(signer.SpendingKey(k)));
    }
    if signer.scheme.CanonicalWallet? {
      forall k: nat | k < signer.addressGap && signer.standardHash(signer.publicKey(signer.walletKey(k))) == hash
        ensures owner.Owns(hash)
      {
        assert signer.SpendingKey(k) == signer.walletKey(k);
      }
    } else {
      forall k: nat | k < signer.addressGap &&
        signer.standardHash(signer.publicKey(signer.synthetic(signer.profileKey(k)))) == hash
        ensures owner.Owns(hash)
      {
        assert signer.SpendingKey(k) == signer.synthetic(signer.profileKey(k));
      }
    }
  }

  // ---- what a bundle requires to be signed ----

  function RequirementsOf(conditions: seq<Condition>, suffix: seq<Byte>): seq<RequiredSignature> {
    if conditions == [] then []
    else
      (if conditions[0].AggSigMe?
       then [RequiredSignature(conditions[0].publicKey, conditions[0].message + suffix)] else []) +
      RequirementsOf(conditions[1..], suffix)
  }

  /** The requirements of one coin spend: its own conditions, run in full, must carry no signature
      kind but AGG_SIG_ME, each bound to the coin and to the network. */
  function RequiredBy(sdk: Sdk, genesis: seq<Byte>, spend: CoinSpend): Option<seq<RequiredSignature>> {
    if spend.puzzleReveal.None? || spend.solution.None? then None
    else
      var emitted := sdk.RunConditions(spend.puzzleReveal.value, spend.solution.value);
      if emitted.None? || !OnlyMeSignatures(emitted.value) then None
      else Some(RequirementsOf(emitted.value, sdk.IdOf(spend.coin).bytes + genesis))
  }

  function RequiredByAll(sdk: Sdk, genesis: seq<Byte>, spends: seq<CoinSpend>): Option<seq<RequiredSignature>> {
    if spends == [] then Some([])
    else
      var first := RequiredBy(sdk, genesis, spends[0]);
      var rest := RequiredByAll(sdk, genesis, spends[1..]);
      if first.None? || rest.None? then None else Some(first.value + rest.value)
  }

  predicate EndsWith(message: seq<Byte>, suffix: seq<Byte>) {
    |message| >= |suffix| && message[|message| - |suffix|..] == suffix
  }

  /** Only AGG_SIG_ME asks for a signature: under its own key, over its own message bound by the suffix, and
      each as often as it stands in the list. */
  lemma {:induction false} RequirementsAreConditions(conditions: seq<Condition>, suffix: seq<Byte>, key: PublicKey,
                                                     message: seq<Byte>)
    ensures multiset(RequirementsOf(conditions, suffix))[RequiredSignature(key, message + suffix)] ==
            multiset(conditions)[AggSigMe(key, message)]
    ensures forall r :: r in RequirementsOf(conditions, suffix) ==> EndsWith(r.message, suffix)
  {
    if conditions != [] {
      var c, rest := conditions[0], conditions[1..];
      RequirementsAreConditions(rest, suffix, key, message);
      assert conditions == [c] + rest;
      if c.AggSigMe? {
        assert RequirementsOf(conditions, suffix) ==
               [RequiredSignature(c.publicKey, c.message + suffix)] + RequirementsOf(rest, suffix);
        assert (c.message + suffix)[|c.message|..] == suffix;
        assert c.message + suffix == message + suffix ==> c.message == message by {
          assert (c.message + suffix)[..|c.message|] == c.message;
          assert (message + suffix)[..|message|] == message;
        }
      } else {
        assert RequirementsOf(conditions, suffix) == RequirementsOf(rest, suffix);
      }
    }
  }

  method RequiredSignaturesFrom(sdk: Sdk, genesis: seq<Byte>, spends: seq<CoinSpend>)
    returns (r: Option<seq<RequiredSignature>>)
    ensures r == RequiredByAll(sdk, genesis, spends)
  {
    var required: seq<RequiredSignature> := [];
    assert spends[0..] == spends;
    assert RequiredByAll(sdk, genesis, spends).Some? ==>
        required + RequiredByAll(sdk, genesis, spends).value == RequiredByAll(sdk, genesis, spends).value;
    for i := 0 to |spends|
      invariant RequiredByAll(sdk, genesis, spends) ==
                (match RequiredByAll(sdk, genesis, spends[i..])
                 case None => None
                 case Some(rest) => Some(required + rest))
    {
      var one := RequiredBy(sdk, genesis, spends[i]);
      assert spends[i..][1..] == spends[i + 1..];
      if one.None? { return None; }
      ghost var rest := RequiredByAll(sdk, genesis, spends[i + 1..]);
      if rest.Some? {
        assert required + (one.value + rest.value) == required + one.value + rest.value;
      }
      required := required + one.value;
    }
    assert required + [] == required;
    return Some(required);
  }

  /** Every requirement's key is held. */
  predicate AllHeld(signer: LocalSigner, required: seq<RequiredSignature>) {
    forall r :: r in required ==> signer.FindKey(r.publicKey).Some?
  }

  function SignaturesOf(signer: LocalSigner, required: seq<RequiredSignature>): seq<seq<Byte>>
    requires AllHeld(signer, required)
  {
    if required == [] then []
    else
      [signer.Sign(signer.FindKey(required[0].publicKey).value, required[0].message)] +
      SignaturesOf(signer, required[1..])
  }

  /** One signature for each requirement, in order, over its message and under a key with its public key. */
  lemma {:induction false} SignaturesInOrder(signer: LocalSigner, required: seq<RequiredSignature>)
    requires AllHeld(signer, required)
    ensures |SignaturesOf(signer, required)| == |required|
    ensures forall i :: 0 <= i < |required| ==>
              exists key :: signer.publicKey(key) == required[i].publicKey &&
                            SignaturesOf(signer, required)[i] == signer.blsSign(key, required[i].message)
  {
    if required != [] {
      SignaturesInOrder(signer, required[1..]);
      var key := signer.FindKey(required[0].publicKey).value;
      FindFromExact(signer, required[0].publicKey, 0);
      forall i | 0 <= i < |required|
        ensures exists key :: signer.publicKey(key) == required[i].publicKey &&
                              SignaturesOf(signer, required)[i] == signer.blsSign(key, required[i].message)
      {
        if i > 0 {
          assert required[i] == required[1..][i - 1];
          assert SignaturesOf(signer, required)[i] == SignaturesOf(signer, required[1..])[i - 1];
        } else {
          assert SignaturesOf(signer, required)[0] == signer.blsSign(key, required[0].message);
        }
      }
    }
  }

  /** Sign each requirement with the key it names, refusing an unbound message or a foreign key. */
  method ProduceSignatures(signer: LocalSigner, required: seq<RequiredSignature>) returns (r: Option<seq<seq<Byte>>>)
    ensures r.Some? <==> AllHeld(signer, required) && forall x :: x in required ==> EndsWith(x.message, signer.genesis)
    ensures r.Some? ==> r.value == SignaturesOf(signer, required)
  {
    var signatures: seq<seq<Byte>> := [];
    for i := 0 to |required|
      invariant forall k :: 0 <= k < i ==>
                  signer.FindKey(required[k].publicKey).Some? && EndsWith(required[k].message, signer.genesis)
      invariant AllHeld(signer, required) ==>
                SignaturesOf(signer, required) == signatures + SignaturesOf(signer, required[i..])
    {
      assert required[i] in required && required[i..][1..] == required[i + 1..];
      if !EndsWith(required[i].message, signer.genesis) { return None; }
      var key := signer.FindKey(required[i].publicKey);
      if key.None? { return None; }
      signatures := signatures + [signer.Sign(key.value, required[i].message)];
    }
    return Some(signatures);
  }

  lemma {:induction false} RequirementsAreBound(conditions: seq<Condition>, prefix: seq<Byte>, genesis: seq<Byte>)
    ensures forall r :: r in RequirementsOf(conditions, prefix + genesis) ==> EndsWith(r.message, genesis)
  {
    if conditions != [] {
      RequirementsAreBound(conditions[1..], prefix, genesis);
      if conditions[0].AggSigMe? {
        var message := conditions[0].message + (prefix + genesis);
        assert message[|message| - |genesis|..] == genesis;
      }
    }
  }

  lemma {:induction false} AllRequirementsAreBound(sdk: Sdk, genesis: seq<Byte>, spends: seq<CoinSpend>)
    requires RequiredByAll(sdk, genesis, spends).Some?
    ensures forall r :: r in RequiredByAll(sdk, genesis, spends).value ==> EndsWith(r.message, genesis)
  {
    if spends != [] {
      AllRequirementsAreBound(sdk, genesis, spends[1..]);
      var conditions := sdk.RunConditions(spends[0].puzzleReveal.value, spends[0].solution.value).value;
      RequirementsAreBound(conditions, sdk.IdOf(spends[0].coin).bytes, genesis);
    }
  }

  /** The signer's whole answer. It signs exactly when the gate opens, the engine's list of
      requirements is the re-derived one up to order, and it holds every key; what it signs is the
      re-derived list, over the verified coin spends, whatever the engine claimed. */
  method SignUnsigned(sdk: Sdk, signer: LocalSigner, unsigned: UnsignedSpend) returns (r: Option<SignedBundle>)
    requires signer.codec.Lawful() && TotalOrder(signer.signatureLe)
    ensures r.Some? <==>
            && Accepted(sdk, unsigned.coinSpends)
            && SameSummary(signer.codec, unsigned.summary,
                           ReviewableSummary(sdk, signer.AsOwner(), unsigned.coinSpends))
            && RequiredByAll(sdk, signer.genesis, unsigned.coinSpends).Some?
            && multiset(unsigned.requiredSignatures) ==
              multiset(RequiredByAll(sdk, signer.genesis, unsigned.coinSpends).value)
            && AllHeld(signer, RequiredByAll(sdk, signer.genesis, unsigned.coinSpends).value)
    ensures r.Some? ==>
            r.value == SignedBundle(unsigned.coinSpends,
                                    SignaturesOf(signer, RequiredByAll(sdk, signer.genesis, unsigned.coinSpends).value))
  {
    var verified := VerifyBeforeSigning(sdk, signer.AsOwner(), unsigned.coinSpends, unsigned.summary);
    if !verified { return None; }
    var authoritative := RequiredSignaturesFrom(sdk, signer.genesis, unsigned.coinSpends);
    if authoritative.None? { return None; }
    SortedComparison(unsigned.requiredSignatures, authoritative.value, signer.signatureLe);
    if Sorted(unsigned.requiredSignatures, signer.signatureLe) != Sorted(authoritative.value, signer.signatureLe) {
      return None;
    }
    AllRequirementsAreBound(sdk, signer.genesis, unsigned.coinSpends);
    var signatures := ProduceSignatures(signer, authoritative.value);
    if signatures.None? { return None; }
    return Some(SignedBundle(unsigned.coinSpends, signatures.value));
  }

  // ---- what those requirements are ----

  /** The messages a condition list asks signatures over, in order. */
  function SignedMessages(conditions: seq<Condition>): seq<seq<Byte>> {
    if conditions == [] then []
    else (if conditions[0].AggSigMe? then [conditions[0].message] else []) + SignedMessages(conditions[1..])
  }

  /** Each message bound to a coin and a network. */
  function Suffixed(messages: seq<seq<Byte>>, suffix: seq<Byte>): (r: seq<seq<Byte>>)
    ensures |r| == |messages| && forall i :: 0 <= i < |r| ==> r[i] == messages[i] + suffix
  {
    if messages == [] then [] else [messages[0] + suffix] + Suffixed(messages[1..], suffix)
  }

  lemma SuffixedInjective(a: seq<seq<Byte>>, b: seq<seq<Byte>>, suffix: seq<Byte>)
    requires Suffixed(a, suffix) == Suffixed(b, suffix)
    ensures a == b
  {
    forall i | 0 <= i < |a| ensures a[i] == b[i] {
      assert a[i] == Suffixed(a, suffix)[i][..|a[i]|] && b[i] == Suffixed(b, suffix)[i][..|b[i]|];
    }
  }

  /** The whole puzzle asks for the signatures its arm judged. Outside CATs and options it does; a CAT that
      runs its TAIL may ask for more. */
  ghost predicate KeepsSignatures(sdk: Sdk, spend: CoinSpend)
    requires EntryOf(sdk, spend).Some?
  {
    var outer := sdk.RunConditions(spend.puzzleReveal.value, spend.solution.value);
    outer.Some? ==> SignedMessages(outer.value) == SignedMessages(Judged(sdk, spend))
  }

  function Committed(sdk: Sdk, spend: CoinSpend): seq<seq<Byte>>
    requires EntryOf(sdk, spend).Some?
  {
    match CommittedMessage(sdk, spend)
    case None => []
    case Some(message) => [message.bytes]
  }

  /** The commitments of a bundle, each bound to its coin and the network. */
  function CommittedMessages(sdk: Sdk, genesis: seq<Byte>, spends: seq<CoinSpend>): seq<seq<Byte>>
    requires AllAdmitted(sdk, spends)
  {
    if spends == [] then []
    else
      Suffixed(Committed(sdk, spends[0]), sdk.IdOf(spends[0].coin).bytes + genesis) +
      CommittedMessages(sdk, genesis, spends[1..])
  }

  function MessagesOf(required: seq<RequiredSignature>): seq<seq<Byte>> {
    if required == [] then [] else [required[0].message] + MessagesOf(required[1..])
  }

  lemma {:induction false} MessagesConcat(a: seq<RequiredSignature>, b: seq<RequiredSignature>)
    ensures MessagesOf(a + b) == MessagesOf(a) + MessagesOf(b)
  {
    if a == [] {
      assert a + b == b;
    } else {
      assert (a + b)[1..] == a[1..] + b;
      MessagesConcat(a[1..], b);
    }
  }

  lemma {:induction false} RequirementMessages(conditions: seq<Condition>, suffix: seq<Byte>)
    ensures MessagesOf(RequirementsOf(conditions, suffix)) == Suffixed(SignedMessages(conditions), suffix)
  {
    if conditions != [] {
      RequirementMessages(conditions[1..], suffix);
      if conditions[0].AggSigMe? {
        assert RequirementsOf(conditions, suffix)[1..] == RequirementsOf(conditions[1..], suffix);
        assert SignedMessages(conditions)[1..] == SignedMessages(conditions[1..]);
      } else {
        assert RequirementsOf(conditions, suffix) == RequirementsOf(conditions[1..], suffix);
        assert SignedMessages(conditions) == SignedMessages(conditions[1..]);
      }
    }
  }

  lemma {:induction false} RequirementsOfSignatures(conditions: seq<Condition>, suffix: seq<Byte>)
    ensures RequirementsOf(conditions, suffix) == RequirementsOf(SignatureConditions(conditions), suffix)
  {
    if conditions != [] {
      RequirementsOfSignatures(conditions[1..], suffix);
      if conditions[0].AggSigMe? {
        assert SignatureConditions(conditions)[1..] == SignatureConditions(conditions[1..]);
      } else {
        assert SignatureConditions(conditions) == SignatureConditions(conditions[1..]);
      }
    }
  }

  lemma {:induction false} SignedOfSignatures(conditions: seq<Condition>)
    ensures SignedMessages(conditions) == SignedMessages(SignatureConditions(conditions))
  {
    if conditions != [] {
      SignedOfSignatures(conditions[1..]);
      if conditions[0].AggSigMe? {
        assert SignatureConditions(conditions)[1..] == SignatureConditions(conditions[1..]);
      } else {
        assert SignatureConditions(conditions) == SignatureConditions(conditions[1..]);
      }
    }
  }

  lemma {:induction false} NothingSigned(conditions: seq<Condition>)
    requires NoSignature(conditions)
    ensures SignedMessages(conditions) == []
  {
    if conditions != [] {
      assert conditions[0] in conditions;
      NothingSigned(conditions[1..]);
    }
  }

  lemma SoleSigned(conditions: seq<Condition>)
    requires SoleMessage(conditions).Some?
    ensures SignedMessages(conditions) == [SoleMessage(conditions).value.bytes]
  {
    SignedOfSignatures(conditions);
    var signatures := SignatureConditions(conditions);
    assert signatures == [signatures[0]] && signatures[1..] == [];
  }

  /** What an admitted coin's arm judged asks for its commitment and nothing else. */
  lemma JudgedIsCommitted(sdk: Sdk, spend: CoinSpend)
    requires EntryOf(sdk, spend).Some?
    ensures SignedMessages(Judged(sdk, spend)) == Committed(sdk, spend)
  {
    var judged := Judged(sdk, spend);
    if CommittedMessage(sdk, spend).None? {
      NothingSigned(judged);
    } else {
      SoleSigned(judged);
    }
  }

  /** One coin: what must be signed is exactly the message that commits to its delegated puzzle, or
      nothing, if and only if its layers keep their signatures. */
  lemma OneCoinRequires(sdk: Sdk, genesis: seq<Byte>, spend: CoinSpend)
    requires EntryOf(sdk, spend).Some? && RequiredBy(sdk, genesis, spend).Some?
    ensures MessagesOf(RequiredBy(sdk, genesis, spend).value) ==
            Suffixed(Committed(sdk, spend), sdk.IdOf(spend.coin).bytes + genesis)
            <==> KeepsSignatures(sdk, spend)
    ensures AllBound(MessagesOf(RequiredBy(sdk, genesis, spend).value), sdk.IdOf(spend.coin).bytes + genesis)
  {
    var outer, suffix := sdk.RunConditions(spend.puzzleReveal.value, spend.solution.value).value,
                         sdk.IdOf(spend.coin).bytes + genesis;
    JudgedIsCommitted(sdk, spend);
    RequirementMessages(outer, suffix);
    BoundTo(SignedMessages(outer), suffix);
    if Suffixed(SignedMessages(outer), suffix) == Suffixed(Committed(sdk, spend), suffix) {
      SuffixedInjective(SignedMessages(outer), Committed(sdk, spend), suffix);
    }
  }

  lemma BoundTo(messages: seq<seq<Byte>>, suffix: seq<Byte>)
    ensures AllBound(Suffixed(messages, suffix), suffix)
  {
    forall i | 0 <= i < |messages| ensures EndsWith(Suffixed(messages, suffix)[i], suffix) {
      assert (messages[i] + suffix)[|messages[i]|..] == suffix;
    }
  }

  ghost predicate AllKeep(sdk: Sdk, spends: seq<CoinSpend>)
    requires AllAdmitted(sdk, spends)
  {
    forall s :: s in spends ==> KeepsSignatures(sdk, s)
  }

  /** What is signed is what was reviewed: where the layers keep their signatures, the required messages
      are, coin by coin, the tree hash of the delegated puzzle whose quoted conditions were analyzed,
      bound to that coin and the network. No coin asks for two, and unsigned legs ask for none. */
  lemma {:induction false} SignedIsAnalyzed(sdk: Sdk, genesis: seq<Byte>, spends: seq<CoinSpend>)
    requires AllAdmitted(sdk, spends) && RequiredByAll(sdk, genesis, spends).Some?
    requires AllKeep(sdk, spends)
    ensures MessagesOf(RequiredByAll(sdk, genesis, spends).value) == CommittedMessages(sdk, genesis, spends)
  {
    if spends != [] {
      SignedIsAnalyzed(sdk, genesis, spends[1..]);
      OneCoinRequires(sdk, genesis, spends[0]);
      MessagesConcat(RequiredBy(sdk, genesis, spends[0]).value, RequiredByAll(sdk, genesis, spends[1..]).value);
    }
  }

  /** And nowhere else: over distinct coins the messages agree only if every coin's layers keep them. */
  lemma {:induction false} SignedOnlyIfKept(sdk: Sdk, genesis: seq<Byte>, spends: seq<CoinSpend>)
    requires AllAdmitted(sdk, spends) && RequiredByAll(sdk, genesis, spends).Some? && Distinct(CoinIds(sdk, spends))
    requires MessagesOf(RequiredByAll(sdk, genesis, spends).value) == CommittedMessages(sdk, genesis, spends)
    ensures AllKeep(sdk, spends)
  {
    if spends != [] {
      assert KeepsSignatures(sdk, spends[0]) && AllKeep(sdk, spends[1..]) by {
        DistinctRest(sdk, spends);
        FirstKept(sdk, genesis, spends);
        SignedOnlyIfKept(sdk, genesis, spends[1..]);
      }
      AllKeepAhead(sdk, spends);
    }
  }

  lemma AllKeepAhead(sdk: Sdk, spends: seq<CoinSpend>)
    requires AllAdmitted(sdk, spends) && spends != []
    requires KeepsSignatures(sdk, spends[0]) && AllKeep(sdk, spends[1..])
    ensures AllKeep(sdk, spends)
  {
    assert spends == [spends[0]] + spends[1..];
  }

  lemma FirstKept(sdk: Sdk, genesis: seq<Byte>, spends: seq<CoinSpend>)
    requires AllAdmitted(sdk, spends) && RequiredByAll(sdk, genesis, spends).Some? && spends != []
    requires forall s :: s in spends[1..] ==> sdk.IdOf(s.coin) != sdk.IdOf(spends[0].coin)
    requires MessagesOf(RequiredByAll(sdk, genesis, spends).value) == CommittedMessages(sdk, genesis, spends)
    ensures KeepsSignatures(sdk, spends[0])
    ensures MessagesOf(RequiredByAll(sdk, genesis, spends[1..]).value) == CommittedMessages(sdk, genesis, spends[1..])
  {
    var first, rest, suffix := spends[0], spends[1..], sdk.IdOf(spends[0].coin).bytes + genesis;
    MessagesConcat(RequiredBy(sdk, genesis, first).value, RequiredByAll(sdk, genesis, rest).value);
    OneCoinRequires(sdk, genesis, first);
    BoundTo(Committed(sdk, first), suffix);
    NoneBoundToFirst(sdk, genesis, rest, sdk.IdOf(first.coin));
    SplitByBinding(MessagesOf(RequiredBy(sdk, genesis, first).value),
                   MessagesOf(RequiredByAll(sdk, genesis, rest).value),
                   Suffixed(Committed(sdk, first), suffix), CommittedMessages(sdk, genesis, rest), suffix);
  }

  lemma DistinctRest(sdk: Sdk, spends: seq<CoinSpend>)
    requires spends != [] && Distinct(CoinIds(sdk, spends))
    ensures Distinct(CoinIds(sdk, spends[1..]))
    ensures forall s :: s in spends[1..] ==> sdk.IdOf(s.coin) != sdk.IdOf(spends[0].coin)
  {
    var ids := CoinIds(sdk, spends);
    CoinIdAt(sdk, spends);
    assert ids[1..] == CoinIds(sdk, spends[1..]);
    forall i | 0 <= i < |spends| - 1 ensures sdk.IdOf(spends[1..][i].coin) != sdk.IdOf(spends[0].coin) {
      assert ids[0] != ids[i + 1];
    }
  }

  /** Messages bound to other coins are not bound to this one. */
  lemma {:induction false} NoneBoundToFirst(sdk: Sdk, genesis: seq<Byte>, spends: seq<CoinSpend>, id: Bytes32)
    requires AllAdmitted(sdk, spends) && RequiredByAll(sdk, genesis, spends).Some?
    requires forall s :: s in spends ==> sdk.IdOf(s.coin) != id
    ensures NoneBound(MessagesOf(RequiredByAll(sdk, genesis, spends).value), id.bytes + genesis)
    ensures NoneBound(CommittedMessages(sdk, genesis, spends), id.bytes + genesis)
  {
    if spends != [] {
      var other := sdk.IdOf(spends[0].coin);
      NoneBoundToFirst(sdk, genesis, spends[1..], id);
      OneCoinRequires(sdk, genesis, spends[0]);
      BoundTo(Committed(sdk, spends[0]), other.bytes + genesis);
      MessagesConcat(RequiredBy(sdk, genesis, spends[0]).value, RequiredByAll(sdk, genesis, spends[1..]).value);
      forall m | EndsWith(m, other.bytes + genesis) ensures !EndsWith(m, id.bytes + genesis) {
        OneBinding(m, other, id, genesis);
      }
    }
  }

  lemma OneBinding(message: seq<Byte>, a: Bytes32, b: Bytes32, genesis: seq<Byte>)
    requires a != b && EndsWith(message, a.bytes + genesis)
    ensures !EndsWith(message, b.bytes + genesis)
  {
    assert (a.bytes + genesis)[..32] == a.bytes && (b.bytes + genesis)[..32] == b.bytes;
  }

  /** A list splits in one way into messages bound to a coin and messages that are not. */
  lemma SplitByBinding(a: seq<seq<Byte>>, x: seq<seq<Byte>>, b: seq<seq<Byte>>, y: seq<seq<Byte>>, suffix: seq<Byte>)
    requires a + x == b + y
    requires AllBound(a, suffix) && AllBound(b, suffix) && NoneBound(x, suffix) && NoneBound(y, suffix)
    ensures a == b && x == y
  {
    NoShorter(a, x, b, y, suffix);
    NoShorter(b, y, a, x, suffix);
    assert a == (a + x)[..|a|] && x == (a + x)[|a|..];
  }

  lemma NoShorter(a: seq<seq<Byte>>, x: seq<seq<Byte>>, b: seq<seq<Byte>>, y: seq<seq<Byte>>, suffix: seq<Byte>)
    requires a + x == b + y && NoneBound(x, suffix) && AllBound(b, suffix)
    ensures |b| <= |a|
  {
    FrontAndBack(a, x);
    FrontAndBack(b, y);
    var whole := a + x;
    assert forall k :: |a| <= k < |whole| ==> !EndsWith(whole[k], suffix);
    if b != [] {
      assert EndsWith(whole[|b| - 1], suffix);
    }
  }

  lemma FrontAndBack(a: seq<seq<Byte>>, x: seq<seq<Byte>>)
    ensures forall k :: 0 <= k < |a| ==> (a + x)[k] == a[k]
    ensures forall k :: |a| <= k < |a + x| ==> (a + x)[k] == x[k - |a|]
  {
  }

  ghost predicate AllBound(messages: seq<seq<Byte>>, suffix: seq<Byte>) {
    forall i :: 0 <= i < |messages| ==> EndsWith(messages[i], suffix)
  }

  ghost predicate NoneBound(messages: seq<seq<Byte>>, suffix: seq<Byte>) {
    forall i :: 0 <= i < |messages| ==> !EndsWith(messages[i], suffix)
  }
}
