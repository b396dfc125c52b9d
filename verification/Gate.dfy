/** The signing gate: split the analyzed outputs by key ownership and sign only when what leaves
    the wallet is exactly what the reviewed summary says. */
module Gate {
  import opened Prelude
  import opened Clvm
  import opened Conditions
  import opened Settlement
  import opened Book
  import opened Verify
  import opened Text

  datatype SpendOutput = SpendOutput(address: string, amount: U64, assetId: Option<string>) {
    /** An empty address marks a settlement sink. */
    predicate IsProtocolSink() { address == "" }
  }

  datatype TransactionSummary = TransactionSummary(
    outputs: seq<SpendOutput>,
    received: seq<SpendOutput>,
    fee: U64,
    meltedSingletons: seq<string>,
    nftOperations: seq<string>)

  /** What one reviewed or derived output is compared by; a sink has no hash. */
  datatype ReviewKey = ReviewKey(hash: Option<Bytes32>, amount: U64, asset: Option<string>)

  /** Address text and ordering, as the libraries provide them. */
  datatype Codec = Codec(
    encode: (Bytes32, string) -> string,
    decode: string -> Option<Bytes32>,
    lowercase: string -> string,
    textLe: (string, string) -> bool,
    keyLe: (ReviewKey, ReviewKey) -> bool)
  {
    function Encode(hash: Bytes32, prefix: string): string { encode(hash, prefix) }

    function Decode(address: string): Option<Bytes32> { decode(address) }

    /** Asset ids compare in lower case without a `0x`. */
    function NormalizeAsset(asset: string): string { lowercase(StripPrefix(asset)) }

    ghost predicate Lawful() {
      && (forall hash, prefix :: prefix == "xch" || prefix == "nft" ==>
            Decode(Encode(hash, prefix)) == Some(hash) && Encode(hash, prefix) != "" && ' ' !in Encode(hash, prefix))
      && (forall s :: IsLowerHex(s) ==> lowercase(s) == s)
      && TotalOrder(textLe)
      && TotalOrder(keyLe)
    }
  }

  /** Coin ids compare in lower case without any `0x`. */
  function NormalizeCoinId(id: string): string {
    AsciiLower(TrimPrefixes(id))
  }

  /** Letter by letter: leading `0x`s go, then capitals become small and all else stays. */
  lemma CoinIdSpelling(id: string)
    ensures "0x" <= id ==> NormalizeCoinId(id) == NormalizeCoinId(id[2..])
    ensures !("0x" <= id) ==>
              && |NormalizeCoinId(id)| == |id|
              && forall i :: 0 <= i < |id| ==>
                   NormalizeCoinId(id)[i] == if 'A' <= id[i] <= 'Z' then id[i] - 'A' + 'a' else id[i]
  {
    LowerEach(id);
  }

  /** The sentence a person reviews for an NFT act. */
  function Describe(codec: Codec, operation: NftOperation): string {
    match operation
    case Transfer(launcherId, destination) =>
      "transfer " + codec.Encode(launcherId, "nft") + " to " + codec.Encode(destination, "xch")
    case Mint(launcherId, owner) =>
      "mint " + codec.Encode(launcherId, "nft") + " owned by " + codec.Encode(owner, "xch")
  }

  function Verb(operation: NftOperation): string {
    if operation.Transfer? then "transfer " else "mint "
  }

  function Joint(operation: NftOperation): string {
    if operation.Transfer? then "to " else "owned by "
  }

  lemma DescribeParts(codec: Codec, operation: NftOperation)
    ensures Describe(codec, operation) ==
            Verb(operation) +
            (codec.Encode(operation.launcherId, "nft") +
             (" " + (Joint(operation) + codec.Encode(operation.Owner(), "xch"))))
  {
    var launcher, owner := codec.Encode(operation.launcherId, "nft"), codec.Encode(operation.Owner(), "xch");
    var joint := " " + Joint(operation);
    assert joint == if operation.Transfer? then " to " else " owned by ";
    ConcatAssociative(Verb(operation) + launcher, joint, owner);
    ConcatAssociative(Verb(operation), launcher, joint + owner);
    ConcatAssociative(" ", Joint(operation), owner);
  }

  /** A space-free word is what stands before the first space. */
  lemma {:induction false} FirstSpace(word: string, tail: string, other: string, rest: string)
    requires ' ' !in word && ' ' !in other && word + (" " + tail) == other + (" " + rest)
    ensures word == other && tail == rest
  {
    var text := word + (" " + tail);
    assert text[0] == (if word == "" then ' ' else word[0]) && text[0] == (if other == "" then ' ' else other[0]);
    if word == "" {
      assert other == "";
      assert text[1..] == tail && text[1..] == rest;
    } else {
      assert other != "";
      assert text[1..] == word[1..] + (" " + tail) && text[1..] == other[1..] + (" " + rest);
      FirstSpace(word[1..], tail, other[1..], rest);
      assert word == [word[0]] + word[1..] && other == [other[0]] + other[1..];
    }
  }

  /** Different acts read differently. */
  lemma DescribeInjective(codec: Codec, x: NftOperation, y: NftOperation)
    requires codec.Lawful() && Describe(codec, x) == Describe(codec, y)
    ensures x == y
  {
    DescribeParts(codec, x);
    DescribeParts(codec, y);
    assert Describe(codec, x)[0] == Verb(x)[0] && Describe(codec, y)[0] == Verb(y)[0];
    var launcher, other := codec.Encode(x.launcherId, "nft"), codec.Encode(y.launcherId, "nft");
    var owner, rest := codec.Encode(x.Owner(), "xch"), codec.Encode(y.Owner(), "xch");
    SamePrefix(Verb(x), launcher + (" " + (Joint(x) + owner)), other + (" " + (Joint(y) + rest)));
    FirstSpace(launcher, Joint(x) + owner, other, Joint(y) + rest);
    SamePrefix(Joint(x), owner, rest);
    assert Some(x.launcherId) == codec.Decode(launcher) && Some(x.Owner()) == codec.Decode(owner);
  }

  lemma SamePrefix(prefix: string, x: string, y: string)
    requires prefix + x == prefix + y
    ensures x == y
  {
    assert (prefix + x)[|prefix|..] == x && (prefix + y)[|prefix|..] == y;
  }

  lemma {:induction false} DescriptionsConcat(codec: Codec, a: seq<NftOperation>, b: seq<NftOperation>)
    ensures Descriptions(codec, a + b) == Descriptions(codec, a) + Descriptions(codec, b)
  {
    if a == [] {
      assert a + b == b;
    } else {
      assert (a + b)[0] == a[0] && (a + b)[1..] == a[1..] + b;
      DescriptionsConcat(codec, a[1..], b);
      ConcatAssociative([Describe(codec, a[0])], Descriptions(codec, a[1..]), Descriptions(codec, b));
    }
  }

  lemma {:induction false} DescriptionsLength(codec: Codec, operations: seq<NftOperation>)
    ensures |Descriptions(codec, operations)| == |operations|
  {
    if operations != [] {
      DescriptionsLength(codec, operations[1..]);
    }
  }

  lemma DescriptionsAround(codec: Codec, before: seq<NftOperation>, operation: NftOperation, after: seq<NftOperation>)
    ensures Descriptions(codec, before + ([operation] + after)) ==
            Descriptions(codec, before) + ([Describe(codec, operation)] + Descriptions(codec, after))
    ensures |Descriptions(codec, before)| == |before|
  {
    DescriptionsConcat(codec, before, [operation] + after);
    DescriptionsLength(codec, before);
    assert ([operation] + after)[1..] == after;
  }

  /** The sentence of the act at `k`, and the sentences without it. */
  lemma DescriptionAt(codec: Codec, operations: seq<NftOperation>, k: nat)
    requires k < |operations| == |Descriptions(codec, operations)|
    ensures Descriptions(codec, operations)[k] == Describe(codec, operations[k])
    ensures Without(Descriptions(codec, operations), k) == Descriptions(codec, Without(operations, k))
  {
    var before, operation, after := operations[..k], operations[k], operations[k + 1..];
    SplitAt(operations, k);
    DescriptionsAround(codec, before, operation, after);
    DescriptionsConcat(codec, before, after);
    WithoutAround(Descriptions(codec, before), Describe(codec, operation), Descriptions(codec, after));
  }

  /** Lists of sentences with the same members are lists of acts with the same members. */
  lemma {:induction false} SentencesPinActs(codec: Codec, a: seq<NftOperation>, b: seq<NftOperation>)
    requires codec.Lawful() && multiset(Descriptions(codec, a)) == multiset(Descriptions(codec, b))
    ensures multiset(a) == multiset(b)
    decreases |a|
  {
    var x, y := Descriptions(codec, a), Descriptions(codec, b);
    SameItemsLength(x, y);
    DescriptionsLength(codec, a);
    DescriptionsLength(codec, b);
    if a != [] {
      var k := HeadInReordering(x, y);
      DescriptionAt(codec, b, k);
      DescribeInjective(codec, a[0], b[k]);
      assert x[1..] == Descriptions(codec, a[1..]);
      SentencesPinActs(codec, a[1..], Without(b, k));
      HeadItems(a);
      WithoutItems(b, k);
    }
  }

  /** One reviewed summary stands for one set of NFT acts: two splits it matches perform the same acts. */
  lemma SummaryPinsActs(codec: Codec, summary: TransactionSummary, x: OwnedSplit, y: OwnedSplit)
    requires codec.Lawful()
    requires SameSummary(codec, summary, SummarizeEgress(codec, x))
             && SameSummary(codec, summary, SummarizeEgress(codec, y))
    ensures multiset(x.nftOperations) == multiset(y.nftOperations)
  {
    SentencesPinActs(codec, x.nftOperations, y.nftOperations);
  }

  // ---- ownership ----

  /** Who the wallet is: the puzzle hashes of its derived address keys, up to the gap limit. */
  datatype Owner = Owner(codec: Codec, addressGap: nat, addressHash: nat -> Bytes32) {
    function HashAt(ix: nat): Bytes32 { addressHash(ix) }

    predicate Owns(puzzleHash: Bytes32) {
      exists ix | 0 <= ix < addressGap :: HashAt(ix) == puzzleHash
    }
  }

  function Owned(owner: Owner, outputs: seq<DecodedOutput>, mine: bool): seq<DecodedOutput> {
    if outputs == [] then []
    else (if owner.Owns(outputs[0].puzzleHash) == mine then [outputs[0]] else []) + Owned(owner, outputs[1..], mine)
  }

  datatype OwnedSplit = OwnedSplit(
    recipients: seq<DecodedOutput>,
    protocolSink: seq<DecodedOutput>,
    fee: U64,
    meltedSingletons: seq<Bytes32>,
    nftOperations: seq<NftOperation>)

  /** Drop the change: every output the wallet holds a key for. */
  function ReclassifyByOwnership(owner: Owner, effect: SpendEffect): OwnedSplit {
    OwnedSplit(Owned(owner, effect.outputs, false), effect.protocolSink, effect.fee, effect.meltedSingletons,
               effect.nftOperations)
  }

  // ---- the summary a spend should be reviewed by ----

  function HexAsset(asset: Option<Bytes32>): Option<string> {
    if asset.None? then None else Some(Hex(asset.value.bytes))
  }

  function RecipientLines(codec: Codec, outputs: seq<DecodedOutput>): seq<SpendOutput> {
    if outputs == [] then []
    else
      [SpendOutput(codec.Encode(outputs[0].puzzleHash, "xch"), outputs[0].amount, HexAsset(outputs[0].assetId))] +
      RecipientLines(codec, outputs[1..])
  }

  /** Sinks carry no address; those of no value are announcement carriers and are left out. */
  function SinkLines(sinks: seq<DecodedOutput>): seq<SpendOutput> {
    if sinks == [] then []
    else
      (if sinks[0].amount > 0 then [SpendOutput("", sinks[0].amount, HexAsset(sinks[0].assetId))] else []) +
      SinkLines(sinks[1..])
  }

  function HexIds(ids: seq<Bytes32>): seq<string> {
    if ids == [] then [] else [Hex(ids[0].bytes)] + HexIds(ids[1..])
  }

  function Descriptions(codec: Codec, operations: seq<NftOperation>): seq<string> {
    if operations == [] then [] else [Describe(codec, operations[0])] + Descriptions(codec, operations[1..])
  }

  function SummarizeEgress(codec: Codec, split: OwnedSplit): TransactionSummary {
    TransactionSummary(RecipientLines(codec, split.recipients) + SinkLines(split.protocolSink), [], split.fee,
                       HexIds(split.meltedSingletons), Descriptions(codec, split.nftOperations))
  }

  /** The summary re-derived from the coin spends, with the wallet's own change left out. */
  ghost function ReviewableSummary(sdk: Sdk, owner: Owner, spends: seq<CoinSpend>): TransactionSummary
    requires Accepted(sdk, spends)
  {
    SummarizeEgress(owner.codec, ReclassifyByOwnership(owner, EffectOf(sdk, spends)))
  }

  // ---- reading a summary ----

  function NormalAsset(codec: Codec, asset: Option<string>): Option<string> {
    if asset.None? then None else Some(codec.NormalizeAsset(asset.value))
  }

  /** The recipients a summary names, or `None` if one of its addresses does not decode. */
  function ReviewedRecipients(codec: Codec, outputs: seq<SpendOutput>): Option<seq<ReviewKey>> {
    if outputs == [] then Some([])
    else
      match ReviewedRecipients(codec, outputs[1..])
      case None => None
      case Some(rest) =>
        if outputs[0].IsProtocolSink() then Some(rest)
        else
          match codec.Decode(outputs[0].address)
          case None => None
          case Some(hash) =>
            Some([ReviewKey(Some(hash), outputs[0].amount, NormalAsset(codec, outputs[0].assetId))] + rest)
  }

  function ReviewedSinks(codec: Codec, outputs: seq<SpendOutput>): seq<ReviewKey> {
    if outputs == [] then []
    else
      (if outputs[0].IsProtocolSink() then [ReviewKey(None, outputs[0].amount, NormalAsset(codec, outputs[0].assetId))]
       else []) +
      ReviewedSinks(codec, outputs[1..])
  }

  function ReviewedMelts(ids: seq<string>): seq<string> {
    if ids == [] then [] else [NormalizeCoinId(ids[0])] + ReviewedMelts(ids[1..])
  }

  /** Two summaries that say the same: lines in any order, addresses that decode alike, asset and
      coin ids in any accepted spelling, and whatever they claim to receive. */
  ghost predicate SameSummary(codec: Codec, x: TransactionSummary, y: TransactionSummary) {
    && x.fee == y.fee
    && multiset(ReviewedMelts(x.meltedSingletons)) == multiset(ReviewedMelts(y.meltedSingletons))
    && multiset(x.nftOperations) == multiset(y.nftOperations)
    && ReviewedRecipients(codec, x.outputs).Some? && ReviewedRecipients(codec, y.outputs).Some?
    && multiset(ReviewedRecipients(codec, x.outputs).value) == multiset(ReviewedRecipients(codec, y.outputs).value)
    && multiset(ReviewedSinks(codec, x.outputs)) == multiset(ReviewedSinks(codec, y.outputs))
  }

  // ---- what the comparison says, line by line ----

  /** An asset id in normal form: no asset, or its spelling in lower case without one leading `0x`. */
  predicate Spells(codec: Codec, written: Option<string>, asset: Option<string>) {
    match written
    case None => asset.None?
    case Some(id) => asset == Some(codec.lowercase(if "0x" <= id then id[2..] else id))
  }

  /** How many lines name this payment by an address that decodes to its hash. */
  function LinesNaming(codec: Codec, lines: seq<SpendOutput>, hash: Bytes32, amount: U64, asset: Option<string>): nat {
    if lines == [] then 0
    else
      var line := lines[0];
      (if line.address != "" && codec.Decode(line.address) == Some(hash) && line.amount == amount &&
          Spells(codec, line.assetId, asset) then 1 else 0) +
      LinesNaming(codec, lines[1..], hash, amount, asset)
  }

  /** How many lines without an address name this amount. */
  function SinkLinesNaming(codec: Codec, lines: seq<SpendOutput>, amount: U64, asset: Option<string>): nat {
    if lines == [] then 0
    else
      var line := lines[0];
      (if line.address == "" && line.amount == amount && Spells(codec, line.assetId, asset) then 1 else 0) +
      SinkLinesNaming(codec, lines[1..], amount, asset)
  }

  function IdsNaming(ids: seq<string>, id: string): nat {
    if ids == [] then 0 else (if NormalizeCoinId(ids[0]) == id then 1 else 0) + IdsNaming(ids[1..], id)
  }

  function PaymentsTo(outputs: seq<DecodedOutput>, hash: Bytes32, amount: U64, asset: Option<string>): nat {
    if outputs == [] then 0
    else
      var o := outputs[0];
      (if o.puzzleHash == hash && o.amount == amount && HexAsset(o.assetId) == asset then 1 else 0) +
      PaymentsTo(outputs[1..], hash, amount, asset)
  }

  function PaymentsOf(outputs: seq<DecodedOutput>, amount: U64, asset: Option<string>): nat {
    if outputs == [] then 0
    else
      (if outputs[0].amount == amount && HexAsset(outputs[0].assetId) == asset then 1 else 0) +
      PaymentsOf(outputs[1..], amount, asset)
  }

  function MeltsOf(ids: seq<Bytes32>, id: string): nat {
    if ids == [] then 0 else (if Hex(ids[0].bytes) == id then 1 else 0) + MeltsOf(ids[1..], id)
  }

  function ActsReading(codec: Codec, operations: seq<NftOperation>, sentence: string): nat {
    if operations == [] then 0
    else (if Describe(codec, operations[0]) == sentence then 1 else 0) + ActsReading(codec, operations[1..], sentence)
  }

  /** Every address decodes, and each payment is named by its address as often as it is made. */
  ghost predicate RecipientsNamed(codec: Codec, lines: seq<SpendOutput>, outputs: seq<DecodedOutput>) {
    && (forall line :: line in lines && line.address != "" ==> codec.Decode(line.address).Some?)
    && (forall hash: Bytes32, amount: U64, asset: Option<string> ::
          LinesNaming(codec, lines, hash, amount, asset) == PaymentsTo(outputs, hash, amount, asset))
  }

  /** Each sink of value is named by its amount as often as it is made, and none without value is named. */
  ghost predicate SinksNamed(codec: Codec, lines: seq<SpendOutput>, sinks: seq<DecodedOutput>) {
    forall amount: U64, asset: Option<string> ::
      SinkLinesNaming(codec, lines, amount, asset) == if amount == 0 then 0 else PaymentsOf(sinks, amount, asset)
  }

  ghost predicate MeltsNamed(ids: seq<string>, melted: seq<Bytes32>) {
    forall id: string :: IdsNaming(ids, id) == MeltsOf(melted, id)
  }

  ghost predicate ActsNamed(codec: Codec, sentences: seq<string>, operations: seq<NftOperation>) {
    forall sentence: string :: multiset(sentences)[sentence] == ActsReading(codec, operations, sentence)
  }

  /** The summary names the split, line by line, and nothing else. */
  ghost predicate Names(codec: Codec, claimed: TransactionSummary, split: OwnedSplit) {
    && claimed.fee == split.fee
    && RecipientsNamed(codec, claimed.outputs, split.recipients)
    && SinksNamed(codec, claimed.outputs, split.protocolSink)
    && MeltsNamed(claimed.meltedSingletons, split.meltedSingletons)
    && ActsNamed(codec, claimed.nftOperations, split.nftOperations)
  }

  lemma {:induction false} KeysCount(outputs: seq<DecodedOutput>, key: ReviewKey)
    ensures multiset(RecipientKeys(outputs))[key] ==
            if key.hash.None? then 0 else PaymentsTo(outputs, key.hash.value, key.amount, key.asset)
  {
    if outputs != [] {
      KeysCount(outputs[1..], key);
      HeadCount(ReviewKey(Some(outputs[0].puzzleHash), outputs[0].amount, HexAsset(outputs[0].assetId)),
                RecipientKeys(outputs[1..]), key);
    }
  }

  lemma {:induction false} SinkKeysCount(sinks: seq<DecodedOutput>, key: ReviewKey)
    ensures multiset(SinkKeys(sinks))[key] ==
            if key.hash.Some? || key.amount == 0 then 0 else PaymentsOf(sinks, key.amount, key.asset)
  {
    if sinks != [] {
      SinkKeysCount(sinks[1..], key);
      if sinks[0].amount > 0 {
        HeadCount(ReviewKey(None, sinks[0].amount, HexAsset(sinks[0].assetId)), SinkKeys(sinks[1..]), key);
      } else {
        assert SinkKeys(sinks) == SinkKeys(sinks[1..]);
      }
    }
  }

  lemma {:induction false} LinesDecode(codec: Codec, lines: seq<SpendOutput>)
    ensures ReviewedRecipients(codec, lines).Some? <==>
            forall line :: line in lines && line.address != "" ==> codec.Decode(line.address).Some?
  {
    if lines != [] {
      assert lines == [lines[0]] + lines[1..];
      LinesDecode(codec, lines[1..]);
    }
  }

  lemma {:induction false} LinesCount(codec: Codec, lines: seq<SpendOutput>, key: ReviewKey)
    requires ReviewedRecipients(codec, lines).Some?
    ensures multiset(ReviewedRecipients(codec, lines).value)[key] ==
            if key.hash.None? then 0 else LinesNaming(codec, lines, key.hash.value, key.amount, key.asset)
  {
    if lines != [] {
      var rest := ReviewedRecipients(codec, lines[1..]).value;
      LinesCount(codec, lines[1..], key);
      if lines[0].address != "" {
        LineCounts(codec, lines[0], rest, key);
      }
    }
  }

  lemma LineCounts(codec: Codec, line: SpendOutput, rest: seq<ReviewKey>, key: ReviewKey)
    requires codec.Decode(line.address).Some?
    ensures var first := ReviewKey(codec.Decode(line.address), line.amount, NormalAsset(codec, line.assetId));
            multiset([first] + rest)[key] == multiset(rest)[key] +
            if codec.Decode(line.address) == key.hash && line.amount == key.amount &&
               Spells(codec, line.assetId, key.asset) then 1 else 0
  {
    SpelledNormal(codec, line.assetId, key.asset);
    HeadCount(ReviewKey(codec.Decode(line.address), line.amount, NormalAsset(codec, line.assetId)), rest, key);
  }

  lemma {:induction false} SinkLinesCount(codec: Codec, lines: seq<SpendOutput>, key: ReviewKey)
    ensures multiset(ReviewedSinks(codec, lines))[key] ==
            if key.hash.Some? then 0 else SinkLinesNaming(codec, lines, key.amount, key.asset)
  {
    if lines != [] {
      var rest := ReviewedSinks(codec, lines[1..]);
      SinkLinesCount(codec, lines[1..], key);
      SpelledNormal(codec, lines[0].assetId, key.asset);
      if lines[0].address == "" {
        HeadCount(ReviewKey(None, lines[0].amount, NormalAsset(codec, lines[0].assetId)), rest, key);
      } else {
        assert ReviewedSinks(codec, lines) == rest;
      }
    }
  }

  lemma SpelledNormal(codec: Codec, written: Option<string>, asset: Option<string>)
    ensures Spells(codec, written, asset) <==> NormalAsset(codec, written) == asset
  {
  }

  lemma HeadCount<T>(head: T, rest: seq<T>, x: T)
    ensures multiset([head] + rest)[x] == (if head == x then 1 else 0) + multiset(rest)[x]
  {
  }

  lemma {:induction false} IdsCount(ids: seq<string>, id: string)
    ensures multiset(ReviewedMelts(ids))[id] == IdsNaming(ids, id)
  {
    if ids != [] {
      IdsCount(ids[1..], id);
      HeadCount(NormalizeCoinId(ids[0]), ReviewedMelts(ids[1..]), id);
    }
  }

  lemma {:induction false} MeltsCount(melted: seq<Bytes32>, id: string)
    ensures multiset(HexIds(melted))[id] == MeltsOf(melted, id)
  {
    if melted != [] {
      MeltsCount(melted[1..], id);
      HeadCount(Hex(melted[0].bytes), HexIds(melted[1..]), id);
    }
  }

  lemma {:induction false} ActsCount(codec: Codec, operations: seq<NftOperation>, sentence: string)
    ensures multiset(Descriptions(codec, operations))[sentence] == ActsReading(codec, operations, sentence)
  {
    if operations != [] {
      ActsCount(codec, operations[1..], sentence);
      HeadItems(Descriptions(codec, operations));
      assert Descriptions(codec, operations)[1..] == Descriptions(codec, operations[1..]);
    }
  }

  lemma SameCounts<T(!new)>(a: seq<T>, b: seq<T>)
    requires forall x :: multiset(a)[x] == multiset(b)[x]
    ensures multiset(a) == multiset(b)
  {
  }

  lemma RecipientsCompared(codec: Codec, lines: seq<SpendOutput>, outputs: seq<DecodedOutput>)
    requires ReviewedRecipients(codec, lines).Some?
    ensures multiset(ReviewedRecipients(codec, lines).value) == multiset(RecipientKeys(outputs)) <==>
            RecipientsNamed(codec, lines, outputs)
  {
    var reviewed, derived := ReviewedRecipients(codec, lines).value, RecipientKeys(outputs);
    LinesDecode(codec, lines);
    if multiset(reviewed) == multiset(derived) {
      forall hash: Bytes32, amount: U64, asset: Option<string>
        ensures LinesNaming(codec, lines, hash, amount, asset) == PaymentsTo(outputs, hash, amount, asset)
      {
        LinesCount(codec, lines, ReviewKey(Some(hash), amount, asset));
        KeysCount(outputs, ReviewKey(Some(hash), amount, asset));
      }
    }
    if RecipientsNamed(codec, lines, outputs) {
      forall key ensures multiset(reviewed)[key] == multiset(derived)[key] {
        LinesCount(codec, lines, key);
        KeysCount(outputs, key);
      }
      SameCounts(reviewed, derived);
    }
  }

  lemma SinksCompared(codec: Codec, lines: seq<SpendOutput>, sinks: seq<DecodedOutput>)
    ensures multiset(ReviewedSinks(codec, lines)) == multiset(SinkKeys(sinks)) <==> SinksNamed(codec, lines, sinks)
  {
    var reviewed, derived := ReviewedSinks(codec, lines), SinkKeys(sinks);
    if multiset(reviewed) == multiset(derived) {
      forall amount: U64, asset: Option<string>
        ensures SinkLinesNaming(codec, lines, amount, asset) ==
                if amount == 0 then 0 else PaymentsOf(sinks, amount, asset)
      {
        SinkLinesCount(codec, lines, ReviewKey(None, amount, asset));
        SinkKeysCount(sinks, ReviewKey(None, amount, asset));
      }
    }
    if SinksNamed(codec, lines, sinks) {
      forall key ensures multiset(reviewed)[key] == multiset(derived)[key] {
        SinkLinesCount(codec, lines, key);
        SinkKeysCount(sinks, key);
      }
      SameCounts(reviewed, derived);
    }
  }

  lemma MeltsCompared(ids: seq<string>, melted: seq<Bytes32>)
    ensures multiset(ReviewedMelts(ids)) == multiset(HexIds(melted)) <==> MeltsNamed(ids, melted)
  {
    forall id: string ensures multiset(ReviewedMelts(ids))[id] == IdsNaming(ids, id) {
      IdsCount(ids, id);
    }
    forall id: string ensures multiset(HexIds(melted))[id] == MeltsOf(melted, id) {
      MeltsCount(melted, id);
    }
    if MeltsNamed(ids, melted) {
      SameCounts(ReviewedMelts(ids), HexIds(melted));
    }
  }

  lemma ActsCompared(codec: Codec, sentences: seq<string>, operations: seq<NftOperation>)
    ensures multiset(sentences) == multiset(Descriptions(codec, operations)) <==>
            ActsNamed(codec, sentences, operations)
  {
    forall sentence: string
      ensures multiset(Descriptions(codec, operations))[sentence] == ActsReading(codec, operations, sentence)
    {
      ActsCount(codec, operations, sentence);
    }
    if ActsNamed(codec, sentences, operations) {
      SameCounts(sentences, Descriptions(codec, operations));
    }
  }

  /** Saying the same as the derived summary is naming the split, line by line. */
  lemma SameSummaryNames(codec: Codec, claimed: TransactionSummary, split: OwnedSplit)
    requires codec.Lawful()
    ensures SameSummary(codec, claimed, SummarizeEgress(codec, split)) <==> Names(codec, claimed, split)
  {
    ReadBack(codec, split);
    LinesDecode(codec, claimed.outputs);
    if ReviewedRecipients(codec, claimed.outputs).Some? {
      RecipientsCompared(codec, claimed.outputs, split.recipients);
    }
    SinksCompared(codec, claimed.outputs, split.protocolSink);
    MeltsCompared(claimed.meltedSingletons, split.meltedSingletons);
    ActsCompared(codec, claimed.nftOperations, split.nftOperations);
  }

  // ---- the comparison as the signer makes it ----

  function RecipientKeys(outputs: seq<DecodedOutput>): seq<ReviewKey> {
    if outputs == [] then []
    else
      [ReviewKey(Some(outputs[0].puzzleHash), outputs[0].amount, HexAsset(outputs[0].assetId))] +
      RecipientKeys(outputs[1..])
  }

  function SinkKeys(sinks: seq<DecodedOutput>): seq<ReviewKey> {
    if sinks == [] then []
    else
      (if sinks[0].amount > 0 then [ReviewKey(None, sinks[0].amount, HexAsset(sinks[0].assetId))] else []) +
      SinkKeys(sinks[1..])
  }

  /** Fee, melts, NFT acts, recipients and sinks, each list compared after sorting both sides. */
  method AssertReviewedSummaryMatches(codec: Codec, claimed: TransactionSummary, split: OwnedSplit) returns (ok: bool)
    requires codec.Lawful()
    ensures ok <==> Names(codec, claimed, split)
    ensures ok <==> SameSummary(codec, claimed, SummarizeEgress(codec, split))
  {
    ReadBack(codec, split);
    SameSummaryNames(codec, claimed, split);
    if claimed.fee != split.fee { return false; }
    var derivedMelts, reviewedMelts := HexIds(split.meltedSingletons), ReviewedMelts(claimed.meltedSingletons);
    SortedComparison(derivedMelts, reviewedMelts, codec.textLe);
    if Sorted(derivedMelts, codec.textLe) != Sorted(reviewedMelts, codec.textLe) { return false; }
    var derivedNfts := Descriptions(codec, split.nftOperations);
    SortedComparison(derivedNfts, claimed.nftOperations, codec.textLe);
    if Sorted(derivedNfts, codec.textLe) != Sorted(claimed.nftOperations, codec.textLe) { return false; }
    var derived, reviewed := RecipientKeys(split.recipients), ReviewedRecipients(codec, claimed.outputs);
    if reviewed.None? { return false; }
    SortedComparison(derived, reviewed.value, codec.keyLe);
    if Sorted(derived, codec.keyLe) != Sorted(reviewed.value, codec.keyLe) { return false; }
    var derivedSinks, reviewedSinks := SinkKeys(split.protocolSink), ReviewedSinks(codec, claimed.outputs);
    SortedComparison(derivedSinks, reviewedSinks, codec.keyLe);
    return Sorted(derivedSinks, codec.keyLe) == Sorted(reviewedSinks, codec.keyLe);
  }

  /** A rendered summary reads back as what it was rendered from. */
  lemma ReadBack(codec: Codec, split: OwnedSplit)
    requires codec.Lawful()
    ensures var summary := SummarizeEgress(codec, split);
            && ReviewedRecipients(codec, summary.outputs) == Some(RecipientKeys(split.recipients))
            && ReviewedSinks(codec, summary.outputs) == SinkKeys(split.protocolSink)
            && ReviewedMelts(summary.meltedSingletons) == HexIds(split.meltedSingletons)
  {
    LinesReadBack(codec, split.recipients, SinkLines(split.protocolSink));
    SinksReadBack(codec, split.protocolSink);
    MeltsReadBack(split.meltedSingletons);
    assert RecipientKeys(split.recipients) + [] == RecipientKeys(split.recipients);
  }

  lemma AssetReadsBack(codec: Codec, asset: Option<Bytes32>)
    requires codec.Lawful()
    ensures NormalAsset(codec, HexAsset(asset)) == HexAsset(asset)
  {
    if asset.Some? {
      HexIsNormal(asset.value.bytes);
      HexIsLower(asset.value.bytes);
    }
  }

  lemma {:induction false} LinesReadBack(codec: Codec, outputs: seq<DecodedOutput>, others: seq<SpendOutput>)
    requires codec.Lawful()
    ensures ReviewedRecipients(codec, RecipientLines(codec, outputs) + others) ==
            (match ReviewedRecipients(codec, others)
             case None => None
             case Some(rest) => Some(RecipientKeys(outputs) + rest))
    ensures ReviewedSinks(codec, RecipientLines(codec, outputs) + others) == ReviewedSinks(codec, others)
  {
    var lines := RecipientLines(codec, outputs);
    if outputs == [] {
      assert lines + others == others;
      if ReviewedRecipients(codec, others).Some? {
        assert RecipientKeys(outputs) + ReviewedRecipients(codec, others).value ==
               ReviewedRecipients(codec, others).value;
      }
    } else {
      assert (lines + others)[1..] == RecipientLines(codec, outputs[1..]) + others;
      LinesReadBack(codec, outputs[1..], others);
      AssetReadsBack(codec, outputs[0].assetId);
      if ReviewedRecipients(codec, others).Some? {
        var rest := ReviewedRecipients(codec, others).value;
        var first := [ReviewKey(Some(outputs[0].puzzleHash), outputs[0].amount, HexAsset(outputs[0].assetId))];
        assert first + (RecipientKeys(outputs[1..]) + rest) == RecipientKeys(outputs) + rest;
      }
    }
  }

  lemma {:induction false} SinksReadBack(codec: Codec, sinks: seq<DecodedOutput>)
    requires codec.Lawful()
    ensures ReviewedRecipients(codec, SinkLines(sinks)) == Some([])
    ensures ReviewedSinks(codec, SinkLines(sinks)) == SinkKeys(sinks)
  {
    if sinks != [] {
      SinksReadBack(codec, sinks[1..]);
      AssetReadsBack(codec, sinks[0].assetId);
      if sinks[0].amount > 0 {
        assert SinkLines(sinks)[1..] == SinkLines(sinks[1..]);
      } else {
        assert SinkLines(sinks) == SinkLines(sinks[1..]) && SinkKeys(sinks) == SinkKeys(sinks[1..]);
      }
    }
  }

  lemma {:induction false} MeltsReadBack(ids: seq<Bytes32>)
    ensures ReviewedMelts(HexIds(ids)) == HexIds(ids)
  {
    if ids != [] {
      HexIsNormal(ids[0].bytes);
      MeltsReadBack(ids[1..]);
    }
  }

  /** Verify before signing: re-derive the flow, split off the change, and require the reviewed
      summary to be the re-derived one. The re-check that every sink is structural never fires. */
  method VerifyBeforeSigning(sdk: Sdk, owner: Owner, spends: seq<CoinSpend>, summary: TransactionSummary)
    returns (ok: bool)
    requires owner.codec.Lawful()
    ensures ok <==> Accepted(sdk, spends) && SameSummary(owner.codec, summary, ReviewableSummary(sdk, owner, spends))
    ensures ok <==> Accepted(sdk, spends) &&
                    Names(owner.codec, summary, ReclassifyByOwnership(owner, EffectOf(sdk, spends)))
  {
    var effect := Analyze(sdk, spends);
    if effect.None? { return false; }
    var split := ReclassifyByOwnership(owner, effect.value);
    RoutedTotals(sdk, BookOf(sdk, spends).created, None);
    for i := 0 to |split.protocolSink| {
      if !sdk.IsSinkHash(split.protocolSink[i].puzzleHash) {
        assert false;
      }
    }
    ok := AssertReviewedSummaryMatches(owner.codec, summary, split);
  }
}
