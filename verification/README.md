# The signer's gate, verified

A wallet signs a spend bundle only if its own reading of the bytes agrees with the summary a person
reviewed. This project is a Dafny model of that gate and of the code around it, with proofs of what
the gate is worth.

The reading is `analyze`: it folds every coin spend into a ledger of inputs, outputs, fees, melts and
NFT acts, runs two graph checks over the whole bundle and a conservation check with two modes. The
gate is `LocalSigner`: it splits the outputs by key ownership, compares what leaves the wallet with the
summary, and only then signs.

What is proved, hardest first:

- **Value.** If the gate opens, what the wallet owns afterwards is exactly what it spent, less the
  reviewed lines, less the reviewed fee; for XCH and for every CAT (`Value`).
- **Exactness.** The verdict and the gate are given over the coin spends themselves, with no ledger in
  between: what each layer may do (`Reading`), how sinks are paid for (`Offers`), what a bundle makes,
  spends, reserves and destroys, and that the gate opens if and only if the summary names each payment by
  its hash, each melted coin by its id and each act, as often as it happens (`Acceptance`, `Gate`). The
  signature is over what was analysed exactly when no CAT or option layer adds one of its own (`Signing`).
- **Commitment.** Under one signature there is one list of conditions, and under one set of signatures
  one ledger for the whole bundle, or a tree-hash collision is exhibited; `SignedProgramHashes` says
  which two programs would collide (`Commitments`).
- **Order and composition.** The verdict does not depend on the order of the spends, and two accepted
  bundles compose unless a total overflows or a melt meets an option (`Bundles`). Both take distinct
  signed coins; a counterexample shows that order does matter without them.
- **Settlement.** The worklist decides reachability (`Settlement`). When a sink cannot be taken apart
  from its requested payment is decided exactly, by the same walk with "all holders of a hash" in place
  of "any holder"; what is atomic is accepted, and what is accepted is atomic where no two coins share
  an asserted hash (`Atomicity`).
- **Mints and melts.** Launchers, eves and owners belong together over the whole bundle (`Mints`); a
  melt's signed list is what the effect reports (`Commitments`).
- **Builders.** A bundle the XCH builders return passes the gate with the builder's own summary exactly
  when every destination lies outside the wallet (`Building`, `Builders`, `Selection`, `Splitting`).
- **State around it.** Amounts print without loss (`Text`); a reorg is undone exactly and both wallet
  stores agree on it (`Coins`); the hint index stays a mirror (`Hints`); the event ring agrees with
  the durable log (`Events`).

## How the model is laid out

| file | models |
|---|---|
| `Prelude`, `Clvm` | machine integers, CLVM values, and the foreign calls as a record of total functions |
| `Conditions` | reading a condition list, the allowlists, the quote proof |
| `Settlement`, `Atomicity` | concurrency bindings, the search over them, and what the search is worth |
| `Book` | what one spend contributes, and the unbounded sums a bundle stands for |
| `Ledger` | `SpendLedger` as a class with the source's fields and one method per arm |
| `Verify` | `analyze`, the mint binding, conservation |
| `Reading`, `Offers`, `Acceptance` | the same verdict read off puzzles, conditions and coins |
| `Bundles`, `Commitments`, `Mints` | theorems over whole bundles |
| `Text` | hex, sorting, amount printing |
| `Gate`, `Value`, `Signing` | the signer |
| `Selection`, `Splitting`, `Building`, `Builders` | the engine's XCH builders |
| `Example`, `ExampleBundles` | drivers that meet every law, a send the gate opens on, a bundle whose order matters |
| `ExampleSingletons`, `ExampleTails` | accepted bundles: two launchers on one output, melts with and without value, a TAIL that signs |
| `Coins`, `Hints`, `Events` | coin tables, hint index, event ring and durable log |

The ledger is imperative: its fields are 64-bit totals, maps and lists updated in place, with checked
sums. A ghost `book` holds the unbounded lists those fields stand for, and `Valid` ties the two. Each
method says when it succeeds (`Admits`) and that the book grew by exactly one entry, so the
properties of a run are properties of a sum of entries, proved as lemmas in `Book` and `Bundles`.

CLVM execution, hashing, the driver parsers, address encoding and BLS are parameters: records of
functions (`Sdk`, `Codec`, `Kit`, `LocalSigner`). A statement that needs a law about them takes it as
a hypothesis: the quote law, the standard layer emitting its own signature first, an encoder its
decoder inverts. Tree hashes are not assumed injective: where the argument rests on that, the
conclusion offers the colliding pair instead.

`dafny verify dfyconfig.toml` checks the whole project.

## Model

| member | source | states |
|---|---|---|
| Value.KeptIsSpentLessReviewed | src/client/signer.rs:275-303 | When the gate opens, XCH and every CAT balance: what the wallet owns of the asset is what it spent of it, minus the reviewed lines of it, minus the reviewed fee for XCH; over unbounded integers and every mix of coin kinds |
| Gate.VerifyBeforeSigning | src/client/signer.rs:275-303 | Accepts if and only if the bundle is admitted and the summary names, line by line, what leaves the wallet; the re-check that sinks are structural never fires |
| Acceptance.GateExactly | src/client/signer.rs:275-303 | On an accepted bundle the gate opens exactly when, for every hash, amount and asset, the lines whose address decodes to that hash are as many as the coins made there if the hash is neither the wallet's nor structural, and none otherwise; the empty-address lines count the sinks of value, every melted coin is named by its id and every act by its sentence, each as often as it happens; and the fee is what is reserved and destroyed |
| Gate.AssertReviewedSummaryMatches | src/client/signer.rs:393-514 | The five sorted comparisons hold exactly when the summary names the split: fee, recipients by hash, amount and asset, sinks by amount and asset, melted ids and acts, each counted |
| Gate.SameSummaryNames | src/client/signer.rs:393-514 | Saying the same as the derived summary, up to line order, address spelling, and the case and 0x prefix of ids, is naming the split line by line |
| Gate.CoinIdSpelling | src/client/signer.rs:418-429 | A reviewed coin id is compared without its leading 0x prefixes and with its capitals made small, letter by letter |
| Gate.ReadBack | src/client/verify.rs:1719-1770 | A rendered summary reads back as the split it was rendered from: same recipients, same non-zero sinks, same melted ids |
| Gate.DescribeInjective | src/client/verify.rs:162-175 | Different NFT acts read as different sentences |
| Gate.SummaryPinsActs | src/client/signer.rs:427-450 | Two flows that one reviewed summary matches perform the same NFT acts, each as often |
| Text.SortedComparison | src/client/signer.rs:430-512 | Two lists are equal after sorting exactly when they are equal as multisets, for every total order |
| Text.HexInjective | src/client/signer.rs:712-717 | Different byte strings have different lower-case hex |
| Text.HexIsNormal | src/client/signer.rs:712-717 | A derived hex id is already in the normal form a reviewed one is brought to |
| Verify.Analyze | src/client/verify.rs:338-453 | Succeeds exactly on admitted bundles that fit, bind and conserve, and then returns the effect of the book of all spends: the loop over spends refines that definition, which AcceptedExactly and EffectReads give over the spends themselves |
| Acceptance.AcceptedExactly | src/client/verify.rs:338-453 | A bundle is accepted exactly when every spend decodes, reveals the puzzle its coin commits to and moves as its first layer allows; no total leaves 64 bits; launchers, eves and asserted announcements are tied; every signed sink reaches an asserted announcement; every CAT comes out as it went in; and XCH comes out as coins, reserved fees and destroyed mojos, or beside an option destroys nothing and makes no more than it spends |
| Acceptance.EffectReads | src/client/verify.rs:338-453 | The fee reported is what standard spends reserve plus what melts destroy, or beside an option what does not come out; the melts and acts reported are those of the spends |
| Acceptance.MadeIsCreated | src/client/verify.rs:1792-1815 | The coins the analysis counts are the CREATE_COINs of the lists its arms judge, each in the denomination of the coin that makes it |
| Acceptance.ValueReads | src/client/verify.rs:390-445 | The two-mode conservation check over the coins and conditions of the bundle |
| ExampleSingletons.MeltOfValuePasses | src/client/verify.rs:390-445 | An accepted strict bundle: a send of 100 that pays 90 and reserves 10 beside the melt of a coin of one mojo, with fee 11 |
| ExampleBundles.PaymentOpensGate | src/client/signer.rs:275-303 | The hypotheses and the gate can be met together: a concrete interpreter, codec and kit satisfy the driver, codec and signature laws, and a send built with them is accepted and opens the gate of a wallet owning only its change address |
| Example.LayersHold | src/client/verify.rs:603-655 | The layer laws are met by an interpreter that has CAT, NFT, option, eve and singleton layers |
| Example.NftsHold | src/client/verify.rs:881-967 | The NFT laws are met by the same interpreter |
| Example.SignaturesHandedOn | src/client/signer.rs:537-554 | Its layers keep their signatures, but for the CAT whose TAIL signs |
| Verify.AcceptedFee | src/client/verify.rs:390-445 | In strict, melt and option mode alike XCH inputs equal outputs plus sinks plus the reported fee, and that fee is between zero and u64::MAX, so the last addition of fee and melted mojos cannot fail |
| Verify.EffectiveFee | src/client/verify.rs:390-445 | The two-mode conservation check passes exactly when XCH is conserved and computes the reported fee |
| Verify.ConservesCats | src/client/verify.rs:430-444 | Comparing the two asset maps decides, for every asset at once, whether spent equals created |
| Verify.ScanForOption | src/client/verify.rs:1667-1695 | Option mode is on exactly when some spend of the bundle is an option coin |
| Bundles.AnalysisIgnoresOrder | src/client/verify.rs:338-453 | When the signed coins are distinct every reordering of the spends is accepted or refused alike, and accepted ones give the same fee and the same multisets of outputs, sinks, melts and NFT acts; unsigned coins may repeat |
| Bundles.BindingsOfCoins | src/client/verify.rs:1891-1903 | A bundle that repeats no coin id records each binding under a different id, so that condition is met |
| Settlement.RepeatedCoinIdMakesOrderMatter | src/client/verify.rs:1891-1903 | With a repeated coin id the index keeps the last binding, and two orders of one list of bindings get different verdicts |
| ExampleBundles.OrderMatters | src/client/verify.rs:354-363 | Distinctness is needed: a bundle that spends one signed coin twice is accepted by the analysis in one order of its coin spends and refused in another |
| Bundles.AcceptedTogether | src/client/verify.rs:338-453 | Two accepted bundles whose signed coins are distinct are accepted together if and only if no total of the combined ledger exceeds u64::MAX and no melt meets an option |
| Bundles.EffectsCompose | src/client/verify.rs:338-453 | The effect of the combined bundle is the concatenation of the two effects and the fees add, across the strict and the option fee mode |
| Bundles.BookReordering | src/client/verify.rs:338-453 | Reordering spends permutes every list of the book and keeps every total |
| Bundles.MintBoundReordering | src/client/verify.rs:1298-1351 | The mint binding does not depend on the order of the spends |
| Bundles.ConservedTogether | src/client/verify.rs:390-445 | Conservation of two bundles gives conservation of both, whichever fee modes they were judged in, as long as no melt meets an option |
| Book.BookOfConcat | src/client/verify.rs:338-453 | The book of a concatenation is the sum of the books |
| Book.RoutedTotals | src/client/verify.rs:1792-1815 | Routing loses and invents nothing: outputs and sinks of an asset add up to what was created, and exactly the structural hashes are sinks |
| Book.FitsEarlier | src/client/verify.rs:2376-2383 | Every prefix of a bundle whose totals fit has totals that fit, which is what makes overflow refusal order-free |
| Ledger.SpendLedger.AccountCoin | src/client/verify.rs:462-600 | Dispatch and arm together: a spend is recorded exactly when its arm admits it and every total still fits, and the new ledger is the old one plus that spend's entry |
| Ledger.SpendLedger.AccountSend | src/client/verify.rs:1582-1632 | A signed send is recorded exactly when it carries its sole signature over a quoted list; inputs, outputs, fee and asserted announcements are its entry |
| Ledger.SpendLedger.AccountSettlementClaim | src/client/verify.rs:1634-1660 | A settlement claim is recorded exactly when nothing in it asks for a signature or a melt; only its coin and its payments enter |
| Ledger.SpendLedger.AccountCatSpend | src/client/verify.rs:603-655 | A CAT spend is judged by its inner puzzle, standard or settlement, in its own asset |
| Ledger.SpendLedger.AccountOptionTransfer | src/client/verify.rs:719-804 | An option coin moves only under its inner signature and the transfer allowlist |
| Ledger.SpendLedger.AccountNftTransfer | src/client/verify.rs:881-967 | An NFT transfer is recorded with the signed destination as its act, and nothing else changes hands |
| Ledger.SpendLedger.AccountNftEveMint | src/client/verify.rs:1124-1190 | An eve spend is recorded as a mint to the quoted owner, and its parent as a launcher to be found |
| Ledger.SpendLedger.AccountSingletonLaunch | src/client/verify.rs:1200-1259 | A launcher is recorded with its id, its parent and the announcements it makes |
| Ledger.SpendLedger.AccountSingletonMelt | src/client/verify.rs:1534-1578 | A melt is recorded exactly when it is authorised: the whole coin enters as input, as mojos destroyed, and by name |
| Reading.AdmittedExactly | src/client/verify.rs:462-600 | A coin spend is admitted exactly when it decodes, its reveal hashes to the coin, and it moves as the first of CAT, option, launcher, NFT, singleton, standard or settlement layer it is says it may; a one-of-many coin or a layer that fails to parse never is |
| Reading.AdmittedRevealHashes | src/client/verify.rs:478-486 | Whatever arm admits it, the revealed puzzle is the one the coin commits to |
| Reading.TransferExactly | src/client/verify.rs:881-967 | An NFT transfer is admitted exactly when its signed quote makes one odd coin at a free hash and else only asserts, and the outer list adds the one signature over that quote and makes one odd coin; the act names the owner the signed list pays |
| Reading.OptionExactly | src/client/verify.rs:719-804 | An option moves exactly when its one signature is over a quote and its list makes one odd coin at a free hash and else only asserts |
| Reading.EveExactly | src/client/verify.rs:1124-1190 | An eve is admitted exactly when its own quote makes one odd coin at a free hash and it and the outer list else only assert |
| Reading.LaunchExactly | src/client/verify.rs:1200-1259 | A launcher is admitted exactly when it makes one odd coin and else announces and asserts; exactly its announcements are recorded |
| Reading.MeltExactly | src/client/verify.rs:1534-1578 | A melt is admitted exactly when its one signature is over a quote found in the solution that holds one melt marker and else asserts, and what is presented does no more than sign, melt and assert |
| Reading.SendExactly | src/client/verify.rs:1582-1632 | A send is admitted exactly when its one AGG_SIG_ME is over a quote and it asks for no other kind of signature |
| Reading.ClaimExactly | src/client/verify.rs:1634-1660 | A settlement coin is claimed exactly when it runs and asks for no signature |
| Reading.AllowlistsRead | src/client/verify.rs:1353-1450 | What each list permits is what it does not exclude: of the conditions that do something, only payments, and beside them the signature, the launcher announcement or the melt marker of its leg |
| Ledger.SpendLedger.RecordOutput | src/client/verify.rs:1792-1815 | An output is recorded exactly when its asset's output total still fits, and is appended to what was created |
| Ledger.SpendLedger.RouteOutput | src/client/verify.rs:1792-1815 | Exactly the structural destinations go to the sinks, and every output goes to one list |
| Ledger.SpendLedger.RecordInput | src/client/verify.rs:241-301 | An input is recorded exactly when its asset's input total still fits |
| Ledger.SpendLedger.RecordMelt | src/client/verify.rs:1560-1578 | Melted mojos are added with a checked sum and the coin is named |
| Ledger.Accumulate | src/client/verify.rs:2376-2383 | A checked sum: the exact total, or nothing when it does not fit in 64 bits |
| Conditions.InnerRehomeDestination | src/client/verify.rs:1061-1097 | The loop finds the destination of a re-homing list exactly when the list creates one coin, of odd amount, at no structural hash |
| Commitments.SignaturePinsConditions | src/client/verify.rs:995-1018 | Whatever solution makes the standard layer emit the message of a proved quote runs to the layer's own signature followed by exactly the proved list, and so to the analysed conditions when both are solely signed; or two different programs with one tree hash are in hand. The replay must delegate, since on the hidden path the layer signs nothing |
| Commitments.SignaturePinsReplay | src/client/verify.rs:603-655 | Any spend at all that makes a standard layer, bare or inside a CAT, an option or an NFT, emit the message of an admitted one runs that layer to its own signature followed by exactly the analysed list, or a hash collision is in hand; the replay need not be admitted |
| Commitments.CatSendEntry | src/client/verify.rs:603-655 | The ledger entry of a signed CAT spend is read off the quoted list: the signature the layer adds creates, binds and asserts nothing |
| Commitments.SignedProgramHashes | src/client/verify.rs:2041-2160 | Every signed arm has a program whose tree hash is the message it commits to, which is what a collision of two spends is between |
| Commitments.SameMessageSameConditions | src/client/verify.rs:2041-2113 | Two solutions of one standard layer with one signed message quote the same list, and emit the same conditions when each is solely signed: the sole-signature check forces both onto one path |
| Commitments.SameInnerConditions | src/client/verify.rs:881-967 | Two admitted spends of one coin under one message, through any signed arm but the melt, quote one list, and emit the same conditions where they run one standard puzzle, or a hash collision is in hand |
| Commitments.SameSignatureSameEntry | src/client/verify.rs:685-714 | Any two admitted solutions of one coin under one signed message, through the standard, CAT, option, NFT-transfer or melt arm and either path of the standard layer, enter the ledger identically and count alike as option coins, or a hash collision is in hand |
| Commitments.SameSignaturesSameBook | src/client/verify.rs:338-453 | Over a whole bundle, a replay that keeps the signed message of every leg it re-solves keeps the ledger, the coin ids and the fee mode, or some coin exhibits a hash collision; legs that carry no signature are kept as they are |
| Commitments.SameSignaturesSameEffect | src/client/verify.rs:338-453 | Such a replay is accepted or refused alike, with the same effect |
| Commitments.SameSignatureSameTransfer | src/client/verify.rs:881-967 | Two NFT transfers read under one message quote the same inner list and name the same new owner, or a hash collision is in hand |
| Commitments.QuotedSpendEmits | src/client/verify.rs:2041-2071 | A proved quote makes the standard layer emit exactly the proved list: after its own signature when the solution delegates, without one on the hidden path unless it fails there |
| Commitments.MeltMessagePinsList | src/client/verify.rs:2130-2160 | One melt message finds one signed list in any two solutions, or a hash collision is in hand |
| Commitments.AdmittedMelt | src/client/verify.rs:1534-1578 | An admitted melt's signed program sits at depth 256 or less in the solution and quotes a list with exactly one MELT_SINGLETON, no CREATE_COIN, no signature and no fee; the full amount enters as input and as melted |
| Commitments.EveryMeltIsNamed | src/client/verify.rs:1534-1578 | The melted ids and mojos of a bundle are exactly those of its melt spends |
| Commitments.OnlyMeltsMelt | src/client/verify.rs:462-600 | No other arm ever reports a melt |
| Commitments.OptionMeltsAreEmpty | src/client/verify.rs:390-402 | In an accepted option bundle every melted coin holds no mojos |
| ExampleSingletons.EmptyMeltPasses | src/client/verify.rs:390-402 | Such melts do pass: an accepted option bundle whose effect names a melted singleton |
| Clvm.FindSubtreeExact | src/client/verify.rs:2168-2189 | The search succeeds exactly when a subtree with that tree hash exists at depth 256 or less |
| Clvm.FindSubtreeSound | src/client/verify.rs:2168-2189 | What it returns has the hash asked for and sits in the solution within the bound |
| Clvm.FindSubtreeComplete | src/client/verify.rs:2168-2189 | No subtree with the hash within the bound is missed |
| Mints.MintsAreBound | src/client/verify.rs:1298-1351 | In an accepted bundle every launcher's parent is spent in the bundle, some launcher-hash output is created, eve spends and launchers match both ways, and every launcher has an announcement asserted by a signed standard spend |
| Mints.LauncherIsCreated | src/client/verify.rs:1270-1276 | Given that the spent parent did make the launcher, and is no CAT or option, the launcher coin is that parent's launcher-hash output, and the accepted effect reports it as a sink |
| ExampleSingletons.LaunchersShareASink | src/client/verify.rs:1298-1316 | The verifier does not check that rule: an accepted bundle spends two launchers, of one mojo and of three, and its only sink is one launcher output of one mojo |
| Mints.RecordsOfSpends | src/client/verify.rs:1200-1259 | Launches, eve parents and asserted announcements in the book come from launcher, eve and signed standard spends and nowhere else |
| Mints.ActsNameOwners | src/client/verify.rs:1124-1190 | The effect holds one act per NFT spend, in order, naming the hash its inner list pays, and never a structural one |
| Mints.NftHandsOnOnce | src/client/verify.rs:1061-1097 | An admitted NFT spend's inner list creates exactly one coin, of odd amount, at no structural hash, and that is the owner named |
| Verify.EnforceBundleNftMintBinding | src/client/verify.rs:1298-1351 | The bundle check holds exactly when every launcher and every eve is bound to a mint of this bundle |
| Acceptance.MintsExactly | src/client/verify.rs:1298-1351 | The mint check both ways over the conditions: it passes exactly when each launcher has a spent parent, an eve and an announcement some signed standard spend asserts, each eve a launcher, and a launcher output is made where one is spent |
| Settlement.TiedToAnnouncement | src/client/verify.rs:1921-1949 | The worklist terminates and answers yes exactly when a path of concurrency assertions leads from the coin to one that carries an announcement |
| Settlement.EnforceBundleSettlementBinding | src/client/verify.rs:1891-1917 | The bundle is accepted exactly when every coin that creates a sink has such a path |
| Settlement.PushRequired | src/client/verify.rs:1937-1947 | The coins pushed are exactly those an edge leads to |
| Settlement.IndexBindings | src/client/verify.rs:1894-1903 | The index maps each coin id to its last position and each puzzle hash to all of its positions |
| Settlement.GatherBinding | src/client/verify.rs:1846-1872 | One pass over the conditions collects what the coin creates, announces and requires |
| Offers.BindingReads | src/client/verify.rs:1846-1872 | What is collected: the coin makes a sink exactly when it pays the settlement or launcher hash, carries an announcement exactly when it asserts one of a coin or a puzzle, and requires exactly the coins and hashes its concurrency assertions name |
| Offers.BindingsAreSends | src/client/verify.rs:1582-1632 | The coins bound are the signed standard and CAT sends, each once and in order |
| Offers.SettlementExactly | src/client/verify.rs:1891-1949 | Over the coin spends: the check passes exactly when every signed send that pays a settlement or launcher hash reaches, through concurrent-spend and concurrent-puzzle assertions, a signed send that asserts an announcement |
| Offers.NothingGivenAway | src/client/verify.rs:1874-1890 | An accepted bundle that commits value to settlement under a signature holds a signed coin that asserts an announcement |
| Atomicity.AtomicExactlyWhenForced | src/client/verify.rs:1874-1890 | Over distinct coins, every part of the bundle that meets its own concurrency assertions and holds a coin also holds an announcement if and only if that coin is forced: it announces, or asserts a forced coin, or asserts a hash all of whose holders are forced |
| Atomicity.ForcedIsFixed | src/client/verify.rs:1921-1949 | One round for each coin computes the forced coins: a coin is among them exactly when they force it |
| Atomicity.RingAtomicExactly | src/client/verify.rs:1891-1917 | No sink creator can reach the chain without an announcement exactly when every sink creator is forced, and then the verifier accepts the bundle |
| Atomicity.ForcedIsTied | src/client/verify.rs:1921-1949 | The worklist finds every forced coin: it refuses nothing that is atomic |
| Atomicity.TiedIsForced | src/client/verify.rs:1921-1949 | Where each asserted hash is held by at most one coin, the worklist finds only forced coins |
| Atomicity.SettlementRingIsAtomic | src/client/verify.rs:1891-1949 | So there every accepted list of distinct coins is atomic: no sink creator can be spent apart from an announcement |
| Atomicity.SharedPuzzleHashBreaksAtomicity | src/client/verify.rs:1921-1949 | Elsewhere acceptance is not enough: two holders of one asserted hash, one of them silent, give an accepted list that is not atomic |
| Settlement.SettlementBoundCarriesOver | src/client/verify.rs:1891-1917 | With distinct ids the settlement check does not depend on order |
| Settlement.SettlementBoundTogether | src/client/verify.rs:1891-1917 | Two bound bundles are bound together |
| Settlement.ClosedUntied | src/client/verify.rs:1921-1949 | A set closed under the edges that holds no announcement ties none of its coins |
| Value.InputsAreTheCoins | src/client/verify.rs:462-600 | What the ledger counts as spent in an asset is the coins of the bundle in that asset, each once |
| Value.OwnershipSplits | src/client/signer.rs:312-333 | Splitting by key ownership divides the value of every asset without loss |
| Value.ReviewedSplits | src/client/signer.rs:393-514 | The value of the reviewed lines of an asset is that of their recipients plus that of their sinks |
| Signing.SignUnsigned | src/client/signer.rs:537-641 | Signs exactly when the gate opens, the required signatures are those the bytes need as a multiset, and every key is held; the bundle signed is the bundle reviewed |
| Signing.RequirementsAreConditions | src/client/signer.rs:561-612 | A requirement stands for an AGG_SIG_ME of the list, under its key and over its message bound to the coin and network, as often as it occurs, and for nothing else |
| Signing.SignaturesInOrder | src/client/signer.rs:618-641 | One signature for each requirement, in order, over its message and under a key whose public key it names |
| Signing.FindFromExact | src/client/signer.rs:226-248 | A key is found exactly when some index below the gap derives it, and what is found has the public key asked for |
| Signing.CanonicalKeyFound | src/client/signer.rs:226-235 | Under the canonical scheme a key is found exactly when a wallet key below the gap has the public key, and it is the first such |
| Signing.LegacyKeyFound | src/client/signer.rs:236-247 | Under the legacy scheme a key is found exactly when a profile key or its synthetic key below the gap has the public key; the first index counts, and the profile key before the synthetic one |
| Signing.OwnedIsHeld | src/client/signer.rs:250-266 | The hashes owned are the standard puzzles over the wallet keys, or over the synthetic profile keys, below the gap; and the key of every owned hash is found |
| Signing.RequiredSignaturesFrom | src/client/signer.rs:561-612 | The loop over coins extracts the requirement of every coin in order, or fails when one cannot be read |
| Signing.ProduceSignatures | src/client/signer.rs:618-641 | Signatures are produced exactly when every key is held and every message ends in the network's constant |
| Signing.AllRequirementsAreBound | src/client/signer.rs:659-668 | Every requirement extracted from the bytes already ends in the network's constant |
| Signing.SignedIsAnalyzed | src/client/signer.rs:537-554 | What is signed is what was analysed, where no CAT or option layer of the bundle adds a signature: the messages required are, coin by coin, the commitments the ledger admitted it by, followed by coin id and network constant |
| Signing.SignedOnlyIfKept | src/client/signer.rs:537-554 | And only there: over distinct coins the required messages are those commitments only if every layer keeps its signatures |
| ExampleTails.TailAsksForMore | src/client/signer.rs:556-612 | A CAT whose TAIL signs is accepted and asks for a message no arm judged |
| Signing.OneCoinRequires | src/client/verify.rs:2095-2113 | An admitted coin requires no signature, or exactly the one its arm committed to, if and only if its layers keep their signatures; whatever it requires is bound to that coin and the network |
| Builders.BuildSendXch | src/engine/build.rs:187-241 | A send is built exactly when it is positive, covered, addressed and keyed; the bundle pays the address from the selected coins and returns the rest, its summary reads back as the payment, and the conservation check cannot fail |
| Builders.BuildMultiSendXch | src/engine/build_extended.rs:73-143 | A multi-send is built exactly when its legs resolve, are covered under held keys and no two created coins coincide |
| Builders.BuildCombineXch | src/engine/build_extended.rs:215-240 | A combine is built exactly when two or more coins exceed the fee under held keys, and yields one coin worth the rest |
| Builders.BuildSplitXch | src/engine/build_extended.rs:242-287 | What is built splits the largest coin into the asked number of positive, strictly increasing parts; it fails only for want of parts, of a coin, of value or of its key, or by exhibiting two different coins with one id: the conservation check cannot stop it |
| Builders.PayRoundTrip | src/engine/build.rs:187-241 | A bundle a send or a multi-send builds opens the signer's gate with the builder's own summary if and only if every destination lies outside the wallet and is no structural hash; a send to oneself is built and then always refused |
| Builders.ReshapeRoundTrip | src/engine/build_extended.rs:215-287 | Every bundle a combine or a split builds opens the signer's gate with the builder's own summary |
| Builders.LaidOpensGate | src/client/signer.rs:275-303 | Any conserved bundle laid out by the builders with a truthful summary passes the gate exactly when all its payments leave the wallet for free addresses |
| Builders.LayDown | src/engine/build.rs:121-241 | Laying out the spends and extracting the signatures succeeds exactly when every coin's key is held |
| Builders.SelectOrFail | src/engine/build.rs:397-425 | The coins used are the shortest prefix of the usable coins that covers the target, or the request fails |
| Builders.EnsureDistinctCreatedCoins | src/engine/build_extended.rs:452-463 | The set-based loop accepts exactly when all created coin ids differ |
| Builders.TotalOf | src/engine/build_extended.rs:389-400 | The checked total of the legs, or nothing when it overflows |
| Builders.LargestSpendable | src/engine/build_extended.rs:466-480 | A coin no other exceeds, first in selection order |
| Builders.ToMergeWithin | src/engine/selection.rs:129-139 | A combine merges at least two of the wallet's own coins |
| Building.BuiltIsAccepted | src/engine/build.rs:121-156 | A conserved bundle of linked standard spends that pays no structural hash is accepted by the verifier with exactly the lead coin's outputs and fee as its effect |
| Building.BuiltBook | src/client/verify.rs:1582-1632 | Whatever it pays, a built bundle is admitted coin by coin and its book holds its coins, its outputs and its fee |
| Building.SpendContext.LinkSupportingCoins | src/engine/build.rs:135-156 | Every coin after the first is spent with one assertion of the lead coin, or the call fails for want of a key |
| Building.SpendContext.SpendStandard | src/engine/build.rs:121-132 | A spend is appended exactly when the coin's key is held |
| Building.BuiltEntry | src/client/verify.rs:1582-1632 | A built spend is admitted by the standard arm and enters its own coin, its own outputs and its own fee, and nothing else |
| Builders.BuiltReads | src/engine/build.rs:121-156 | Every built bundle spends the selected coins in order under a signature each; the first list makes each payment under a hint of its destination, each coin kept at the change hash and the fee, and every other asserts the first coin beside it and nothing else |
| Builders.PaidReads | src/engine/build.rs:187-241 | A send or multi-send makes one change coin when there is change and none when there is not |
| Selection.SelectForSpend | src/engine/selection.rs:82-123 | Insufficient exactly when the coins fall short, fragmented exactly when the largest few do, else the minimal covering prefix with its total and change |
| Selection.MinimalIsUnique | src/engine/selection.rs:104-123 | The selection is determined: only one prefix reaches the target without its last coin being spare |
| Selection.ShortestIsMinimal | src/engine/selection.rs:104-123 | No shorter prefix reaches the target |
| Selection.TakeUntil | src/engine/selection.rs:104-123 | The loop takes exactly that prefix |
| Selection.CappedWithin | src/engine/selection.rs:82-139 | Capping and sorting never brings in value or coins the wallet does not hold |
| Selection.CapKeepsTheLargest | src/engine/selection.rs:92-104 | No coin the cap leaves out is larger than one it keeps |
| Selection.ConsolidationTakes | src/engine/selection.rs:129-150 | A combine takes as many coins as the cap allows, two at least, in descending amount and ascending id, and leaves out none that precedes one taken; it fails only for want of two coins |
| Selection.HighFirstOrders | src/engine/selection.rs:142-150 | Descending amount with ties by ascending coin id orders all coins |
| Splitting.StaggeredAmounts | src/engine/build_extended.rs:411-428 | Succeeds exactly when the value covers parts plus their triangle; the amounts are positive, each one more than the last except that the largest takes a rest smaller than the number of parts, as many as asked, and sum to the value; nothing overflows |
| Splitting.TriangleHalves | src/engine/build_extended.rs:411-428 | The triangle is parts times one less, halved, with no remainder lost |
| Splitting.PartsNeverOverflow | src/engine/build_extended.rs:411-428 | For fewer than 2^32 parts the product is representable |
| Text.RenderedAmountReadsBack | src/client/review.rs:73-86 | Reading the XCH text of any u64 back as a decimal gives the original mojos: padding and trimming lose nothing |
| Text.RenderedUnitsReadBack | src/client/review.rs:74-76 | A CAT amount is the decimal of its base units, without zeros ahead |
| Text.RenderedXchIsShort | src/client/review.rs:73-86 | A whole XCH amount has no point, any other ends in a digit other than zero, and neither has zeros ahead |
| Text.RenderedAmountsDiffer | src/client/review.rs:73-86 | No two amounts render alike, as XCH or in base units |
| Coins.ReorgIsUndone | src/engine/persist.rs:295-332 | After any run of fresh creations above the fork and spends of unspent coins above it, rolling back restores the table exactly and reports exactly the coins touched |
| Coins.RollbackReads | src/engine/persist.rs:295-332 | A coin confirmed at the fork or below stays and one spent there stays spent; only heights strictly above are undone and reported |
| Coins.UpdateIsUndone | src/engine/persist.rs:263-332 | A rollback forgets one arbitrary update if and only if, seen from the fork, the new row and the old one are the same |
| Coins.PendingCoinIsForgotten | src/engine/persist.rs:295-332 | An unconfirmed coin confirmed above the fork is not brought back but forgotten |
| Coins.RollbacksCompose | src/engine/persist.rs:295-332 | Rolling back to one height and then another leaves the coins of a rollback to the lower |
| Coins.ChangeMeans | src/engine/state.rs:328-341 | Unchanged is answered exactly when the table does not change; spent exactly when the coin was not known to be spent and now is |
| Coins.SqliteWalletStore.ApplyCoinState | src/engine/persist.rs:263-291 | One row of one wallet is written, under its own coin id, and the answer classifies it |
| Coins.SqliteWalletStore.RollbackTo | src/engine/persist.rs:295-332 | The delete and the update together roll back exactly this wallet, report what they touched, and set its peak to the fork; other wallets keep rows and peak |
| Coins.SqliteWalletStore.SetPeak | src/engine/persist.rs:335-340 | The peak becomes the larger of the two and never moves backwards; other wallets keep theirs |
| Coins.SqliteWalletStore.SetPeakAbsolute | src/engine/persist.rs:488-498 | The peak is set exactly; the target and lifecycle of an existing row stay |
| Coins.WalletState.RollbackTo | src/engine/state.rs:176-207 | The in-memory store leaves the same rows and peak and reports the same coins, each once, as the SQLite one, and no hint leads to a forgotten coin |
| Hints.HintIndex.Index | src/engine/hints.rs:53-63 | The coin's hint set grows by the hints given, and both directions stay mirrors with no empty bucket |
| Hints.HintIndex.Forget | src/engine/hints.rs:118-130 | The coin leaves both directions and a bucket it empties is dropped |
| Hints.HintIndex.CoinsByAllHints | src/engine/hints.rs:78-93 | The intersection over all hints, and nothing for no hints |
| Hints.HintIndex.CoinsByAnyHint | src/engine/hints.rs:96-104 | The union over all hints |
| Hints.HintIndex.CoinsByHint | src/engine/hints.rs:66-71 | The coins whose hint set holds the hint |
| Hints.HintIndex.HintsFor | src/engine/hints.rs:107-112 | The hints whose buckets hold the coin |
| Hints.IndexThenForget | src/engine/hints.rs:53-130 | Indexing a coin not yet present and forgetting it restores both maps exactly |
| Hints.BucketsAreDetermined | src/engine/hints.rs:36-41 | The coins' hint sets determine the buckets |
| Events.CatchUpsAgree | src/engine/events.rs:177-189 | On one run of publishes the durable answer is what the ring has dropped followed by the ring's answer, so the two are equal for every filter once the cursor asked from reaches the window |
| Events.RingFallsShort | src/engine/events.rs:177-189 | Asked from before the window, the ring answers less than the durable log |
| Events.RingHoldsTheLatest | src/engine/events.rs:82-130 | The ring holds the latest events under consecutive cursors and no more than its capacity, except that capacity zero never evicts |
| Events.AppendsSucceed | src/engine/persist.rs:686-697 | Every append of a run succeeds exactly when the run is no longer than i64::MAX |
| Events.LogAnswersInFull | src/engine/persist.rs:713-739 | The durable log answers with every published event after the cursor that passes the filter, in order |
| Events.EventSink.Publish | src/engine/events.rs:108-116 | The event is stamped with the next cursor and enters ring and durable log; both stay functions of what was published |
| Events.EventSink.Record | src/engine/events.rs:125-133 | At capacity the oldest event leaves; the durable write may fail without stopping the emission |
| Events.EventSink.CatchUpLog | src/engine/events.rs:139-143 | The catch-up source shares the sink's ring |
| Events.DeltaLog.CatchUp | src/engine/events.rs:177-189 | The loop answers with the retained events after the cursor that pass the filter, in order |
| Events.SqliteDeltaLog.Append | src/engine/persist.rs:686-697 | A cursor already stored is left alone, and one past i64::MAX is refused |
| Events.SqliteDeltaLog.CatchUp | src/engine/persist.rs:713-739 | Answers exactly the stored events after the cursor that pass the filter, in cursor order; refuses a cursor past i64::MAX |

## Where code and comments part

- `analyze` refuses a melt in an option bundle by looking at the melted mojos, so a melt of a
  zero-amount coin passes; `MeltMeetsOption` follows the code, `OptionMeltsAreEmpty` says what is left and
  `EmptyMeltPasses` shows such a bundle.
- The comment above `enforce_bundle_nft_mint_binding` says the launcher output a bundle creates and the
  launcher it spends are one coin. That holds given that the spent parent did make the launcher, as the
  chain demands (`LauncherIsCreated`). The code does not check it: it asks for one such output in the
  whole bundle and compares no id, and `LaunchersShareASink` is accepted with two launchers on one output.
- The comment above `tied_to_announcement` says that following the concurrency edges proves a coin cannot
  reach the chain without the announcement. The search follows any holder of an asserted puzzle hash, and
  any other holder meets the assertion too; `AtomicExactlyWhenForced` gives the exact condition and
  `SharedPuzzleHashBreaksAtomicity` an accepted case outside it.
- The signer signs what the whole puzzle asks for, while the CAT arm judges the inner puzzle: a TAIL can
  add a signature no arm judged. `OneCoinRequires` is exact about it and `TailAsksForMore` shows a case.
- A send to the wallet's own address is built, and the signer then always refuses it, because its reviewed
  line has no output that leaves; `PayRoundTrip` is exact about this.
- `EventSink` with a history capacity of zero never evicts, although the ring is described as bounded;
  `RingHoldsTheLatest` says so.
- The durable log cannot hold or be asked about cursors past `i64::MAX`, where the in-memory log still
  answers; the agreement holds below that bound, and `AppendsSucceed` and the contract of
  `SqliteDeltaLog.CatchUp` give the bound exactly.
- A rollback of a coin that was known unconfirmed and then confirmed above the fork deletes it instead
  of making it unconfirmed again; `UpdateIsUndone` says exactly which updates a rollback undoes.

## Left out

- CLVM execution, the chia-wallet-sdk parsers, BLS, HD key derivation, bech32m and the hash functions are parameters with stated laws.
- Lower-casing is the parameter `lowercase` with the laws the comparison needs; Unicode is not modelled.
- Which refusal fires first, and error texts: an operation answers or fails.
- What a hidden puzzle evaluates to: `StandardLaw` says only that a solution taking that path fails or emits what its puzzle evaluates to, unsigned by the layer.
- secp signatures, which both builder and signer refuse.
- Signatures are the list the signer would aggregate; BLS aggregation is not modelled.
- Sorting is insertion sort over any total order, in place of the standard library's sort and the derived orders.
- CAT builders, offers, options, tips, DID and NFT builders: compositions of external drivers.
- Transport, broadcasting, subscriptions, locks and concurrent publishers.
- SQL text, migrations and JSON: tables are maps and encoding is lossless.
- Query results that the code returns in key order are sets here (`Hints`, the rows of `Coins`), except event catch-up, whose order is proved.
- Balances, CAT, NFT, DID and transaction tables of the stores: single-row upserts.
- A sink created again over an old durable log, and the broadcast channel of `EventSink`.
- AnalysisIgnoresOrder: for bundles that repeat a signed coin id nothing is claimed, since there the order does matter.
- LauncherIsCreated: a parent spent through the CAT or the option arm is left out, since its outer conditions are the layer's and are not read by the verifier.
- RingAtomicExactly: speaks of the signed coins, which are those the verifier binds; a coin spent without a signature is taken as free to come along.
- SignedIsAnalyzed: holds for bundles whose CAT and option layers keep their signatures; a CAT that runs its TAIL may not.
- SameSignatureSameEntry: takes as hypotheses that layers are recognised by the puzzle alone, that NFT layers pass on the signatures of an inner list the transfer arm permits, and that they create what the inner list decides. A revocable CAT, which reveals its inner puzzle in the solution, is included.
- SignaturePinsConditions: speaks of replays that spend by their delegated puzzle, as SignaturePinsReplay does; on the hidden path the layer emits no signature for a message to pin.
- PayRoundTrip: takes the driver laws of `Kit.Lawful` as hypotheses; the drivers themselves are not part of this model.
