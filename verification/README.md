# WhisperDesk: a verified model of the sealed desk

WhisperDesk is a sealed-bid desk. Takers submit RFQs and makers submit quotes, encrypted, to an
enclave. The enclave keeps them in a book, picks one winner per RFQ by price and then by arrival,
and signs a match instruction. Two Solidity contracts settle it: an escrow locks the taker's FXRP and
a maker bond against the signed instruction, releases against a proof of the maker's XRPL payment, or
refunds and slashes the bond. A web desk around it rations its own spending.

The project states what each of these parts promises and proves it over every input and every run.
`dafny verify dfyconfig.toml` checks all of it.

## Layout

| files | what they hold |
|---|---|
| `Results`, `Bytes`, `Text`, `Sums` | options, big-endian words, decimal and hex printing with their parsers, sums over mappings |
| `Abi`, `Signing`, `QuoteAuth` | the ABI encoding and its decoder, the match signature, the makers' EIP-712 signature |
| `Matching`, `Book`, `ChainCache`, `MatchEngine`, `Handler` | the enclave, method by method |
| `Intake` | what the book holds after a run, told from its commands |
| `Protocol`, `Alone`, `History`, `Determinism`, `Provenance`, `LateMakers`, `Lives`, `Lifetimes`, `Replays`, `Guards`, `Anomalies` | any number of match calls interleaved with submissions and sweeps |
| `NoTrace`, `Traces` | what an outcome reveals of the losers |
| `Ledger`, `Conservation` | the bond ledger, under an arbitrary escrow |
| `Escrow`, `Settlement`, `Custody`, `Payments`, `Accounts`, `EndToEnd` | the escrow joined with the ledger, what its matches were earned with, every account, and the enclave joined with both |
| `RateLimit`, `GasDrip`, `Bands` | the web desk: limiter, gas drip, price arithmetic |

Objects that the source updates in place (the book, the chain cache, the handler, the bond ledger and
its token, the limiter, the claim book) are classes. Each of their methods is proved equal to a
function of the old state, and the properties of whole runs are proved about those functions. Keccak,
signing and public-key recovery are function parameters about which nothing is assumed, except where a
lemma says what a genuine key does. The order in which a Go map is ranged over is arbitrary.

## Where the code does not keep what its comments say

- `web/src/lib/demo/wallet-mode.ts:89` says drips stop before they touch the owner's reserve. The check
  subtracts the drip but not the fee of sending it, and the check and the send are separate awaits. One
  request breaks the reserve by its fee (`GasDrip.OneFeeBreaksTheReserve`), two by a drip
  (`GasDrip.TwoRequestsBreakTheReserve`). The reserve holds exactly when no request, or only one and
  that without a fee, is past the check at a time (`GasDrip.ReserveHoldsExactly`); the bound that always
  holds is reached (`GasDrip.ReserveErodesAtMost`, `GasDrip.FloorIsReached`).
- `extension/matcher/match.go:217-220` calls a match idempotent. Two overlapping calls both miss the
  cache and sign different prices (`Anomalies.OverlapSignsTwoMatches`), also when a sweep between their
  commits leaves the second nothing to find (`Anomalies.SweepHidesTheSecondMatch`). All along a run the
  answers given or held about one life of an RFQ are one outcome exactly when every commit, whether its
  RFQ is there, gone or added again, finds that no call was told another outcome about the life it
  decided for or the one it lands on (`Guards.ReplaysAgreeExactly`). The book forgets what it told about
  a swept RFQ, so a commit cannot check that; but it is enough that the RFQ is still the one decided for
  and holds nothing else (`Guards.OwnSuffices`), for which comparing terms will do while no RFQ is
  added with the very terms of one still being decided (`Guards.TermsSuffice`).
- An id that is swept and added again while a match on it is in flight ends up with the old taker's
  match (`Anomalies.ReaddMisfilesTheMatch`). Held matches suit their RFQ all along a run exactly when
  every commit finds the same taker, amount and XRPL address and a limit its price meets
  (`Guards.MatchesNameTheirRfqExactly`).
- `README.md:49` says a losing quote is recorded nowhere, not even that it existed. That holds exactly
  for losers that passed every filter (`NoTrace.LoserLeavesNoTraceExactly`): a match counts the others
  under a reason. `Traces.FilteredLoserShows` is a run of two makers on which it does.
- `extension/fcewire/snapshot.go:165-168` gives a maker the call did not list no bond, which keeps a maker
  who arrives after the call began from winning. Below 100 raw units no bond is required and it does not:
  such a maker can win exactly the blocks below 100 that the policy admits
  (`LateMakers.LateMakersWinExactly`). The deployed minimum is far above that.
- The staleness bound on the price is the constant of `extension/matcher/match.go:24`; the setting
  `WD_PRICE_STALE_MAX_SEC` named in its comment plays no part in the match (`ChainCache.StalenessSettingIsIdle`). The model has the
  constant.
- `extension/matcher/instruction.go:25` calls the tag left-padded; the code pads it on the right, as
  Solidity does. The model follows the code.

## Model

| member | source | states |
|---|---|---|
| Text.ParsePrintInt | extension/matcher/match.go:184-185 | a decimal string printed from any integer parses back to that integer |
| Text.ParseIntExactly | extension/fcewire/handler.go:250-256 | a string is read as a number if and only if it writes that number in decimal, a sign and leading zeros allowed |
| Text.HashRoundTrip | extension/matcher/match.go:180 | a printed 32-byte id parses back to the same id |
| Text.AddressRoundTrip | extension/matcher/match.go:181-183 | an address survives its mixed-case checksum form, whatever the digest that sets the casing |
| Text.HexRoundTrip | extension/matcher/match.go:248-249 | the hex strings of an outcome decode to the signed bytes and the signature |
| Abi.SoleDynamicArgument | extension/matcher/instruction.go:47-60 | for any dynamic value, encoding it as the one argument puts the word 0x20 in front and adds 32 bytes |
| Abi.TupleIsOffsetThenFlat | extension/matcher/instruction.go:64-91 | the tuple encoding is 0x20 followed by the flat eight-argument encoding, 32 bytes longer for every XRPL string |
| Abi.Layout | extension/matcher/instruction.go:97-111 | the byte layout: ten words, then the address bytes padded to a whole word |
| Abi.EncodedAt | extension/matcher/instruction.go:97-111 | each field at its own byte offset of the signed bytes, the offsets 0x20 and 0x100 included |
| Abi.DecodeInstruction | contracts/src/libraries/MatchInstructionLib.sol:46-48 | whatever bytes it accepts, the decoded fields fit their ABI types |
| Abi.RoundTrip | contracts/src/libraries/MatchInstructionLib.sol:46-48 | the decoder lock() uses gives back the encoded instruction if and only if every field fits its type |
| Abi.DecodesExactly | contracts/src/libraries/MatchInstructionLib.sol:46-48 | any bytes decode to an instruction if and only if they hold it, field by field, where their first word says, with clean address words, 64-bit offsets and length, and nothing beyond the end |
| Abi.EncodingIsInjective | extension/matcher/instruction.go:97-111 | different instructions in range have different encodings |
| Signing.ShiftsUndo | extension/matcher/instruction.go:288-294 | raising and lowering V undo each other if and only if the signer's own V was below 27 |
| Signing.SignWithFunc | extension/matcher/instruction.go:228-266 | the signed match for the port's reply to the hand-built message, and which error each bad reply gives |
| Signing.MessageIsAbiEncoding | extension/matcher/instruction.go:275-284 | the message appended by hand is the 96-byte ABI encoding of tag, chain id and data hash |
| Signing.MessageAt | extension/matcher/instruction.go:275-284 | the 96 bytes are the tag, the chain id and the data hash, in that order |
| Signing.TagAndPrefix | extension/matcher/instruction.go:24-28 | the tag and the personal-sign prefix, byte for byte |
| Signing.SharedMatchDigestIsACollision | extension/matcher/instruction.go:268-284 | two matches, or one on two chains, share a digest if and only if they share data hash and chain or keccak collides on their two messages or on what personal-sign hashes |
| Signing.PathsAgree | extension/matcher/instruction.go:161-266 | signing through a port that hashes its input gives the same result as signing with the key |
| Signing.ClientAcceptsExactlyTheSigner | scripts/enclave-loop/internal/matchsig/matchsig.go:85-99 | the client's check accepts a signed match for the signer it names and for no other address |
| Signing.GenuineKeySigns | extension/matcher/instruction.go:161-203 | with recovery inverting the key, signing succeeds, V is 27 or 28, and the client accepts the key's owner |
| QuoteAuth.PreimageIsStandardExactly | extension/fcewire/quoteauth.go:36-45 | the hand-built buffer is EIP-712's encodeData if and only if the price is below 2^256 |
| QuoteAuth.PreimageIsInjective | extension/fcewire/quoteauth.go:36-45 | distinct quotes have distinct pre-images, prices wider than 32 bytes included |
| QuoteAuth.PreimageAt | extension/fcewire/quoteauth.go:36-45 | type hash, RFQ id, maker, price, size and nonce at their own offsets of the 192 bytes |
| QuoteAuth.DomainIsStandard | extension/fcewire/quoteauth.go:26-34 | the domain pre-image is the ABI encoding of type, name and version hashes, chain id and escrow, as EIP-712 asks |
| QuoteAuth.DomainIsInjective | extension/fcewire/quoteauth.go:26-34 | different chains or escrows have different domain pre-images |
| QuoteAuth.VerifyQuoteSignature | extension/fcewire/quoteauth.go:68-91 | a signature is accepted if and only if it has 65 bytes and recovers to the maker over the quote's digest |
| QuoteAuth.SharedDigestIsACollision | extension/fcewire/quoteauth.go:26-60 | two quotes that differ, or are for different chains or escrows, share a digest, and so a signature, if and only if keccak collides on their two digest pre-images or agrees on both their struct and their domain pre-images, which are not both equal |
| Matching.MatchCore | extension/matcher/match.go:64-155 | an error if and only if the price is missing, not positive or over 60 s old; NO_MATCH only if the taker lacks funds or every quote breaks one of the six conditions; a match prints the instruction of a quote that meets all six and that none such outranks; and the two loops equal the declarative decision |
| Matching.EligibleExactly | extension/matcher/match.go:83-118 | a quote passes the filters if and only if it is not the taker's own, 0 <= age < lifetime, of full size, in band, at the limit or better and bonded, in the fields of quote, RFQ and snapshot |
| Matching.SecondsAreExact | extension/matcher/match.go:94 | a lifetime in seconds is that many nanoseconds up to some 292 years |
| Matching.ReasonIsFirstBroken | extension/matcher/match.go:83-118 | a quote is counted under a reason if and only if that is the first of the six conditions, in the source's order, that it breaks |
| Matching.DecisionMeans | extension/matcher/match.go:64-138 | each outcome in those fields, and for each reason as many counts as quotes that break its condition first |
| Matching.SurvivorsAre | extension/matcher/match.go:83-120 | the survivors are the eligible quotes, and every other quote is counted under exactly one reason |
| Matching.BestOutranksTheRest | extension/matcher/match.go:126-138 | the winner loop returns a quote that no eligible quote outranks |
| Matching.WinnerIsPriceTimeBest | extension/matcher/match.go:126-138 | a quote is chosen if and only if it is eligible and outranks every other eligible quote by price, then Seq |
| Matching.TallyIsPermutable | extension/matcher/match.go:83-120 | the reason counts do not depend on the order of the quotes |
| Matching.OrderIsIrrelevant | extension/matcher/match.go:83-138 | two orders of the same quotes give the same decision |
| Matching.CompetitionNeverHurts | extension/matcher/match.go:126-138 | an added eligible quote never turns a match away nor lowers its price |
| Matching.WireRoundTrip | extension/matcher/match.go:178-189 | the instruction rebuilt from the printed strings is the one that was printed |
| Book.SealedBook.AddRFQ | extension/matcher/book.go:100-133 | the new book and the result, all four refusals included, with the book unchanged on refusal |
| Book.SealedBook.UpsertQuote | extension/matcher/book.go:139-165 | the new book and whether a quote was replaced; an unknown RFQ or an old nonce changes nothing, not even the counter |
| Book.SealedBook.SnapshotForMatch | extension/matcher/book.go:170-186 | the RFQ and each of its quotes once, in some order; fails exactly on an unknown id |
| Book.SealedBook.MarkMatched | extension/matcher/book.go:190-197 | the outcome is cached on a known RFQ and nothing else changes |
| Book.SealedBook.Participants | extension/matcher/book.go:204-218 | the taker and each quoting maker once, in some order; fails exactly on an unknown id |
| Book.SealedBook.CachedOutcome | extension/matcher/book.go:221-229 | the outcome cached on the RFQ, if any |
| Book.SealedBook.GC | extension/matcher/book.go:233-242 | exactly the expired RFQs go, with their quotes |
| Book.UpsertKeepsOrder | extension/matcher/book.go:154-163 | an accepted quote keeps all Seqs distinct and within the counter if and only if the counter does not wrap or no other quote rests |
| Book.RunIsWellFiled | extension/matcher/book.go:61-67 | in every run both maps have the same ids, and every RFQ and quote is filed under its own id and maker |
| Book.RunIsOrdered | extension/matcher/book.go:154-163 | in every run of fewer than 2^64 commands all resting quotes have distinct Seqs, none beyond the counter |
| Book.OrdersPermute | extension/matcher/book.go:178-182 | any two map orders hand out the same quotes, each once |
| Book.ReachableBooksDecideAlike | extension/matcher/match.go:83-138 | the decision on a reachable book is the same in every map order |
| Intake.RfqLivesExactly | extension/matcher/book.go:100-133 | after every run an RFQ is held if and only if an admissible submission brought it in and no sweep since was later than that submission's time plus its own lifetime; its terms are that submission's |
| Intake.HighestNonceRests | extension/matcher/book.go:139-165 | after every run a maker's quote rests on a held RFQ if and only if he sent one since it was added, and it is the first of those with the highest nonce |
| Intake.LastOutcomeIsHeld | extension/matcher/book.go:190-197 | a held RFQ has the outcome last cached on it since it was added, none if there was none |
| ChainCache.ChainCache.Refresh | extension/fcewire/snapshot.go:107-158 | the cache after a poll; a failed call leaves what was known about that price, maker or taker; a cache filled by its logged polls stays so |
| ChainCache.ChainCache.RefreshBonds | extension/fcewire/snapshot.go:133-142 | every tracked maker whose read succeeded is updated, in any order, and no one else |
| ChainCache.ChainCache.RefreshFunds | extension/fcewire/snapshot.go:144-157 | every tracked taker whose read succeeded is updated, in any order, and no one else |
| ChainCache.ChainCache.Snapshot | extension/fcewire/snapshot.go:161-183 | exactly the asked makers, an unknown one at zero; the price age, forced when nothing was fetched; `ChainCache.SnapshotTells` says what these numbers are |
| ChainCache.SnapshotTells | extension/fcewire/snapshot.go:107-183 | over any polls: the price is the one last answered and counts as old if and only if it was fetched over 60 s before now; a maker's bond is the uint64 nearest the one last answered for him, a taker's funds what was armed and not committed when last answered, zero if the arming had lapsed by that poll's clock; none or zero if never answered |
| ChainCache.StaleExactly | extension/matcher/match.go:76-81 | over any polls the match fails as stale if and only if no positive price was the last answer or it was fetched over 60 s before now |
| ChainCache.UnfetchedPriceFailsClosed | extension/fcewire/snapshot.go:170-175 | before a first price every match fails as stale, however the bound is configured |
| ChainCache.StalenessSettingIsIdle | extension/fcewire/snapshot.go:170-175 | on a cache filled by any polls, two values of the configured bound give the same decision |
| ChainCache.ClampKeepsTheBondTest | extension/fcewire/chainreads.go:154-162 | the saturated bond passes a uint64 notional's requirement if and only if the true one does |
| ChainCache.AvailabilityIsConservative | extension/fcewire/snapshot.go:150-153 | cached availability never exceeds the escrow's, and equals it while armed fits 64 bits |
| MatchEngine.MatchWithSigner | extension/matcher/match.go:221-254 | a cached outcome is returned as it is; without one the answer is the open-window error if and only if now is before the window's end; an error leaves the book unchanged; any other answer is the one for some map order and is cached |
| MatchEngine.FinishedCarriesDecision | extension/matcher/match.go:236-250 | what is signed, encoded and printed is the very instruction of the chosen quote, with a signature the client accepts |
| MatchEngine.SignedBytesNameTheBestQuote | extension/matcher/match.go:126-150 | the returned hex decodes to the payment, field by field, of a quote that meets all six conditions and that none such outranks, if and only if its price fits uint256 |
| MatchEngine.GenuinePortAnswers | extension/matcher/match.go:221-254 | with a genuine key behind the port a match succeeds if and only if the window is closed and the price known and fresh |
| Handler.DepadUndoesPad | extension/fcewire/handler.go:345-350 | padding comes off whole if and only if the message is empty or does not end in a space |
| Handler.DecodesExactly | extension/fcewire/handler.go:240-260 | a quote message decodes to a quote and signature if and only if it says version 1 and each of its strings writes or spells that field, price positive, size and nonce uint64, signature 65 bytes |
| Handler.HexAddressExactly | extension/fcewire/handler.go:243-248 | an address string is taken for an address if and only if its 40 digits, prefixed or not, spell it |
| Handler.DecodeHexExactly | extension/fcewire/handler.go:352-359 | a signature string decodes to the bytes it spells and fails if it spells none |
| Handler.SpelledId | extension/fcewire/handler.go:243-247 | an RFQ id string is the last 32 bytes its digits spell up to the first stray pair, zeros in front of fewer, with or without a prefix |
| Handler.RfqRefusals | extension/fcewire/handler.go:130-177 | which error an RFQ message gets: wrong side, another's address, below the minimum block, anything else malformed; the book is unchanged |
| Handler.QuoteRefusals | extension/fcewire/handler.go:240-279 | which error a quote message gets: undecodable, not signed by its maker, unknown RFQ, old nonce; the book is unchanged |
| Handler.PrintedQuoteDecodes | extension/fcewire/handler.go:223-261 | every quote with a positive price and a 65-byte signature, printed, decodes to itself |
| Handler.PrintedRfqIsSound | extension/fcewire/handler.go:112-160 | the RFQ message a taker prints and sends himself is well-formed and says his amount and limit |
| Handler.Handler.RfqSubmit | extension/fcewire/handler.go:112-177 | accepted if and only if the message says version 1, sells FXRP, is its sender's own, has an address and numbers, and is new, large enough and at a positive limit; the RFQ then holds exactly the message's fields and times; the whole new book and each error code; only then is the taker tracked |
| Handler.Handler.QuoteSubmit | extension/fcewire/handler.go:223-279 | the whole new book and the answer with its error code; accepted if and only if the message carries its maker's signature over its own fields and is fresh; every resting quote stays backed by a message taken |
| Handler.SubmitKeepsAuthentic | extension/fcewire/handler.go:262-269 | a message taken keeps every resting quote backed by a logged message whose own signature is its maker's over exactly the quote's fields |
| Handler.OthersKeepAuthentic | extension/fcewire/handler.go:166-169 | no other book command lets a quote in that no logged message backs |
| Handler.Handler.Match | extension/fcewire/handler.go:318-338 | run alone, the open-window error if and only if the window is open and nothing cached; every failure leaves the book unchanged; otherwise the answer for the cache's view of exactly the resting makers |
| Handler.CallMeans | extension/fcewire/handler.go:318-338 | a cached outcome is the answer and nothing changes; without one the open-window error comes exactly before the window's end and the stale-price error exactly after it without a fresh positive price; a fresh outcome is cached; every error leaves the book as it was |
| Handler.MatchIsOneCall | extension/fcewire/handler.go:318-338 | book and answer of the method run alone are those of one call of the interleaving machine with nothing between its steps, so every theorem about runs speaks of the method |
| Protocol.NextInv | extension/fcewire/handler.go:318-338 | every step of every interleaving keeps each call's evidence sound and each cached outcome proven |
| Protocol.ExecInv | extension/matcher/match.go:221-254 | that invariant holds after every run |
| Protocol.EveryOutcomeIsProven | extension/matcher/match.go:221-254 | every outcome cached or returned in any run is the signed decision of a snapshot some call took of that RFQ, window closed |
| Protocol.MatchPaysAWinner | extension/matcher/match.go:93-118 | the signed instruction pays, field by field, a quote that meets all six conditions in its own snapshot and that none such outranks, not received after the call's clock, from a listed maker once the block reaches 100 units |
| Protocol.OnlyCommitWrites | extension/matcher/match.go:224-253 | a call writes the book only by its commit, and only the outcome it returns |
| Alone.LoneCall | extension/matcher/match.go:221-254 | from any book a call whose steps nothing interrupts ends with the answer for the order it took the quotes in, and leaves that answer cached or the book as it was |
| History.BookIsARun | extension/matcher/book.go:61-67 | under any interleaving of calls the book is that of a run of commands, so what holds of those holds here |
| History.BookIsOrdered | extension/matcher/book.go:154-163 | in every interleaving of fewer than 2^64 steps all resting quotes have distinct Seqs, none beyond the counter |
| History.EveryMatchWasEarned | extension/matcher/match.go:221-254 | over every interleaving, each match held or returned goes back to a call with its Begin, ReadChain and TakeBook in that run, each of which took effect: window closed, price positive and at most 60 s old, taker funded; it pays a quote in the book at the TakeBook of at least the signed amount, within its lifetime, not the taker's, in band, at the limit or better and bonded by what the cache showed at the ReadChain, outranked by none such, its reasons counted by the first condition broken; from 100 units on its maker quoted at the Begin |
| History.EveryRefusalWasDue | extension/matcher/match.go:83-154 | over every interleaving, each NO_MATCH held or returned goes back to such a call at which the taker lacked the funds or every quote broke one of the six conditions, each counted under the first it broke |
| History.BestIsUnique | extension/matcher/match.go:126-138 | short of 2^64 steps that quote strictly outranks every other eligible one, so no other could have earned the match |
| Determinism.RunsIgnoreMapOrder | extension/matcher/book.go:178-182 | two interleavings that differ only in map orders end with the same book, the same answers and the same calls |
| LateMakers.SmallBlocksAdmitLateMakers | extension/fcewire/snapshot.go:165-168 | for every admitted amount below 100, a run in which a maker who came after the call began wins |
| LateMakers.LateWinsAreSmall | extension/fcewire/handler.go:318-328 | on no desk and in no run does such a maker win 100 units or more |
| LateMakers.LateMakersWinExactly | extension/matcher/match.go:113-118 | such a maker can win an amount if and only if the policy admits it and it is below 100 |
| Provenance.StepsAreTheHandlers | extension/fcewire/handler.go:112-279 | the step a message leads to changes the book as its handler does; a message turned down leads to none |
| Provenance.EverythingWasSent | extension/fcewire/handler.go:262-269 | in every stream of messages each resting quote goes back to a message that came before, carrying its maker's signature over it, and each RFQ to an earlier envelope from its taker |
| Provenance.EveryMatchIsMakerSigned | extension/fcewire/handler.go:262-338 | over every stream of messages and interleaving of calls, each match was earned by a quote that a message of this run, signed by its maker, offered before the snapshot, on terms its taker's own envelope asked for |
| Lifetimes.OutcomesNameTheirRfq | extension/matcher/book.go:190-197 | if no id is added again while a match on it is in flight, every held or returned match names its RFQ's id, taker, amount and XRPL address and meets its limit |
| Lifetimes.NamesItsOwn | extension/matcher/match.go:104-112 | a proven match names the RFQ it was decided for and meets its limit |
| Lifetimes.NamesExactly | extension/matcher/match.go:140-149 | it names another one if and only if the four fields agree and its price meets the other's limit |
| Lives.ExecQuiet | extension/matcher/match.go:224-253 | in every run nothing has been told about the present life of an RFQ that holds no outcome |
| Replays.ReplaysAgree | extension/matcher/match.go:224-226 | when calls on an RFQ do not overlap, all that was ever returned about one life of it, NO_MATCH included, is one outcome, whether or not it is still there; and if it is, it holds it |
| Replays.LaterCallsReplay | extension/matcher/match.go:221-254 | once an outcome is held and calls have not overlapped, every call not yet over and every later one ends with it, or with the RFQ unknown and gone, until the id is added again |
| Guards.ReplaysAgreeExactly | extension/matcher/match.go:224-253 | all along a run, all that was returned or is held about one life of an RFQ agrees if and only if every commit, on an RFQ that is there, gone or added again, finds no call told otherwise about the life it decided for or lands on |
| Guards.OwnSuffices | extension/matcher/book.go:190-197 | it is enough that every commit finds the RFQ it decided for still there, holding nothing or this very outcome |
| Guards.TermsSuffice | extension/matcher/book.go:190-197 | comparing terms is enough for that while no RFQ is added with the very terms a call in flight decides for |
| Guards.MatchesNameTheirRfqExactly | extension/matcher/book.go:190-197 | all along a run held matches name their RFQ and meet its limit if and only if every commit finds the RFQ gone, or with the same taker, amount and XRPL address and a limit its price meets |
| Anomalies.OverlapSignsTwoMatches | extension/matcher/match.go:224-253 | a run in which two calls return signed matches of one RFQ at different prices |
| Anomalies.SweepHidesTheSecondMatch | extension/matcher/match.go:252-253 | the same with a sweep before the second commit, which finds no RFQ and still returns its match |
| Anomalies.ReaddMisfilesTheMatch | extension/matcher/book.go:233-242 | a run in which a re-added RFQ carries the signed match of its predecessor |
| NoTrace.RunsStaySimilar | extension/matcher/book.go:154-163 | taking out one maker's submissions leaves the others' quotes and their relative order as they were |
| NoTrace.ListingOneFewer | extension/fcewire/snapshot.go:161-168 | two readings of one cache, for participants with and without a maker, differ in nothing but that maker's bond |
| NoTrace.LoserLeavesNoTrace | extension/matcher/match.go:75-154 | runs that differ only in a quiet loser's submissions give the same outcome, reason counts included, each judged on a snapshot that may list him or not |
| NoTrace.LoserLeavesNoTraceExactly | README.md:49 | a losing maker leaves no trace if and only if its quote passed every filter |
| NoTrace.LosersAreInterchangeable | extension/matcher/match.go:75-154 | whatever a maker submits, as long as it loses quietly, the outcome is the same |
| Traces.FilteredLeavesTrace | extension/matcher/match.go:83-120 | on every run where someone is eligible, a filtered maker loses and the outcome shows it |
| Traces.FilteredLoserShows | README.md:49 | a run of two makers whose match differs by the reason count of the one that lost |
| Ledger.TransferMoves | contracts/src/BondLedger.sol:118-124 | a transfer moves the amount, keeps the total and touches no other account |
| Ledger.BondLedger.Deposit | contracts/src/BondLedger.sol:58-62 | the whole new state, or the revert with nothing changed |
| Ledger.BondLedger.Withdraw | contracts/src/BondLedger.sol:65-73 | the whole new state, or the revert with nothing changed |
| Ledger.BondLedger.Lock | contracts/src/BondLedger.sol:78-87 | the whole new state, an active record overwritten included, or the revert with nothing changed |
| Ledger.BondLedger.Release | contracts/src/BondLedger.sol:90-96 | the whole new state, or the revert with nothing changed |
| Ledger.BondLedger.Slash | contracts/src/BondLedger.sol:100-108 | the whole new state, or the revert with nothing changed |
| Ledger.BondLedger.BindEscrow | contracts/src/BondLedger.sol:112-116 | the escrow is bound once, by the owner, to a non-zero address |
| Conservation.StepConserves | contracts/src/BondLedger.sol:58-108 | every operation moves the ledger's surplus and each maker's stake by exactly what it names |
| Conservation.BalanceIsOwedPlusStranded | contracts/src/BondLedger.sol:58-108 | in every run the balance is free plus active bonds plus donations, bonds locked over and slashes to itself |
| Conservation.SolventAndExactly | contracts/src/BondLedger.sol:78-108 | the ledger is always solvent, and exactly balanced if and only if none of these three ever happened |
| Conservation.StakeIsNetFlow | contracts/src/BondLedger.sol:58-108 | a maker's free and active bonds are deposits less withdrawals, slashes and bonds locked over |
| Conservation.EachLockEndsAtMostOnce | contracts/src/BondLedger.sol:78-108 | every lock of an id was released, slashed or locked over, or is still active, and never two of these |
| Conservation.EscrowIsTheFirstNamed | contracts/src/BondLedger.sol:112-116 | over every run the escrow is the first non-zero address its owner named, whatever is called later, and the zero address until then |
| Conservation.OnlyTheEscrowTouchesBonds | contracts/src/BondLedger.sol:65-108 | no call but the escrow's changes a locked bond, and a maker's free bond falls only by his own withdrawal or the escrow's lock on him |
| Conservation.BondCallsExactly | contracts/src/BondLedger.sol:78-108 | locking, releasing and slashing succeed if and only if the escrow calls and the free bond, the active bond and the balance allow it |
| Settlement.DepositKeeps | contracts/src/DvPEscrow.sol:251-261 | a deposit keeps backing, committed sums and pairing, and both contracts' surplus |
| Settlement.WithdrawKeeps | contracts/src/DvPEscrow.sol:269-277 | a withdrawal keeps the same, and never touches committed funds |
| Settlement.LockMeetsNoActiveBond | contracts/src/DvPEscrow.sol:315 | this escrow never locks an id whose bond is active: the discipline the ledger does not check itself |
| Settlement.LockKeeps | contracts/src/DvPEscrow.sol:287-396 | a lock commits the taker's amount and pairs it with the maker's bond, at no change of surplus |
| Settlement.ReleaseKeeps | contracts/src/DvPEscrow.sol:399-446 | a release keeps the invariant and pays out exactly what leaves the books |
| Settlement.RefundKeeps | contracts/src/DvPEscrow.sol:455-470 | a refund keeps the invariant, principal and slashed bond included |
| Custody.EveryTokenIsAccountedFor | contracts/test/Invariants.t.sol:264-306 | in every run committed is the sum of open matches and within armed, matches and bonds pair up, and each balance is what is owed plus exactly what was given |
| Custody.RefundNeverSticks | contracts/src/DvPEscrow.sol:455-470 | after the grace an open match can always be refunded |
| Custody.ReleaseNeverSticks | contracts/src/DvPEscrow.sol:399-446 | a faultless proof always releases an open match |
| Custody.WithdrawalsNeverStick | contracts/src/DvPEscrow.sol:269-277 | a withdrawal succeeds if and only if the arming has lapsed and it is within the uncommitted amount; likewise for free bonds |
| Custody.StagesAreFinal | contracts/src/DvPEscrow.sol:399-470 | along every run a match keeps its terms, and once released or refunded stays so |
| Custody.StageNeeds | contracts/src/DvPEscrow.sol:401-458 | an open match ends only by a proof without any of the faults release checks, or after the refund grace; `Payments` says what these are |
| Custody.PaymentReleasesOnce | contracts/src/DvPEscrow.sol:407-431 | over every run one XRPL payment releases at most one match |
| Custody.TagsAreDistinct | contracts/src/DvPEscrow.sol:358 | over every run no two matches share a destination tag |
| Custody.ProofFitsOneMatch | contracts/src/DvPEscrow.sol:418-428 | a proof good for one match is refused for every other, by destination or tag |
| Payments.EverySettlementWasEarned | contracts/src/DvPEscrow.sol:287-470 | over every run each match goes back to a lock of this run whose instruction, clock and mid are its terms: amount, price over mid in drops, bond, address hash, tag and deadlines; a released one also to a verified, successful payment to that hash with that tag of at least amount * price / mid drops, not before the lock nor after the payment window, its transaction used by no earlier release; a refunded one to a call later than the settlement window and 120 s |
| Payments.PaymentReleasesExactly | contracts/src/DvPEscrow.sol:399-446 | in every run an open match is released by a proof if and only if the proof is such a payment for the instruction it was locked with |
| Payments.LapseRefundsExactly | contracts/src/DvPEscrow.sol:455-470 | in every run an open match is refunded if and only if the call is later than its settlement window and 120 s, while that instant fits 40 bits |
| Payments.SpentExactly | contracts/src/DvPEscrow.sol:407-431 | after every run the used transactions are exactly those of its releases |
| Accounts.EveryAccountIsItsHistory | contracts/src/DvPEscrow.sol:251-470 | after every run each outside address holds in tokens, armed funds and free bond exactly what it started with and what its own calls, transfers that name it, the locks that name it maker and the ends of its own matches moved |
| Accounts.ArmedUntilTheLatest | contracts/src/DvPEscrow.sol:251-261 | over every run a taker is armed until the latest deadline of his deposits |
| Accounts.LocksExactly | contracts/src/DvPEscrow.sol:287-396 | a lock succeeds if and only if each of its conditions on call, signature, clock, price, funds, bond and tag holds, written out in their own fields |
| Accounts.SignatureExactly | contracts/src/DvPEscrow.sol:298-312 | the signature checks pass if and only if the registered, non-zero signer signed this chain's digest of these bytes in 65 bytes with low S and V of 27 or 28 |
| Accounts.DepositsExactly | contracts/src/BondLedger.sol:58-62 | deposits to escrow and ledger succeed if and only if approved, held and, in the escrow, within 128 bits |
| EndToEnd.SameBand | extension/matcher/match.go:164-176 | what passed the enclave's band test passes lock()'s price checks if and only if none of its products overflows |
| EndToEnd.SmallMidsDoNotOverflow | contracts/src/DvPEscrow.sol:327-337 | no product overflows for mids below 2^128 |
| EndToEnd.SameBond | contracts/src/DvPEscrow.sol:351-354 | the bond the enclave requires is the bond lock() takes |
| EndToEnd.SignedMatchLocks | contracts/src/DvPEscrow.sol:287-396 | a chosen quote's encoded instruction under a good signature is accepted by lock() if and only if no product overflows, while the mid and the chain still agree |
| EndToEnd.SameDigest | contracts/src/libraries/MatchInstructionLib.sol:40-44 | the digest lock() encodes is the one the enclave builds by hand |
| EndToEnd.VerifiedIsAccepted | contracts/src/DvPEscrow.sol:298-312 | a signature the client verifies for the registered signer passes lock()'s checks if and only if it is canonical and the signer is not the zero address |
| EndToEnd.GenuineIsCanonical | extension/matcher/instruction.go:161-203 | a genuine key with S in the lower half signs canonically |
| EndToEnd.ReturnedMatchLocks | contracts/src/DvPEscrow.sol:287-396 | the two hex strings a proven outcome returns are accepted by lock(), its signer registered, if and only if the signature is canonical, the signer non-zero and no product overflows |
| RateLimit.RateLimiter.Consume | web/src/lib/demo/ratelimit.ts:116-141 | the verdict and both maps after it, lazily pruned lists included |
| RateLimit.DecidesByHistory | web/src/lib/demo/ratelimit.ts:116-141 | the limiter that forgets decides as one that remembers every accepted call |
| RateLimit.NoWindowOverflows | web/src/lib/demo/ratelimit.ts:116-141 | in every run each half-open 24 hours hold at most the cap, per kind and address and per kind |
| RateLimit.RefusedMeansFull | web/src/lib/demo/ratelimit.ts:126-133 | a refusal names a bucket that is exactly full and reports when its oldest hit leaves |
| RateLimit.RetryAfterIsExact | web/src/lib/demo/ratelimit.ts:92-96 | with no further hit the named cap blocks up to, and not from, the instant the oldest hit leaves, and the reported seconds are the least that reach it |
| GasDrip.ClaimBook.CheckAndRecord | web/src/lib/demo/wallet-mode.ts:103-124 | the refusal and the whole claim state after it, the daily reset included |
| GasDrip.DailyDripsAreCapped | web/src/lib/demo/wallet-mode.ts:112-119 | in every run at most 20 drips a UTC day |
| GasDrip.DripsAreRationed | web/src/lib/demo/wallet-mode.ts:107-110 | in every run ten minutes between two drips to one address |
| GasDrip.ClaimIsGrantedExactly | web/src/lib/demo/wallet-mode.ts:103-124 | after every run a claim is granted if and only if no drip went to its address in the last ten minutes and its UTC day has seen fewer than 20, and the refusal names which failed |
| GasDrip.ReserveErodesAtMost | web/src/app/api/wallet/gas/route.ts:62-90 | under every interleaving with at most K requests past the check, the owner keeps the reserve less K-1 drips and K fees |
| GasDrip.FloorIsReached | web/src/app/api/wallet/gas/route.ts:62-90 | that bound is reached by any K up to 20 distinct addresses the owner can pay |
| GasDrip.TwoRequestsBreakTheReserve | web/src/lib/demo/wallet-mode.ts:89 | a run of two requests that leaves the owner one drip below the reserve |
| GasDrip.OneFeeBreaksTheReserve | web/src/app/api/wallet/gas/route.ts:64-65 | a run of one request that leaves the owner its fee below the reserve |
| GasDrip.ReserveHoldsExactly | web/src/lib/demo/wallet-mode.ts:89 | the reserve holds over every run if and only if at most no request, or one without a fee, is past the check at a time |
| Bands.MaxLimitIsTheTopOfTheBand | web/src/lib/demo/maker.ts:380 | the maximum limit is itself in band and no price in band exceeds it |
| Bands.FillableExactly | web/src/lib/demo/maker.ts:417-433 | given a funded maker an RFQ can fill if and only if its limit is within the band's top, which is what the web check tests |
| Bands.BufferCoversTheLock | web/src/lib/demo/wallet-mode.ts:139-150 | the 2% buffer covers lock()'s drops at every mid that keeps the signed price in band |
| Bands.BufferCoversRoundingUpExactly | web/src/lib/demo/wallet-mode.ts:319-321 | were the drops rounded up, it would still do so for every price in band if and only if the block is zero or at least 50 raw units |

## Left out

- Cryptography: keccak, secp256k1, ECIES and proof verification are parameters; nothing is claimed about collisions.
- JSON, HTTP, RPC, environment parsing, the result envelope and command dispatch around the handlers; a decoded message is where the handlers start.
- `contracts/src/DvPEscrow.sol` is modelled on values, not as a class: its five operations return the new world or the revert. Re-entrancy is excluded by its guard and not modelled; native value and the oracle's fee are facts of the call; its admin setters are one step.
- Token allowances are one flag per call; the token is a plain ERC-20 with checked arithmetic and returns false only on a short balance.
- Shared references in the book: AddRFQ and CachedOutcome return references in Go and values here. An empty and a nil reason map are one empty multiset.
- The mutexes: each step of the interleaving machine is one locked region, so data races inside one are not represented.
- The interleaving machine takes the chain cache at each read as arbitrary, which covers every schedule of its polls.
- Book runs of 2^64 submissions or more: the counter wraps, and distinct Seqs are claimed only below that; `Book.UpsertKeepsOrder` is exact about the step that wraps.
- The limiter and the drip properties suppose a clock that does not run backwards, as the wall clock they read is expected to.
- Dates: the UTC day of a drip is a day number instead of an ISO date string; addresses are bytes instead of lower-cased strings.
- The faucet claim, the prepare, RFQ and match stores with their time-to-live, and the listing of open RFQs: single-map bookkeeping.
- The run lock of `web/src/lib/demo/state.ts`: several routes release it without owning it, so it keeps nothing worth stating.
- `contracts/src/WhisperDeskInstructionSender.sol`, deployment scripts, the wire client and all of the user interface.
- RFQ expiry at match time: the match path does not look at it, so nothing is claimed about matches after expiry.
- Progress of the enclave: no claim that a call eventually finishes.
