# Verified model of the treasury application

The repository is a treasury application on NEAR: a Rust backend, a command line client, two
smart contracts and a web front end. This project models the parts of it that carry real logic
and proves what they keep over all inputs and all runs. `dafny verify dfyconfig.toml` checks
everything.

| file | what it models |
|---|---|
| `BlockLookup.dfy` | block lookup by time: a cache before a database row before a binary search, on a chain that grows meanwhile |
| `Utf8.dfy`, `Truncation.dfy` | UTF-8 (RFC 3629) and the cut of long log text at a character boundary |
| `Json.dfy`, `JsonRoundTrip.dfy`, `JsonCanonical.dfy` | the JSON texts (RFC 8259) that `serde_json` reads and writes, with its sorted keys, last-duplicate-wins rule and 127 levels |
| `Redaction.dfy` | the rewrite of JSON trees and of texts that hold JSON, recursive through both |
| `SignedPayload.dfy` | the NEP-413 preimage (tag, then Borsh) and the packed 32-byte nonce |
| `PaymentList.dfy`, `PaymentText.dfy` | the canonical text whose hash names a payment list, in the client and in the API; implicit account ids |
| `BulkPayment.dfy` | the bulk-payment contract: credits, approval, payout in batches |
| `ConfidentialBulk.dfy` | the confidential contract: activation, signing, callbacks, retries |
| `AssetTotals.dfy`, `NetworkMerge.dfy` | the dashboard's totals, rows and weights; grouping of networks by source |
| `AccountId.dfy`, `Members.dfy` | the account-id expression and its input filter; duplicate members |
| `Vesting.dfy` | next unlock date and release-interval text |
| `Backfill.dfy` | the two passes that flag testing DAOs |
| `RecentTreasuries.dfy` | the recency-ordered treasury picker |
| `Sorting.dfy`, `ByteOrder.dfy` | stable sorting, as the library sorts of both languages provide it; the byte order of Rust strings |
| `Wrappers.dfy`, `Arithmetic.dfy` | an optional value; arithmetic that several models share |

Code that changes state is modelled by methods and classes proved against functions; pure code
by functions and lemmas.

## What the code does not do

Eleven promises turned out not to hold on every input. Each has an input, or a family of inputs, on
which it fails and, next to it, the exact condition under which it holds.

- **A retry can strand entries.** `retry_failed` sets the cursor to the first failed entry even
  when the cursor is still before it, and so skips Pending entries in between. Nothing is
  stranded if and only if that entry is not beyond the cursor (`ConfidentialBulk.RetryStrandsIff`).
  A proposal can still finish, with every hash signed, if and only if no Pending entry lies behind
  the cursor with only signed or invalid entries before it (`ConfidentialBulk.FinishableIff`);
  `ConfidentialBulk.TwoRetriesStrand` is a run of eight states that ends beyond that point.
- **Client and API can name one list differently.** The client sorts recipients with
  `localeCompare`, the API by bytes. The hashed bytes agree if and only if both orders agree on
  every pair of recipients as it stands in the request (`PaymentList.ClientMatchesApi`).
  `PaymentList.UnderscoreMismatch` is a list on which they do not, for every client order that
  puts `_` before a digit, and `PaymentList.TieMismatch` one for every pair of recipients that
  the client takes for equal.
- **Permuted payments can hash differently.** The hashed bytes are the same for all permutations
  if and only if no two different payments have recipients that compare equal
  (`PaymentList.PermutationsHashAlikeIff`; `PaymentList.TiedPermutation` finds the permutation
  otherwise).
- **The earning tab's header can exceed its rows.** Rows need a pool with stake, the header does
  not. They agree if and only if no network worth something is missing from the rows
  (`AssetTotals.HeaderEqualsRowsIff`); `AssetTotals.EarningHeaderExceedsRows` is one that is missing.
- **One unpayable recipient stops a list.** A native payout aborts on a recipient that is no
  account id, so some calls finish a list if and only if every pending recipient is payable
  (`BulkPayment.FinishesIff`); `BulkPayment.OneBadRecipient` is a list of two payments that no
  calls change.
- **Cutting twice cuts again.** The marker is appended after the cut, so the second pass changes
  the text unless nothing was cut or byte 1024 was a boundary (`Truncation.TruncatedTwice`);
  342 euro signs are such a text (`Truncation.CutTwice`).
- **A later touch within one second does not come first.** Times are whole seconds
  (`RecentTreasuries.TouchedIsFirstIff`, `RecentTreasuries.SameSecondKeepsOrder`).
- **A duplicate can be missed.** The neighbour scan counts every member beyond the first of its
  id if and only if equal ids stand together among the members that compare equal to them
  (`Members.IssuesCount`), as they do wherever only equal ids compare equal. Under a collation
  that ignores punctuation, the form a-b, ab, a-b gets no issue (`Members.DuplicateMissed`).
- **A duplicate can be reported on the wrong row.** Issues carry positions of the sorted list and
  the form shows them at those positions of its own order. They sit on the rows that repeat an id
  above them if and only if, besides, every prefix of the form holds as many ids as the sorted
  prefix (`Members.IssuesOnTheirRowsIff`); for a, b, a the issue is on b (`Members.IssueOnWrongRow`).
- **An approved list need not be funded in its own currency.** The approvals compare amounts, not
  currencies. What came in stays equal to what was approved, currency by currency, if and only if
  the approval pays in the list's own, or pays nothing (`BulkPayment.ApprovalKeepsFundsIff`);
  otherwise the list's own currency falls short (`BulkPayment.OtherCurrencyFallsShort`).
- **A lookup on a chain that ends before 129265430 answers its head**, and the cache keeps that
  answer, which is wrong from the moment the chain gets there
  (`BlockLookup.EarlyAnswerGoesStale`). A lookup that finds the chain at that height or beyond,
  and no such answer in the cache, is right.

One comment in the code also differs from the code: `find_block_height` says it looks for a row
close to the target, but its query asks for equality. The model follows the query.

## Assumptions

- The chain is append-only, its timestamps increase strictly and fit a signed 64-bit integer.
  Database rows copy chain facts at heights from 129265430 on. While a lookup waits, blocks and
  rows may arrive, and cache entries may expire or be stored by others, any number of times.
- `localeCompare` is a total preorder: distinct strings may compare equal. Unicode lower-casing, number formatting, trimming and the
  two redaction expressions are arbitrary deterministic functions.
- `Array.prototype.sort` and `sort_by` are stable sorts. `Sorting.StableSortUnique` shows that
  this leaves one possible result.
- Clocks, random bytes, attached deposits, gas and replies of other contracts are parameters.

## Model

| member | source | states |
|---|---|---|
| `BlockLookup.AppState.FindBlockHeight` | nt-be/src/app_state.rs:546-618 | Whatever happens while it waits, an Ok answer is the least existing block from 129265430 on that is not before the target, and it is in the cache; the one exception is a head below 129265430 that the chain had during the lookup, or an answer cached then; a cached target is answered from the cache with nothing changed; otherwise a database row at the target is answered whatever the search would say; every cached height stays right; it fails only out of range, beyond the head, or on a probed height that does not exist |
| `BlockLookup.AppState.FetchBlockHeight` | nt-be/src/app_state.rs:560-612 | A row at the target is the answer, so that skipped heights cannot make the lookup fail; otherwise the search's: the least block, or a head below 129265430 the chain had meanwhile, and the same errors |
| `BlockLookup.RowsAgree` | nt-be/src/app_state.rs:562-589 | Rows with one timestamp name one block |
| `BlockLookup.AppState.BinarySearchBlockByTimestamp` | nt-be/src/app_state.rs:631-715 | On the chain its first request saw: the future error exactly when the target is after the latest block; otherwise the least block, or the missing height it probed; at most floor(log2 n) + 1 probes for n heights; a chain that ends before 129265430 answers its head without a probe |
| `BlockLookup.AppState.SearchRange` | nt-be/src/app_state.rs:669-714 | The loop reaches that outcome within that many probes while blocks arrive |
| `BlockLookup.AppState.Narrow` | nt-be/src/app_state.rs:683-703 | The comparison finds the least block or keeps the range right with one more probe |
| `BlockLookup.OutcomeStable` | nt-be/src/app_state.rs:631-715 | A search's outcome stays right however the chain grows |
| `BlockLookup.EarlyAnswerGoesStale` | nt-be/src/app_state.rs:644-714 | An answer below 129265430 is not the least block of any chain that has reached that height |
| `BlockLookup.SearchingStep` | nt-be/src/app_state.rs:670-703 | One turn keeps the search range right, shrinks it by a factor of two and never reaches height 0, so `mid - 1` cannot underflow |
| `BlockLookup.RangeDone` | nt-be/src/app_state.rs:670-714 | An empty range leaves the least block as the result |
| `BlockLookup.BitsIsLog` | nt-be/src/app_state.rs:670-671 | The probe bound is floor(log2 n) + 1 |
| `BlockLookup.ExactIsLeast` | nt-be/src/app_state.rs:562-589 | A row whose timestamp equals the target names the least block: database and search agree |
| `BlockLookup.LeastExists` | nt-be/src/app_state.rs:644-661 | An answer exists as soon as some block from the start height on is not before the target |
| `BlockLookup.LeastStable` | nt-be/src/app_state.rs:557-560 | Growth of the chain never changes an answer |
| `BlockLookup.AnswersNeverGoStale` | nt-be/src/app_state.rs:546-618 | In any run, answers for one target at any two moments are equal and stay right from then on |
| `BlockLookup.AppState.GrowChain` | nt-be/src/app_state.rs:557-560 | A new block leaves every cached height right |
| `BlockLookup.AppState.QueryRow` | nt-be/src/app_state.rs:562-573 | Finds a row with the target's timestamp exactly when one exists |
| `Truncation.TruncateSanitizedText` | nt-be/src/observability.rs:268-280 | On valid UTF-8 the byte cut equals the cut stated on characters |
| `Truncation.FloorCharBoundary` | nt-be/src/observability.rs:273-276 | The last boundary at or before the limit |
| `Truncation.CutPosition` | nt-be/src/observability.rs:273-278 | Steps back at most three bytes, and none exactly when the limit is a boundary |
| `Truncation.FitIsLongest` | nt-be/src/observability.rs:273-278 | The kept prefix is the longest that fits |
| `Truncation.TruncatedBound` | nt-be/src/observability.rs:268-280 | At most 1038 bytes, and at least 1035 when something was cut |
| `Truncation.CutText` | nt-be/src/observability.rs:268-280 | Up to 1024 bytes nothing changes; beyond, the longest prefix that fits and the marker |
| `Truncation.TruncatedTwice` | nt-be/src/observability.rs:268-280 | A second cut changes nothing exactly when nothing was cut or byte 1024 was a boundary |
| `Truncation.CutTwice` | nt-be/src/observability.rs:268-280 | A text that a second cut changes |
| `Utf8.DecodeEncode` | nt-be/src/observability.rs:268-280 | Decoding undoes encoding |
| `Utf8.EncodeDecode` | nt-be/src/observability.rs:268-280 | Valid bytes are exactly the encoded ones |
| `JsonRoundTrip.QuotedRoundTrip` | nt-be/src/observability.rs:251-253 | Reading a quoted string gives the string back, escapes included |
| `JsonRoundTrip.ValueRoundTrip` | nt-be/src/observability.rs:251-253 | Reading a printed value inside any text stops after it with the value |
| `JsonRoundTrip.ParsePrint` | nt-be/src/observability.rs:251-253 | Parsing undoes printing for every canonical value: keys in order, numbers in printed form, nesting within the limit |
| `JsonCanonical.ParsedIsCanonical` | nt-be/src/observability.rs:251-253 | Every parsed value is canonical, so parsing undoes printing for it |
| `JsonCanonical.CanonicalIff` | nt-be/src/observability.rs:251-253 | The canonical values are exactly those that some text parses to |
| `JsonCanonical.PutSorted` | nt-be/src/observability.rs:251-253 | Inserting a member keeps the keys in order |
| `JsonCanonical.BuildMapIff` | nt-be/src/observability.rs:251-253 | An object holds each key of its text once, with the value given last |
| `JsonCanonical.SpaceIgnored` | nt-be/src/observability.rs:251-253 | White space before a value, a key, a bracket or the end changes nothing |
| `JsonCanonical.Unescapes` | nt-be/src/observability.rs:251-253 | The eight short escapes and what they spell; no other letter is one |
| `JsonCanonical.UnescapesHex` | nt-be/src/observability.rs:251-253 | Four hex digits spell their character, a lone surrogate none |
| `JsonCanonical.Escapes` | nt-be/src/observability.rs:251-253 | What the printer escapes, and how |
| `JsonCanonical.NoBareControls` | nt-be/src/observability.rs:251-253 | A bare control character in a string is refused |
| `JsonCanonical.NestingLimit` | nt-be/src/observability.rs:251-253 | 127 levels of brackets are read, 128 are not |
| `JsonRoundTrip.PrintInjective` | nt-be/src/observability.rs:251-253 | Two canonical values print alike only if equal |
| `Redaction.StringsShorter` | nt-be/src/observability.rs:225-256 | Every string inside a parsed text is shorter in bytes than the text, so the recursion through tree, string, parse and tree ends |
| `Redaction.RedactJsonValue` | nt-be/src/observability.rs:225-246 | The loop over children computes the recursive rewrite, and terminates |
| `Redaction.RedactFields` | nt-be/src/observability.rs:227-236 | The loop over an object's fields: each sensitive key gets the marker, every other value its own rewrite |
| `Redaction.RedactList` | nt-be/src/observability.rs:237-241 | The loop over an array's items |
| `Redaction.SanitizeSensitiveText` | nt-be/src/observability.rs:250-266 | Parse, rewrite, print, two passes, cut: the text rewrite, and it terminates; what it does is in the next four rows |
| `Redaction.JwtPassHolds` | nt-be/src/observability.rs:259-265 | Whatever the second pass makes true of every text, and a cut keeps, is true of every sanitised text |
| `Redaction.KeyValuePassHolds` | nt-be/src/observability.rs:257-265 | So is what the first pass makes true, where the second keeps it |
| `Redaction.StringsAreClean` | nt-be/src/observability.rs:219-246 | What is true of every sanitised text is true of every string outside sensitive keys |
| `Redaction.PlainTextUnchanged` | nt-be/src/observability.rs:250-266 | A short text that is no JSON and that both passes leave alone comes out as it went in, a JSON text as the rewritten tree, printed |
| `Redaction.RedactSanitizes` | nt-be/src/observability.rs:219-246 | At any depth sensitive keys hold the marker, other strings are at most 1038 bytes, and keys, lengths, numbers, booleans and nulls are unchanged |
| `Redaction.Noninterference` | nt-be/src/observability.rs:204-266 | Values equal except under sensitive keys, also inside strings that are JSON texts to any depth, become equal |
| `Redaction.TextNoninterference` | nt-be/src/observability.rs:250-266 | The same for texts that parse to such values |
| `Redaction.PrintedNoninterference` | nt-be/src/observability.rs:204-266 | The same for printed canonical values, logged as text or held as a string |
| `Redaction.RedactCanonical` | nt-be/src/observability.rs:225-246 | The rewrite keeps a value canonical |
| `Redaction.RedactedTextParses` | nt-be/src/observability.rs:251-256 | What a parsed text is rewritten to prints as JSON that parses to the rewritten tree |
| `Redaction.SeparatorsIgnored` | nt-be/src/observability.rs:204-217 | A `_`, `-` or `.` anywhere in a key does not change whether it is sensitive |
| `Redaction.CaseIgnored` | nt-be/src/observability.rs:204-217 | Nor does the case of a letter |
| `Redaction.SensitiveKeys` | nt-be/src/observability.rs:204-209 | Of keys in lower-case letters exactly seven are sensitive |
| `SignedPayload.ReadPreimageOf` | nt-be/examples/confidential_transfer.rs:60-66 | Reading a NEP-413 preimage gives the payload back |
| `SignedPayload.PreimageOfRead` | nt-be/examples/confidential_transfer.rs:118-126 | Every byte string that reads as a payload is that payload's preimage: one encoding each |
| `SignedPayload.PreimageInjective` | nt-be/examples/confidential_transfer.rs:118-126 | Equal preimages come from equal payloads |
| `SignedPayload.PreimageLayout` | nt-be/examples/confidential_transfer.rs:60-66 | Where each field stands in the preimage, byte by byte |
| `SignedPayload.CallbackLayout` | nt-be/examples/confidential_transfer.rs:60-66 | The optional callback: a byte 0, or a byte 1 with length and bytes |
| `SignedPayload.TagBytes` | e2e-tests/bulk-payment/dao-bulk-payment-flow.js:164-166 | The tag is 2^31 + 413, little-endian 9D 01 00 80 |
| `SignedPayload.SignPreimage` | nt-be/examples/confidential_transfer.rs:110-126 | The Rust signer hashes the preimage |
| `SignedPayload.SignNep413Preimage` | e2e-tests/bulk-payment/dao-bulk-payment-flow.js:152-169 | The JavaScript signer hashes the same bytes |
| `SignedPayload.UnpackPack` | nt-be/examples/confidential_transfer.rs:95-107 | A packed nonce has 32 bytes, begins 56 28 F6 C6 00, holds salt, deadline, time and random bytes at their places, and unpacks to its fields |
| `SignedPayload.PackUnpack` | nt-be/examples/confidential_transfer.rs:95-107 | Every nonce that unpacks was packed from valid fields |
| `SignedPayload.BuildNonce` | nt-be/examples/confidential_transfer.rs:95-107 | The slice writes fill a fresh array with the packed fields, which unpack to what went in; it fails exactly when a time does not fit |
| `SignedPayload.CopyFromSlice` | nt-be/examples/confidential_transfer.rs:100-105 | Writes the slice and nothing else |
| `SignedPayload.NanosFit` | nt-be/examples/confidential_transfer.rs:96-97 | Milliseconds fit 64-bit nanoseconds exactly from 0 to 18446744073709 |
| `SignedPayload.FromLeLe` | nt-be/examples/confidential_transfer.rs:103-104 | Little-endian bytes read back |
| `PaymentList.SameBytesIff` | e2e-tests/bulk-payment/dao-bulk-payment-flow.js:107-122 | Two requests hash the same bytes exactly when submitter, token, timestamp, the multiset of payments and the order of payments whose recipients tie agree |
| `PaymentList.PermutationsHashAlikeIff` | e2e-tests/bulk-payment/dao-bulk-payment-flow.js:107-122 | A request hashes like another exactly when the three fields agree and the payments are permutations, for all requests precisely when no two different payments tie; with distinct recipients, when no two recipients compare equal |
| `PaymentList.TiedPermutation` | e2e-tests/bulk-payment/dao-bulk-payment-flow.js:108-109 | When two payments tie, a permutation that hashes differently |
| `PaymentList.SameBytesDistinct` | e2e-tests/bulk-payment/dao-bulk-payment-flow.js:107-122 | So under a total order equal bytes mean equal fields and permuted payments, and back |
| `PaymentList.BytesDetermine` | nt-be/src/handlers/bulkpayment/submit.rs:45-79 | The hashed bytes fix every field and the sorted list, across two different orders as well |
| `PaymentList.TextReads` | e2e-tests/bulk-payment/dao-bulk-payment-flow.js:107-122 | The hashed bytes parse to an object that names each field for what it is, with the payments in ascending order of recipient |
| `PaymentText.TextIs` | nt-be/src/handlers/bulkpayment/submit.rs:52-77 | The text character by character: no white space, four keys in order |
| `PaymentList.ClientMatchesApi` | nt-fe/lib/bulk-payment-api.ts:20-47 | Client and API bytes agree exactly when the two orders agree on every pair of recipients as it stands in the request, ties included |
| `PaymentList.TieMismatch` | nt-fe/lib/bulk-payment-api.ts:26-29 | Two recipients that the client takes for equal make a list on which they differ |
| `PaymentList.UnderscoreMismatch` | nt-be/src/handlers/bulkpayment/submit.rs:61-66 | A two-payment list on which they differ |
| `ByteOrder.StrLeqIsTotalOrder` | nt-be/src/handlers/bulkpayment/submit.rs:61-66 | The API's order is total |
| `ByteOrder.EncodeKeepsOrder` | nt-be/src/handlers/bulkpayment/submit.rs:61-66 | Comparing texts by characters is comparing their UTF-8 bytes |
| `PaymentList.ImplicitIdShape` | e2e-tests/bulk-payment/dao-bulk-payment-flow.js:90-96 | 64 characters of lower-case hex |
| `PaymentList.ImplicitIdReads` | e2e-tests/bulk-payment/dao-bulk-payment-flow.js:90-96 | Each of its eight blocks spells the index modulo 2^32 |
| `PaymentList.ImplicitIdsEqualIff` | e2e-tests/bulk-payment/dao-bulk-payment-flow.js:90-96 | Equal ids exactly for indices equal modulo 2^32 |
| `PaymentList.ImplicitRecipientsDistinct` | e2e-tests/bulk-payment/dao-bulk-payment-flow.js:90-96 | Up to 2^32 consecutive indices give distinct recipients |
| `Sorting.SortIsStable` | nt-cli/src/config.rs:104-113 | The library sort orders, permutes and keeps ties in place |
| `Sorting.StableSortUnique` | nt-cli/src/config.rs:104-113 | Only one list does so |
| `Sorting.SortsEqualIff` | nt-be/src/handlers/bulkpayment/submit.rs:61-66 | Two lists sort alike exactly when they are permutations with the same order of ties |
| `Sorting.TwoOrdersIff` | nt-be/src/handlers/bulkpayment/submit.rs:61-66 | One list sorts alike under two orders exactly when they agree on every pair as it stands in the list |
| `Sorting.PermutationsIff` | nt-fe/lib/bulk-payment-api.ts:26-29 | Every permutation of a list sorts alike exactly when only equal elements tie |
| `BulkPayment.StorageCostIs` | contracts/bulk-payment/src/lib.rs:126-152 | 216 bytes a record at 10^19 yocto a byte and a tenth on top, refused exactly for no records or where a product overflows |
| `BulkPayment.StorageCostAdds` | contracts/bulk-payment/src/lib.rs:126-152 | The cost never rounds: buying in parts costs the same as at once |
| `BulkPayment.ListIdIff` | contracts/bulk-payment/src/lib.rs:213-215 | A list id is 64 hex digits of either case |
| `BulkPayment.CheckedTotal` | contracts/bulk-payment/src/lib.rs:337-342 | The checked sum succeeds exactly when the total fits 128 bits, and is the total |
| `BulkPayment.PayEffect` | contracts/bulk-payment/src/lib.rs:424-513 | A batch marks min(budget, pending) payable pending payments, changes nothing else and keeps the total; when none is pending the paid sum is the total |
| `BulkPayment.PaysInOrder` | contracts/bulk-payment/src/lib.rs:424-443 | No payment overtakes a pending one before it |
| `BulkPayment.PayLoop` | contracts/bulk-payment/src/lib.rs:424-513 | The loop computes that batch and sends exactly one transfer, of the right amount and to the right recipient, per payment it marks |
| `BulkPayment.BatchesFinish` | contracts/bulk-payment/src/lib.rs:386-388 | With payable recipients, as many calls as pending payments pay everything |
| `BulkPayment.UnpayableNeverFinishes` | contracts/bulk-payment/src/lib.rs:478-481 | With an unpayable pending recipient no sequence of calls finishes, a call that aborts leaving the list as it was |
| `BulkPayment.FinishesIff` | contracts/bulk-payment/src/lib.rs:386-388 | Some calls finish a list exactly when every pending recipient is payable |
| `BulkPayment.OneBadRecipient` | contracts/bulk-payment/src/lib.rs:478-481 | A list of two payments that no sequence of calls changes |
| `BulkPayment.ApprovalKeepsFundsIff` | contracts/bulk-payment/src/lib.rs:317-364 | An approval keeps what was received in each currency equal to the approved totals exactly when it pays in the list's currency, or pays nothing |
| `BulkPayment.OtherCurrencyFallsShort` | contracts/bulk-payment/src/lib.rs:317-364 | Otherwise less was received in the list's currency than is approved in it |
| `BulkPayment.PaidPlusOwed` | contracts/bulk-payment/src/lib.rs:394-533 | While that holds, received is paid plus owed in each currency, so no currency pays out more than came in |
| `BulkPayment.BuyKeeps` | contracts/bulk-payment/src/lib.rs:165-210 | A purchase raises credits and what was bought alike |
| `BulkPayment.SubmitKeeps` | contracts/bulk-payment/src/lib.rs:232-313 | Submitting moves credits into the list, so credits plus records stay what was bought, and owes no transfer |
| `BulkPayment.StatusKeeps` | contracts/bulk-payment/src/lib.rs:317-364 | A change of status moves neither credits nor transfers |
| `BulkPayment.PayoutKeeps` | contracts/bulk-payment/src/lib.rs:394-533 | A batch keeps exactly one transfer per payment marked paid |
| `BulkPayment.Contract.BuyStorage` | contracts/bulk-payment/src/lib.rs:165-210 | Credits grow by the records for exactly their cost; otherwise nothing changes |
| `BulkPayment.Contract.SubmitList` | contracts/bulk-payment/src/lib.rs:232-313 | Accepted exactly under the five checks; then credits drop by the number of payments and the new list holds each input's own recipient and amount, pending |
| `BulkPayment.PaidAsSubmitted` | contracts/bulk-payment/src/lib.rs:232-533 | From submission to payout, over any calls: once no payment is pending, the transfers recorded for a list are exactly one per input, with its recipient and amount |
| `BulkPayment.TransfersAsSubmitted` | contracts/bulk-payment/src/lib.rs:232-533 | At any time a recorded transfer pays one input of an approved list, once |
| `BulkPayment.CurrencyIs` | contracts/bulk-payment/src/lib.rs:410 | The three names of the native token are one currency, every other token its own |
| `BulkPayment.Contract.ApproveList` | contracts/bulk-payment/src/lib.rs:317-364 | Approves exactly for the submitter with the exact total |
| `BulkPayment.Contract.FtOnTransfer` | contracts/bulk-payment/src/lib.rs:608-665 | The same by token transfer, and refused otherwise with nothing changed |
| `BulkPayment.Contract.MtOnTransfer` | contracts/bulk-payment/src/lib.rs:806-891 | The same by multi-token transfer of the list's one token |
| `BulkPayment.Contract.RejectList` | contracts/bulk-payment/src/lib.rs:536-560 | Rejects exactly a list still waiting, for its submitter |
| `BulkPayment.Contract.Approve` | contracts/bulk-payment/src/lib.rs:329-360 | The checks shared by all approvals; the deposit is booked in its currency, and the contract stays funded while every approval has paid in its list's own |
| `BulkPayment.Contract.PayoutBatch` | contracts/bulk-payment/src/lib.rs:394-533 | The new list is the batch's, the answer is what is still pending, every payment marked paid has exactly one transfer, and a failed call changes nothing |
| `ConfidentialBulk.Contract.Activate` | contracts/confidential-bulk-payment/src/lib.rs:297-360 | Starts a load exactly for a new proposal with the full deposit, refunds a known one in full |
| `ConfidentialBulk.Contract.OnGetProposal` | contracts/confidential-bulk-payment/src/lib.rs:363-496 | The activation stays exactly for an approved request to v1.signer whose first action is sign and that lists at most 200 hashes; otherwise all is refunded and it is forgotten; refund plus cost is the deposit |
| `ConfidentialBulk.SignedWasApproved` | contracts/confidential-bulk-payment/src/lib.rs:363-655 | After any calls, whatever is signed or being signed was listed by an approved proposal |
| `ConfidentialBulk.LoadStatuses` | contracts/confidential-bulk-payment/src/lib.rs:115-136 | One entry per part, its payload the trimmed part, Pending exactly for 64 lower-case hex digits; the activation starts with its invariants |
| `ConfidentialBulk.SplitIff` | contracts/confidential-bulk-payment/src/lib.rs:435 | The parts are the one list without commas that joins to the text |
| `ConfidentialBulk.Contract.Ping` | contracts/confidential-bulk-payment/src/lib.rs:520-580 | The new state is the one-batch step: Pending entries from the cursor on are sent, one request each, up to the budget, and it stops only at the end or, with the budget spent, on a Pending entry |
| `ConfidentialBulk.SendBatch` | contracts/confidential-bulk-payment/src/lib.rs:535-573 | The loop computes that step and exactly its requests |
| `ConfidentialBulk.BatchMoves` | contracts/confidential-bulk-payment/src/lib.rs:535-573 | Gas for one request reaches a Pending entry as soon as one is ahead |
| `ConfidentialBulk.Contract.OnSign` | contracts/confidential-bulk-payment/src/lib.rs:584-624 | Every callback that is due finds its entry being signed and settles it and no other: with the signature if it has 64 bytes, as failed otherwise |
| `ConfidentialBulk.Contract.RetryFailed` | contracts/confidential-bulk-payment/src/lib.rs:629-655 | Resets every failed entry and reports how many |
| `ConfidentialBulk.RetryEntries` | contracts/confidential-bulk-payment/src/lib.rs:629-655 | The loop with its running first index and count computes that reset |
| `ConfidentialBulk.RetryMeans` | contracts/confidential-bulk-payment/src/lib.rs:629-655 | Failed entries become Pending, no other changes, and the cursor is at the first of them |
| `ConfidentialBulk.ResolveKeeps` | contracts/confidential-bulk-payment/src/lib.rs:584-624 | A callback keeps the open count exact, finished exactly at zero, and strands nothing |
| `ConfidentialBulk.PingKeeps` | contracts/confidential-bulk-payment/src/lib.rs:520-580 | So does a ping |
| `ConfidentialBulk.RetryKeeps` | contracts/confidential-bulk-payment/src/lib.rs:629-655 | A retry keeps the invariants: the open count stays exact when failed entries become Pending again |
| `ConfidentialBulk.RetryStrandsIff` | contracts/confidential-bulk-payment/src/lib.rs:629-655 | It strands nothing exactly when the first failed entry is not beyond the cursor |
| `ConfidentialBulk.TwoRetriesStrand` | contracts/confidential-bulk-payment/src/lib.rs:629-655 | A run of eight states from two fresh hashes that ends with one of them lost |
| `ConfidentialBulk.LostForever` | contracts/confidential-bulk-payment/src/lib.rs:520-655 | Over any run of pings, answers and retries a lost entry stays Pending and lost |
| `ConfidentialBulk.CarefulRunLosesNothing` | contracts/confidential-bulk-payment/src/lib.rs:520-655 | Over any run in which retry waits for the cursor to pass the first failed entry, nothing is stranded or lost |
| `ConfidentialBulk.CanSignAll` | contracts/confidential-bulk-payment/src/lib.rs:520-655 | Where nothing is stranded, pings with any positive budget, good answers and a retry of what failed earlier get every hash signed |
| `ConfidentialBulk.FinishableIff` | contracts/confidential-bulk-payment/src/lib.rs:520-655 | Some run finishes a proposal exactly when no entry is lost, and exactly then some run of pings with any given positive budget leaves every valid hash signed |
| `ConfidentialBulk.StepKeeps` | contracts/confidential-bulk-payment/src/lib.rs:520-655 | Every step keeps the invariants, the payloads, and entries that are signed or invalid |
| `ConfidentialBulk.SignaturesAreFinal` | contracts/confidential-bulk-payment/src/lib.rs:520-655 | Over any run a signed entry keeps its payload and signature |
| `ConfidentialBulk.CostMonotone` | contracts/confidential-bulk-payment/src/lib.rs:281-290 | Fewer entries never cost more, saturation included, so the refund cannot underflow |
| `ConfidentialBulk.CostExact` | contracts/confidential-bulk-payment/src/lib.rs:281-290 | 150 bytes an entry, 170 an activation and one yocto a request, unless a counter saturates |
| `AssetTotals.GetAssetMetrics` | nt-fe/components/assets-table.tsx:145-180 | The loop's sums and flags are those of the asset's networks in each view |
| `AssetTotals.ToUsdShift` | nt-fe/components/assets-table.tsx:93-96 | Ten times the raw amount with one decimal more is worth the same |
| `AssetTotals.ToUsdWhole` | nt-fe/components/assets-table.tsx:93-96 | Without decimals the worth is amount times price, nothing without a positive price |
| `AssetTotals.WholeTokens` | nt-fe/components/assets-table.tsx:93-96 | Whole tokens are worth their number times the price, whatever the decimals |
| `AssetTotals.Pow10Is` | nt-fe/components/assets-table.tsx:95 | The factors for 6 and 24 decimals |
| `AssetTotals.OneNetworkUsd` | nt-fe/components/assets-table.tsx:145-180 | So is an asset that holds them, in each view |
| `AssetTotals.StandardSplits` | nt-fe/lib/balance.ts:128-164 | A plain balance is available plus locked, none earning |
| `AssetTotals.StakedSplits` | nt-fe/components/assets-table.tsx:98-143 | A staked position is earning in full and nothing else |
| `AssetTotals.LockupSplits` | nt-fe/components/assets-table.tsx:98-143 | A covered lockup is what can be used plus locked plus staked, none of it in the available view |
| `AssetTotals.LockupAgrees` | nt-fe/components/assets-table.tsx:98-131 | On every lockup the table's amounts agree with the library's |
| `AssetTotals.StakingSplits` | nt-fe/lib/balance.ts:128-164 | A staking balance is available plus locked, available exactly what can be withdrawn |
| `AssetTotals.ShownIff` | nt-fe/components/assets-table.tsx:1819-1849 | Which networks a row of each view shows, by kind of balance |
| `AssetTotals.Totals` | nt-fe/components/assets-table.tsx:1353-1365 | The loop computes the header totals of the three views |
| `AssetTotals.MetricsByIdFinds` | nt-fe/components/assets-table.tsx:1342-1351 | With unique ids each asset finds its own metrics |
| `AssetTotals.HeaderMinusRows` | nt-fe/components/assets-table.tsx:1400-1505 | In any view and any row order, header equals shown rows plus what the two filters hide |
| `AssetTotals.HeaderEqualsRowsIff` | nt-fe/components/assets-table.tsx:1819-1931 | On non-negative balances they are equal exactly when no network worth something is missing |
| `AssetTotals.HeaderEqualsRows` | nt-fe/components/assets-table.tsx:1819-1905 | Which is always so in the available and locked views |
| `AssetTotals.EarningHeaderExceedsRows` | nt-fe/components/assets-table.tsx:1839-1849 | An earning network that only the header counts |
| `AssetTotals.WeightsSumTo100` | nt-fe/components/assets-table.tsx:1400-1477 | Weights sum to 100 when the view's total is positive, to 0 otherwise |
| `AssetTotals.WeightIsShare` | nt-fe/components/assets-table.tsx:1438-1477 | A weight times the view's total is a hundred times the asset's value |
| `AssetTotals.SumPermutation` | nt-fe/components/assets-table.tsx:1477-1505 | Sorting the rows changes no total |
| `NetworkMerge.MergeAvailableNetworks` | nt-fe/components/assets-table.tsx:735-769 | One row per source key in order of first appearance, its amount the sum of its group, its network the first; the total is conserved |
| `NetworkMerge.Absorb` | nt-fe/components/assets-table.tsx:749-767 | One turn: the entry of the source grows by the amount, or a new last one appears |
| `NetworkMerge.MergeUnique` | nt-fe/components/assets-table.tsx:746-769 | That fixes the rows |
| `NetworkMerge.FirstKeysDistinct` | nt-fe/components/assets-table.tsx:746-769 | The keys are distinct and are exactly those of the inputs |
| `NetworkMerge.SourceKeyIff` | nt-fe/components/assets-table.tsx:735-744 | Networks merge exactly when chain, kind and contract agree, chain names being free of colons |
| `NetworkMerge.ColonCollides` | nt-fe/components/assets-table.tsx:735-744 | A chain name with a colon can take another's place |
| `AccountId.RegexIff` | nt-fe/components/account-id-input.tsx:22-25 | The nested expression accepts exactly the non-empty strings of lower-case letters, digits and `- _ .` that begin and end alphanumeric and have no two adjacent separators |
| `AccountId.SanitizedShape` | nt-fe/components/account-id-input.tsx:81-87 | At most 64 allowed characters come out |
| `AccountId.LowerCaseKept` | nt-fe/components/account-id-input.tsx:81-87 | A text that is allowed in lower case comes out in lower case, cut to 64 |
| `AccountId.OthersDropped` | nt-fe/components/account-id-input.tsx:81-87 | A character that is not allowed is dropped wherever it stands, and nothing else is |
| `AccountId.SanitizeExample` | nt-fe/components/account-id-input.tsx:81-87 | A b becomes ab |
| `AccountId.Alphabet` | nt-fe/components/account-id-input.tsx:22-25 | Which characters those are |
| `AccountId.SanitizeFixes` | nt-fe/components/account-id-input.tsx:81-87 | Exactly those texts pass unchanged |
| `AccountId.SanitizeTwice` | nt-fe/components/account-id-input.tsx:81-87 | A second pass changes nothing |
| `AccountId.SanitizerAndSchema` | nt-fe/components/account-id-input.tsx:16-38 | An id the schema accepts is never altered by the input field |
| `Members.SuperRefine` | nt-fe/components/member-input.tsx:42-58 | Sorts the list in place; one issue at each position that repeats the id before it; as many as members minus distinct ids exactly when equal ids stand together among their ties, as they do under a total order, and then some exactly when two members share an id; never one without a duplicate |
| `Members.SortInPlace` | nt-fe/components/member-input.tsx:43-45 | The caller's own list is reordered to the stable sort |
| `Members.AddIssues` | nt-fe/components/member-input.tsx:46-57 | The neighbour scan finds every repeat |
| `Members.IssuesCount` | nt-fe/components/member-input.tsx:42-58 | The count of issues for any order of the collation, at most members minus distinct ids and equal to that exactly under the same condition |
| `Members.CountIds` | nt-fe/components/member-input.tsx:46-57 | In any list, repeats of the id just before plus distinct ids reach the length exactly when whoever repeats an id repeats the one just before |
| `Members.DuplicateMissed` | nt-fe/components/member-input.tsx:43-57 | Where a-b and ab compare equal, a-b, ab, a-b holds a duplicate and gets no issue |
| `Members.DistinctIds` | nt-fe/components/member-input.tsx:42-58 | As many ids as members exactly when no two share one |
| `Members.IssuesOnTheirRowsIff` | nt-fe/components/member-input.tsx:42-58 | The issues, shown at their positions in the user's order, mark exactly the rows that repeat an id above them if and only if equal ids stand together among their ties and every prefix holds as many ids as the sorted prefix |
| `Members.OrderedFormIff` | nt-fe/components/member-input.tsx:43-57 | In a form already in order the first condition is enough, and needed |
| `Members.IssueOnWrongRow` | nt-fe/components/member-input.tsx:43-57 | For a, b, a the issue is on b and none is on the second a |
| `Vesting.CalculateNextFtUnlockDate` | nt-fe/components/lockup-details-modal.tsx:110-148 | Completed exactly when rounds are positive and the last unlock is not after now; otherwise the first future unlock, within the rounds |
| `Vesting.NextClosedForm` | nt-fe/components/lockup-details-modal.tsx:126-137 | The first future unlock is given by one division |
| `Vesting.PartsAreMixedRadix` | nt-fe/components/lockup-details-modal.tsx:80-97 | Parts descend in unit, each count is below its radix, and they sum to the seconds |
| `Vesting.MixedRadixUnique` | nt-fe/components/lockup-details-modal.tsx:80-97 | No other such list has that sum |
| `Vesting.SplitInterval` | nt-fe/components/lockup-details-modal.tsx:80-97 | The loop computes those parts |
| `Vesting.LabelsDistinct` | nt-fe/components/lockup-details-modal.tsx:71-108 | Two positive intervals never share a part list, the two named ones included |
| `Vesting.FormatReleaseInterval` | nt-fe/components/lockup-details-modal.tsx:71-108 | The function's text is the label of the interval, none for a missing or non-positive one |
| `Vesting.EnglishDistinct` | nt-fe/messages/en.json:2126-2138 | Nor do they read the same in English, for any way of printing counts that is injective and has no spaces |
| `Vesting.NamedExamples` | nt-fe/components/lockup-details-modal.tsx:77-78 | 30 days are a month and 90 days a quarter |
| `Vesting.DayHourExample` | nt-fe/components/lockup-details-modal.tsx:80-107 | 93600 seconds read Every 1 day 2 hours |
| `Vesting.MinuteSecondExample` | nt-fe/components/lockup-details-modal.tsx:80-107 | 62 seconds read Every 1 minute 2 seconds |
| `Vesting.YearExample` | nt-fe/components/lockup-details-modal.tsx:99-101 | 365 days read Every 1 year |
| `Backfill.Database.MarkExplicitDaos` | nt-be/examples/mark_testing_daos.rs:20-65 | Flags exactly the tracked explicit DAOs and counts unflagged, flagged and missing ones |
| `Backfill.Database.BackfillFromPolicyMembers` | nt-be/examples/mark_testing_daos.rs:67-132 | Flags exactly the tracked DAOs that satisfy the rule and counts each row once |
| `Backfill.Database.BackfillRow` | nt-be/examples/mark_testing_daos.rs:84-129 | One row: counted once, and flagged exactly under the rule |
| `Backfill.Database.Run` | nt-be/examples/mark_testing_daos.rs:134-161 | Both passes: a tracked DAO is flagged exactly when it was, is listed, or has policy members who are all testers; counters sum to explicit ids plus tracked rows; on a settled table nothing is marked |
| `Backfill.ShouldMarkIff` | nt-be/src/services/testing_accounts.rs:11-25 | A DAO is marked exactly when it is listed or its non-empty members are all testers |
| `Backfill.RunSettles` | nt-be/examples/mark_testing_daos.rs:20-132 | No flag is cleared, no row added or lost, and a run's result is settled |
| `Backfill.SettledMarksNothing` | nt-be/examples/mark_testing_daos.rs:20-132 | On a settled table both passes mark nothing |
| `Backfill.BothPasses` | nt-be/examples/mark_testing_daos.rs:143-158 | The two passes together reach the final table, counters included |
| `Backfill.CountThree` | nt-be/examples/mark_testing_daos.rs:20-132 | Three exclusive outcomes partition a list |
| `RecentTreasuries.ComparatorIsSound` | nt-cli/src/config.rs:104-113 | The comparator answers both ways round alike and is a total preorder |
| `RecentTreasuries.SortedListIs` | nt-cli/src/config.rs:104-113 | The sorted list is the one permutation with used treasuries first, newest first, then unused by id, ties in the API's order |
| `RecentTreasuries.TouchedIsFirstIff` | nt-cli/src/config.rs:163-169 | A touched treasury comes first exactly when no other has a later time, or the same time and an earlier place |
| `RecentTreasuries.TouchedLaterIsFirst` | nt-cli/src/config.rs:163-169 | So at a time after all others it is first |
| `RecentTreasuries.SameSecondKeepsOrder` | nt-cli/src/config.rs:163-169 | Two touches in one second leave the older one first |
| `RecentTreasuries.MostRecentFirst` | nt-cli/src/config.rs:104-113 | Over any run of touches the list reverses the order of last touches |
| `RecentTreasuries.OptionTextParses` | nt-cli/src/config.rs:115-125 | The chosen text gives the id back exactly when it has no space |
| `RecentTreasuries.OptionTextExamples` | nt-cli/src/config.rs:115-121 | What an option reads like, with and without a name |
| `RecentTreasuries.OptionTextsEqualIff` | nt-cli/src/config.rs:115-121 | Two options read alike exactly for one id and one shown name |
| `RecentTreasuries.Recent.InputTreasuryId` | nt-cli/src/config.rs:91-125 | Fails exactly on an empty list or a failed prompt; otherwise returns the chosen treasury's id if it has no space |
| `RecentTreasuries.Recent.Touch` | nt-cli/src/config.rs:163-169 | One entry is set, no other changes |

## Left out

- Network, HTTP, SQL and wallet calls, and the cache's tiers and expiry rules: they appear as the maps and rows they read and write, and as arbitrary interference while a lookup waits.
- NetworkMerge.SourceKeyIff: for chain names with a colon two sources can share a key; such names are not excluded by the code, and ColonCollides is an example.
- SHA-256, signatures, base64 and key derivation: properties are those of the bytes that are hashed.
- The two redaction expressions and Unicode lower-casing: any deterministic function; what they match is not modelled.
- The printed form of numbers inside JSON: a parameter that only has to be deterministic, and for round trips has to fix the literals it prints.
- Redaction.RedactJsonValue: the tree is rebuilt value by value, not mutated through a reference, because JSON is a datatype here; aliasing cannot arise in the original either.
- ConfidentialBulk.Contract.Ping: gas metering is a budget of requests, since the remaining gas of a call is not visible to the model.
- The confidential contract's bootstrap (key derivation, key registration): a flag.
- BulkPayment.Contract.FtOnTransfer: which contract calls, and so which currency comes with the call, is a ghost parameter that no check of the code mentions; who may call is not modelled.
- BulkPayment.Contract.SubmitList: account id syntax and the decoding of JSON arguments are not modelled; the token is any string.
- BulkPayment.Contract.PayoutBatch: transfers are recorded when sent; what becomes of a failed transfer, the balances that fund it and the wire format per token kind are not modelled, and gas is a budget of payments.
- The subaccount factory and code-hash setters of the bulk-payment contract: deployment calls only.
- Rounding in floating-point USD sums and `Big` precision: totals are exact.
- The dashboard's sort keys and directions: totals hold for every order of rows.
- SignedPayload.NanosFit: an overflowing product is a failure, as in a checked build; an unchecked build would wrap.
- PaymentList.BytesDetermine: strings are sequences of Unicode scalar values, so a lone surrogate in a JavaScript string is not modelled; timestamps are non-negative whole numbers.
- PaymentList.ImplicitIdsEqualIff: negative or fractional indices are not modelled.
- Vesting.CalculateNextFtUnlockDate: seconds are whole numbers, NaN counts as missing, and a date is shown by its second.
- Vesting.EnglishDistinct: the other twelve languages are not modelled, nor is the printed form of a count beyond being injective and free of spaces.
- Members.SuperRefine: the roles of a member play no part.
- AccountId.SanitizeFixes: assumes that lower-casing leaves allowed characters alone, as it does.
- Backfill.Database.BackfillFromPolicyMembers: nothing else writes the table between reading a row and updating it, so the branch for a row flagged meanwhile cannot be taken; the order of rows is any order.
- RecentTreasuries.Recent.Touch: the table's file on disk and its parse errors are not modelled.
- User interface, translations, notifications, tracing set-up, rate limits and the payout worker: plumbing without further laws of this kind.
