# celo-web-wallet core, modelled in Dafny

This project models the client-side logic of the Celo web wallet:

- the Redux slices that hold the transaction feed, the wallet session and the WalletConnect status;
- the encrypted-mnemonic storage;
- the send-token validation and transfer building;
- the aggregation of validator groups;
- the address helpers;
- the PIN and password rules and the PIN input sanitiser;
- the daily tip.

Slices whose reducers assign fields of the state in place are classes (`Feed.TransactionFeed`,
`WalletSlice.Wallet`, `WalletConnect.WalletConnectSlice`, `WalletStorage.WalletStore`). Their methods
state the whole new state and the invariant each one keeps. Pure helpers are functions with contracts.
The loops of the validator aggregation are methods proved against the recursive specification
functions `Validators.Grouped`, `Validators.FirstOccurrences` and `Validators.LastIndex`.

JavaScript semantics are spelled out where the source relies on them:

- `null`/`undefined` is `None`, and a thrown `Error` is `Failure(message)` / `Fail(message)`.
- Truthiness is explicit: an empty string is falsy, and a `lastUpdated` of 0 is falsy.
- The `groups` record is a map beside the list of its keys in insertion order, which is the order
  `Object.keys`/`Object.values` report.
- Strings are measured as JavaScript measures them. `length`, `substring` and a regular expression
  without the `u` flag count UTF-16 code units, so `JsString` gives the code units of a string; an
  emoji is one Dafny character but two code units.
- The regular expressions are spelled out. `.` does not match line terminators, and `\s` is the
  ECMAScript whitespace set.

Foreign helpers and services are parameters:

- the ethers `isAddress`/`getAddress` (`Addresses.AddressCodec`);
- encryption, decryption and mnemonic checking (`WalletStorage.VaultCrypto`);
- `validateAmount`, `validateFeeEstimate`, `validateAmountWithFees` and `isSignerLedger` (`SendToken.Validators`);
- `getAdjustedAmountFromBalances`, `signTransaction` and `createPlaceholderForTx`;
- the contract reads of `fetchValidatorGroupInfo`;
- the clock (`Date.now()` and `getDate()`);
- `config.isElectron`.

## Model

| member | source | states |
|---|---|---|
| Feed.MergeTransactions | src/features/feed/feedSlice.ts:36 | the merged map's keys are both key sets; an incoming entry wins on an equal hash, every other old entry is kept |
| Feed.InsertPlaceholder | src/features/feed/feedSlice.ts:41-46 | a placeholder is added under its hash only when that hash is absent; no existing entry is ever changed |
| Feed.Selection | src/features/feed/feedSlice.ts:47-53 | the selection is the requested hash exactly when it is non-empty and a key of the map, else null |
| Feed.InsertPlaceholderIdempotent | src/features/feed/feedSlice.ts:41-46 | adding the same placeholder twice leaves the map it left after once |
| Feed.ConfirmedSupersedesPlaceholder | src/features/feed/feedSlice.ts:35-46 | fetched data for a hash wins over a placeholder whichever arrives first, and one entry per hash remains |
| Feed.MergeDisjointCommutes | src/features/feed/feedSlice.ts:35-37 | merging batches with disjoint hashes does not depend on their order |
| Feed.SelectionSurvivesGrowth | src/features/feed/feedSlice.ts:35-46 | a valid selection stays valid under the only map updates the slice makes, which add keys |
| Feed.TransactionFeed.constructor | src/features/feed/feedSlice.ts:15-21 | the initial state is empty, with null time, block and selection and the toggle off |
| Feed.TransactionFeed.Rehydrate | src/features/feed/feedSlice.ts:71-76 | the whitelisted transactions, time and block come back; selection and toggle start afresh |
| Feed.TransactionFeed.AddTransactions | src/features/feed/feedSlice.ts:27-40 | transactions become the merge of old and new; time and block are always recorded; the selection invariant is kept |
| Feed.TransactionFeed.AddPlaceholderTransaction | src/features/feed/feedSlice.ts:41-46 | transactions become the insert-if-absent result; nothing else changes |
| Feed.TransactionFeed.OpenTransaction | src/features/feed/feedSlice.ts:47-53 | the selection becomes `Selection` of the request; the persisted fields are untouched |
| Feed.TransactionFeed.ToggleAdvancedDetails | src/features/feed/feedSlice.ts:54-56 | the flag flips; nothing else changes |
| Feed.TransactionFeed.ResetFeed | src/features/feed/feedSlice.ts:57 | the state is the initial state again |
| Feed.ToggleTwiceIsIdentity | src/features/feed/feedSlice.ts:54-56 | two toggles restore the flag and leave every other field as it was |
| Feed.PlaceholderTwiceIsOnce | src/features/feed/feedSlice.ts:41-46 | dispatching a placeholder twice leaves the map one dispatch leaves |
| WalletConnect.InitializeChangesOnlyStatusAndUri | src/features/walletConnect/walletConnectSlice.ts:47-50 | init sets status Initializing and the uri, and keeps session, request and error |
| WalletConnect.SessionTransitions | src/features/walletConnect/walletConnectSlice.ts:51-65 | a proposal makes a pending session without a start time; a creation makes a settled session stamped with the current time |
| WalletConnect.FailuresRecordTheError | src/features/walletConnect/walletConnectSlice.ts:66-69 | a session failure sets Error and a request failure sets RequestFailed, and each records its message |
| WalletConnect.RequestTransitions | src/features/walletConnect/walletConnectSlice.ts:70-79 | a request is stored as pending; approve and complete change only the status |
| WalletConnect.DismissClearsRequestAndError | src/features/walletConnect/walletConnectSlice.ts:84-88 | dismissing returns to SessionActive with no request and no error, and keeps the session |
| WalletConnect.DisconnectKeepsOnlyError | src/features/walletConnect/walletConnectSlice.ts:89-100 | disconnect yields the initial state, except that an Error status and its message survive; it is idempotent |
| WalletConnect.ResetIsInitial | src/features/walletConnect/walletConnectSlice.ts:33-39 | reset yields the initial state: Disconnected with every field null |
| WalletConnect.UnhandledActionsChangeNothing | src/features/walletConnect/walletConnectSlice.ts:8-23 | the declared actions without a case leave the state unchanged |
| WalletConnect.Reduce | src/features/walletConnect/walletConnectSlice.ts:45-102 | no action loses an error report a failure status carries, and only the actions with a case ever change the status |
| WalletConnect.TransitionsIgnoreStatus | src/features/walletConnect/walletConnectSlice.ts:46-101 | no case except disconnect reads the current status, so every other transition is allowed from any status |
| WalletConnect.ErrorReportedInvariant | src/features/walletConnect/walletConnectSlice.ts:66-88 | a failure status always carries an error message, whatever sequence of actions is dispatched |
| WalletConnect.ResetForgetsHistory | src/features/walletConnect/walletConnectSlice.ts:101 | after a reset the state depends only on the actions dispatched since |
| WalletConnect.WalletConnectSlice.constructor | src/features/walletConnect/walletConnectSlice.ts:33-43 | the slice starts in the initial state |
| WalletConnect.WalletConnectSlice.Dispatch | src/features/walletConnect/walletConnectSlice.ts:45-102 | the fields assigned in place equal the reducer's result, and the error invariant is kept |
| WalletSlice.SetAddressCheck | src/features/wallet/walletSlice.ts:33-34 | an address passes exactly when it is 42 code units long and the signer type is Local or Ledger; any other length fails with "Invalid address <address>", a missing type with "Invalid type <address>" |
| WalletSlice.UpdateBalancesCheck | src/features/wallet/walletSlice.ts:40 | balances pass exactly when both amounts are non-empty and the timestamp is present and non-zero |
| WalletSlice.Wallet.constructor | src/features/wallet/walletSlice.ts:16-25 | no address or type, zero balances without a timestamp, locked |
| WalletSlice.Wallet.Rehydrate | src/features/wallet/walletSlice.ts:57-62 | only address and balances come back from storage |
| WalletSlice.Wallet.SetAddress | src/features/wallet/walletSlice.ts:31-37 | a refused address or type leaves the state unchanged; otherwise address and type are set; balances and lock are untouched |
| WalletSlice.Wallet.UpdateBalances | src/features/wallet/walletSlice.ts:38-42 | the balances are replaced exactly when the guard passes |
| WalletSlice.Wallet.SetWalletUnlocked | src/features/wallet/walletSlice.ts:43-45 | the lock flag is set; the persisted fields are untouched |
| WalletSlice.Wallet.ClearWallet | src/features/wallet/walletSlice.ts:46-50 | address, balances and lock are reset; the signer type is kept |
| WalletStorage.WalletPath | src/features/wallet/storage.ts:8-13 | the wallet lives in the file `mnemonic.enc` under Electron and under the key `wallet/mnemonic` on the web |
| WalletStorage.SaveCheck | src/features/wallet/storage.ts:21-29 | the phrase is written exactly when a local signer has a non-empty valid phrase and no wallet would be overwritten without `override`; the checks run in the source's order |
| WalletStorage.LoadFrom | src/features/wallet/storage.ts:40-53 | a phrase is returned exactly when a non-empty item is stored and decrypts; otherwise null |
| WalletStorage.SaveThenLoad | src/features/wallet/storage.ts:31-53 | a phrase whose encryption succeeds loads back with the same pincode when decryption inverts encryption |
| WalletStorage.MissingAndUndecryptableAlike | src/features/wallet/storage.ts:40-53 | a wrong pincode and a missing wallet give the caller the same null |
| WalletStorage.WalletStore.constructor | src/features/wallet/storage.ts:8-13 | the store records the platform and its initial items |
| WalletStorage.WalletStore.IsWalletInStorage | src/features/wallet/storage.ts:15-17 | a wallet is present exactly when the platform's path (the file under Electron, the key on the web) holds an item |
| WalletStorage.WalletStore.SaveWallet | src/features/wallet/storage.ts:19-38 | it succeeds exactly when the checks pass, encryption succeeds and `setItem` does not throw; every other case becomes "Failure saving wallet" and writes nothing; on success only the wallet path is written, with the encrypted phrase, and the wallet is then in storage; an existing wallet is replaced only with `override` |
| WalletStorage.WalletStore.LoadWallet | src/features/wallet/storage.ts:40-54 | reads the store without changing it and returns `LoadFrom` of it |
| WalletStorage.WalletStore.RemoveWallet | src/features/wallet/storage.ts:56-62 | only the wallet entry is deleted |
| SendToken.MaxAmount | src/features/send/sendToken.ts:43-47 | no cap without max-amount validation; otherwise the Ledger cap for a Ledger signer and the general cap for any other |
| SendToken.RecipientCheck | src/features/send/sendToken.ts:51-63 | a malformed recipient gives "Invalid Recipient"; a well-formed empty one gives "Recipient is required"; no error exactly when the recipient is non-empty and well-formed |
| SendToken.CommentTooLong | src/features/send/sendToken.ts:65 | the comment is measured in code units: a comment of more than the limit in characters is always too long, and a too-long comment has more than half the limit in characters |
| SendToken.SpreadIsMerge | src/features/send/sendToken.ts:41-83 | `{ ...errors, ...extra }` keeps every field of both, a field of `extra` wins a shared name, `isValid` comes from `extra`, and spreading `undefined` changes nothing |
| SendToken.AccumulateFields | src/features/send/sendToken.ts:38-86 | after spreading a list of contributions, a field is present exactly when some contribution reports it, and holds the message of the last contribution that does |
| SendToken.ValidationChecks | src/features/send/sendToken.ts:40-84 | five contributions in order; the comment one is present exactly when the comment is too long, and the two fee ones are absent without `validateFee` |
| SendToken.Validate | src/features/send/sendToken.ts:31-87 | the result is the five checks' contributions spread in the source's order (amount or "Amount Missing", recipient, comment counted in code units, fee estimate, amount with fees), so every field `validateAmount`, `validateFeeEstimate` or `validateAmountWithFees` reports reaches it; each local failure puts its message into the result and marks it invalid; when no check reports, the result is `{ isValid: true }`; with validators that report only failures, valid means every check passed |
| SendToken.GetTokenTransferTx | src/features/send/sendToken.ts:123-163 | only CELO and cUSD transfers are built, to the recipient for the amount; the comment is carried exactly when truthy; an uncommented CELO transfer is a plain value transfer and every other transfer calls the currency's token contract |
| SendToken.CreateSendTx | src/features/send/sendToken.ts:107-121 | without a fee estimate it fails with "Fee estimate is missing" before anything is adjusted or signed; an unsupported currency fails; otherwise the transfer of the adjusted amount is signed, and the signer's rejection is passed on or its signed transaction returned with the transfer's type |
| SendToken.GetPlaceholderTx | src/features/send/sendToken.ts:165-199 | it fails without a fee estimate or with a type other than the two transfers; otherwise it gives an outgoing entry to the recipient, with the comment and the currency of the transfer type |
| SendToken.PlaceholderRecordsSentCurrency | src/features/send/sendToken.ts:95-101 | the placeholder of a successful send records the currency and recipient that were sent |
| Validators.NewGroup | src/features/validators/fetchValidators.ts:66-76 | a new group has no members, an empty name and url, is not eligible, and has zero capacity and votes |
| Validators.MakeValidator | src/features/validators/fetchValidators.ts:78-87 | a member is named after its address and is Elected exactly when its signer is in the elected set |
| Validators.AddValidatorMembers | src/features/validators/fetchValidators.ts:62-88 | one step of the first loop changes only the listed affiliation's group, adding or replacing just the listed validator |
| Validators.GroupedKeys | src/features/validators/fetchValidators.ts:60-89 | after the first loop there is a group for an address exactly when some validator names it as affiliation |
| Validators.FirstOccurrences | src/features/validators/fetchValidators.ts:92 | the group keys come in first-appearance order, each key exactly once |
| Validators.FirstOccurrencesInOrder | src/features/validators/fetchValidators.ts:92 | the keys come in the order of their first appearance among the affiliations |
| Validators.LastIndex | src/features/validators/fetchValidators.ts:119-126 | a group listed twice as eligible keeps its last listed votes |
| Validators.LastListing | src/features/validators/fetchValidators.ts:61-89 | gives the last position listing a validator under an affiliation |
| Validators.GroupedShape | src/features/validators/fetchValidators.ts:60-89 | after the first loop every group keeps its defaults, and every member is keyed and named by its address and is Elected iff its signer was elected |
| Validators.GroupedMembership | src/features/validators/fetchValidators.ts:60-89 | a validator is a member of a group exactly when some listing pairs it with that affiliation |
| Validators.GroupedMemberRecord | src/features/validators/fetchValidators.ts:81-88 | a member's record comes from the last listing of its address under that affiliation |
| Validators.EachValidatorInItsGroupOnly | src/features/validators/fetchValidators.ts:60-89 | with distinct addresses, each validator belongs to the group of its own affiliation and to no other |
| Validators.GetValidatorGroupCapacity | src/features/validators/fetchValidators.ts:131-141 | capacity is floor(totalLocked × (members + 1) / min(maxElectable, totalValidators)); a zero divisor throws |
| Validators.GroupByAffiliation | src/features/validators/fetchValidators.ts:60-89 | the loop ends with the groups of `Grouped` and their keys in first-appearance order, each key once and every key a group |
| Validators.GroupingStep | src/features/validators/fetchValidators.ts:62-88 | one pass of the loop body (create the group on first sight, then add the member) extends the state by exactly one validator |
| Validators.BuildGroups | src/features/validators/fetchValidators.ts:38-89 | empty lists and a size mismatch fail with the source's messages in order; otherwise the result is `Grouped` in first-appearance key order |
| Validators.ApplyGroupDetails | src/features/validators/fetchValidators.ts:92-109 | a size mismatch fails; otherwise the i-th name and url go to the i-th key and nothing else changes |
| Validators.ApplyVotes | src/features/validators/fetchValidators.ts:112-126 | the loop throws exactly on an unknown eligible group, a zero divisor or missing votes, with the message of the first entry that fails; otherwise eligible groups get eligibility, capacity and last listed votes, and all others are unchanged |
| Validators.VoteErrorMatchesVotesFail | src/features/validators/fetchValidators.ts:112-126 | the message the third loop throws, decided by the first failing eligible entry, exists exactly when some entry names an unknown group, the divisor is zero or votes are missing |
| Validators.Values | src/features/validators/fetchValidators.ts:129 | the values follow the key order |
| Validators.StagesCompose | src/features/validators/fetchValidators.ts:92-126 | a group's name, url, capacity and votes after the second and third stages are those of `FinalGroup` for its key |
| Validators.FetchValidatorGroupInfo | src/features/validators/fetchValidators.ts:27-130 | it succeeds exactly when the lists are non-empty and of equal size, the details match the group count and no eligible entry fails; each failure carries its stage's message in order; on success the groups come in key order, each with its members, its name and url and, when eligible, its capacity and votes |
| Addresses.ValidateAddress | src/utils/addresses.ts:4-10 | passes exactly for a non-empty well-formed address; otherwise throws "Invalid addresses for <context>: <address>" |
| Addresses.NormalizeAddress | src/utils/addresses.ts:12-15 | the checksummed form of an acceptable address, else the validation error |
| Addresses.ShortenAddress | src/utils/addresses.ts:17-20 | the first eight characters of the normalised address, followed by "..." exactly when asked |
| Addresses.AreAddressesEqual | src/utils/addresses.ts:22-26 | validates a1 and then a2; then true exactly when the normalised forms agree |
| Addresses.AreAddressesEqualSymmetric | src/utils/addresses.ts:22-26 | the comparison succeeds and answers the same in either order; an acceptable address equals itself |
| Addresses.TrimLeading0x | src/utils/addresses.ts:28-30 | removes one leading "0x" when present, else changes nothing |
| Addresses.EnsureLeading0x | src/utils/addresses.ts:32-34 | the result starts with "0x" and is the input, or "0x" plus the input |
| Addresses.EnsureLeading0xIdempotent | src/utils/addresses.ts:32-34 | applying it twice is the same as once |
| Addresses.Leading0xRoundTrips | src/utils/addresses.ts:28-34 | trim undoes ensure on unprefixed text; ensure undoes trim on text with a single prefix |
| JsString.CodeUnits | src/features/pincode/PincodeInput.tsx:35 | a character of the Basic Multilingual Plane is one code unit, itself; any other is a surrogate pair |
| JsString.Utf16 | src/features/pincode/utils.ts:23 | a string has at least as many code units as characters and at most twice as many |
| JsString.Utf16Append | src/features/pincode/utils.ts:23 | code units of a concatenation are the concatenated code units |
| JsString.BmpLengthsAgree | src/features/wallet/walletSlice.ts:33 | without astral characters, `length` equals the character count |
| JsString.AstralCharIsTwoUnits | src/features/pincode/utils.ts:23 | an emoji is one character but two code units |
| JsString.TakeUnits | src/features/pincode/PincodeInput.tsx:35 | the longest whole-character prefix within n code units: it fits, and the next character would not |
| JsString.TakeUnitsWhole | src/features/pincode/PincodeInput.tsx:35 | a string that fits in n code units is kept whole |
| JsString.SubstringUnits | src/features/pincode/PincodeInput.tsx:35 | `substring(0, n)` is the code units of that prefix followed by a strict part of the next character |
| PincodeUtils.Repeat | src/features/pincode/utils.ts:3-16 | a string of n copies of one character |
| PincodeUtils.BlacklistHasEveryRepeatedDigit | src/features/pincode/utils.ts:3-16 | every six-fold repeated digit is blacklisted |
| PincodeUtils.BlacklistShape | src/features/pincode/utils.ts:3-16 | twelve entries: the ten repeated digits, then 123456 and 654321 |
| PincodeUtils.BlacklistIsSixDigitPins | src/features/pincode/utils.ts:3-16 | every blacklisted entry is a six-digit PIN |
| PincodeUtils.HasCharWhere | src/features/pincode/utils.ts:23 | true exactly when some character satisfies the predicate |
| PincodeUtils.MatchesPasswordPattern | src/features/pincode/utils.ts:23 | 6 to 30 UTF-16 code units, none a line terminator, with an ASCII digit, lowercase and uppercase letter |
| PincodeUtils.IsSecretTooSimple | src/features/pincode/utils.ts:18-26 | a PIN is too simple exactly when blacklisted; a password exactly when it fails the pattern; any other type throws "Invalid secret type: <type>" |
| PincodeUtils.PasswordLengthBounds | src/features/pincode/utils.ts:22-24 | any password shorter than 6 or longer than 30 code units is too simple, and so is any of more than 30 characters |
| PincodeUtils.AstralPasswordTooLong | src/features/pincode/utils.ts:23 | "Aa1" followed by n emoji has n + 3 characters but 2n + 3 code units, so from 14 emoji on (17 characters) it is too simple |
| PincodeUtils.SecretTypeToLabel | src/features/pincode/utils.ts:28-36 | "pincode" or "password" exactly as given, or with its first letter upper-cased exactly when asked; any other type throws "Invalid secret type: <type>" |
| PincodeUtils.CapitalizeFirst | src/features/pincode/utils.ts:28-36 | the label keeps its length and everything after the first letter; a lowercase ASCII first letter becomes its uppercase form, and any other string is unchanged |
| PincodeInput.GetPropsForInputType | src/features/pincode/PincodeInput.tsx:66-90 | both PIN types get numeric mode, placeholder 123456 and no autocomplete; the password types get text mode with new- or current-password; any other value throws |
| PincodeInput.KeepDigitsOfChar | src/features/pincode/PincodeInput.tsx:35 | one character is kept exactly when it is an ASCII digit; with `KeepDigitsAppend` this fixes the filter on every string |
| PincodeInput.KeepDigits | src/features/pincode/PincodeInput.tsx:35 | the result has only digits and is no longer than the input |
| PincodeInput.DropWhitespaceOfChar | src/features/pincode/PincodeInput.tsx:37 | one character is dropped exactly when it is ECMAScript whitespace; with `DropWhitespaceAppend` this fixes the filter on every string |
| PincodeInput.DropWhitespace | src/features/pincode/PincodeInput.tsx:37 | the result has no whitespace and is no longer than the input |
| PincodeInput.KeepDigitsAppend | src/features/pincode/PincodeInput.tsx:35 | filtering digits distributes over concatenation |
| PincodeInput.DropWhitespaceAppend | src/features/pincode/PincodeInput.tsx:37 | removing whitespace distributes over concatenation |
| PincodeInput.KeepDigitsOfDigits | src/features/pincode/PincodeInput.tsx:35 | a string of digits is left unchanged |
| PincodeInput.DropWhitespaceOfClean | src/features/pincode/PincodeInput.tsx:37 | a string without whitespace is left unchanged |
| PincodeInput.Sanitize | src/features/pincode/PincodeInput.tsx:33-38 | numeric mode yields at most six digits, taken from the first six code units; text mode yields no whitespace |
| PincodeInput.NumericSanitizeOnCodeUnits | src/features/pincode/PincodeInput.tsx:35 | numeric mode, in code units, is exactly the digit units among the first six code units of the value, as `substring(0, 6)` then the filter give them |
| PincodeInput.DigitsOfTakeUnits | src/features/pincode/PincodeInput.tsx:35 | keeping the digits of the whole characters within n code units equals keeping the digit units of the first n code units |
| PincodeInput.DigitUnitsOfString | src/features/pincode/PincodeInput.tsx:35 | filtering digits on characters and on code units agree |
| PincodeInput.NumericTruncatesBeforeFiltering | src/features/pincode/PincodeInput.tsx:35 | numeric mode keeps the digits among the first six code units, not the first six digits: a value of at most six units just loses its non-digits; otherwise the cut falls after the last whole character that fits and the digits after it are exactly what is lost |
| PincodeInput.SanitizeIdempotent | src/features/pincode/PincodeInput.tsx:33-38 | sanitising a sanitised value changes nothing |
| PincodeInput.HandleChange | src/features/pincode/PincodeInput.tsx:31-42 | an empty or absent value is passed on untouched; any other value is rewritten to its sanitised form first; the listener is called once with the value the target holds |
| Tips.ActiveTips | src/features/home/Tips.ts:38-39 | six desktop tips under Electron, seven on the web, the desktop tips first |
| Tips.DailyTip | src/features/home/Tips.ts:38-42 | the tip is one of the active list; on a day before the list runs out it is the tip at that position (with `DailyTipPeriodic`, this fixes every day) |
| Tips.WebTipsExtendDesktopTips | src/features/home/Tips.ts:30-36 | the web list is the desktop list plus one tip |
| Tips.DailyTipPeriodic | src/features/home/Tips.ts:38-42 | days a list length apart show the same tip |
| Tips.EveryTipIsShown | src/features/home/Tips.ts:38-42 | every tip of the active list is shown on some day of a 31-day month |

## Left out

- The saga orchestration (`sendToken`, `fetchValidators`, `createMonitoredSaga`), RPC calls, contract
  encoding by `populateTransaction`, logging and React rendering are not modelled. Contract calls are
  kept as symbolic `SendToken.ContractCall` values.
- `src/consts`, `src/currency`, `src/features/types`, `src/features/validators/types`, the storage
  provider, encryption and the amount validators are not part of this model. The caps, the
  electable-seat count and the foreign helpers are parameters.
- BigNumber amounts, capacities and votes are unbounded naturals, not decimal strings. Formatting of
  `toString()` is not modelled.
- SendToken.CreateSendTx: the signer's rejection is a `Failure` of the `sign` parameter; what makes it
  reject (a Ledger prompt, a locked account) is not part of this model.
- SendToken.GetTokenTransferTx: the unsupported-currency message omits the interpolated currency.
- SendToken.GetPlaceholderTx: the unsupported-type message omits the interpolated type.
- PincodeInput.GetPropsForInputType: the unsupported-type message omits the interpolated number.
- Validators.GetValidatorGroupCapacity: "Division by zero" stands in for the error ethers' `BigNumber.div`
  raises on a zero divisor; `ApplyVotes` and `FetchValidatorGroupInfo` pass on the same stand-in.
- Validators.ApplyVotes: the TypeError texts a JavaScript engine raises for a missing group or missing
  votes are stand-ins.
- JavaScript prototype keys such as `toString` do not make a hash look present in the transaction map or
  the groups record.
- Integer-like object keys, which JavaScript enumerates before other keys, are not modelled. Hashes and
  addresses are `0x` strings.
- WalletSlice.SetAddressCheck: an out-of-enum signer type is represented by `None`.
- WalletSlice.SetAddressCheck: the type message reports the address, as the source does.
- WalletStorage.WalletStore.SaveWallet: whether `setItem` throws is the parameter `setItemThrows`, since
  the storage provider is not part of this model; its `override` argument is not modelled, since the guard
  has already decided.
- WalletStorage.WalletStore.RemoveWallet: a storage error, which the source swallows, is not modelled.
- WalletConnect.Reduce: payloads typed `any` are opaque strings.
- PincodeInput.DropWhitespace works on characters. Every `\s` character lies in the Basic Multilingual
  Plane, and a surrogate half is never whitespace, so this agrees with the code-unit filter.
- PincodeInput.Sanitize: numeric mode cuts at whole characters rather than at six code units. The half
  surrogate `substring` may leave is not a digit, so the digits are the same
  (`NumericSanitizeOnCodeUnits`).
- Addresses.ShortenAddress and Addresses.TrimLeading0x count characters. The prefixes they cut are ASCII,
  which is one code unit per character.
- Validators.Grouped and Validators.AddValidator carry no contract of their own. Their properties are the
  lemmas `GroupedKeys`, `GroupedShape`, `GroupedMembership`, `GroupedMemberRecord` and `AddValidatorMembers`.
