# Wallet decision logic in Dafny

This project models three small pieces of decision logic from a mobile
crypto wallet and its cloud functions. It proves the behaviour each piece
promises.

- **Recovery-phrase validation** (`src/utils/mnemonics.ts`). This checks a
  BIP-39 recovery phrase. Errors come in a fixed order: a missing phrase,
  then words outside the word list (the last one is reported), then too few
  words, then too many words, then a failed checksum. The file also has two
  string predicates: the shape of a derivation path, and whether the user
  has finished typing a word. Module `Mnemonics`.
- **Swap warnings** (`src/features/transactions/swap/validate.tsx`). This
  turns the swap form state into an ordered list of warnings. Each warning
  has a label, a severity and an action. The rules cover insufficient
  balance, router errors (no route versus any other error), an incomplete
  form, a price-impact band between 3% and 5%, and view-only accounts.
  `getSwapWarnings` builds its list by conditional pushes. It is the method
  `GetSwapWarnings`, proved equal to the rule-by-rule function
  `SwapWarnings`. Module `SwapValidate`.
- **MoonPay link signing** (`functions/src/signMoonpayLinkStaging.ts`).
  `serializeQueryParams` keeps the truthy values and joins
  `encodeURIComponent(key)=encodeURIComponent(value)` pairs with `&`. It is
  a method with a loop invariant tied to the function `QueryPairs`. The file
  also chooses the web or the default staging key pair, and appends the
  signature to the URL. Module `MoonpayLink`.
  `encodeURIComponent` (ECMA-262 section 19.2.6.5, percent-encoding per
  section 2.1 of RFC 3986) is modelled concretely in module `UriComponent`.
  So the fact that an encoded component holds no `&` and no `=` is proved,
  not assumed.

Two shared modules support these. `Text` holds JavaScript's `split` on one
character, `join` and `trim`, with their round-trip lemmas. `Wrappers` holds
`Option`, for `undefined`.

Some collaborators are not modelled:

- The BIP-39 word list, the checksum test and `normalizeTextInput` are
  arrow-typed fields of the `Mnemonics.Bip39` parameter. Every lemma holds
  for every choice of them.
- `new URL(url).search` is the parameter `urlSearch` of
  `SignMoonpayLink`. It returns `None` where the URL constructor throws.
- The base64 HMAC-SHA256 over that search part is the parameter
  `hmac(secret, search)`.
- The environment secrets are the `StagingSecrets` record.
- Percent and currency amounts are exact fractions. They are compared by
  cross-multiplication, as the SDK's `Fraction` does.

## Model

| member | source | states |
|---|---|---|
| Text.Split | src/utils/mnemonics.ts:21 | `split` on one character gives one piece more than the separator count, and no piece contains the separator |
| Text.JoinSplit | functions/src/signMoonpayLinkStaging.ts:19 | joining the pieces of a split gives back the original string |
| Text.SplitJoin | functions/src/signMoonpayLinkStaging.ts:19 | splitting a join of separator-free pieces gives back the pieces |
| Text.Join | functions/src/signMoonpayLinkStaging.ts:19 | `join` output is as long as the parts together plus one separator per gap |
| Text.JoinOccurrences | functions/src/signMoonpayLinkStaging.ts:19 | joining separator-free parts puts exactly one separator in each gap and nowhere else |
| Text.Trim | src/utils/mnemonics.ts:59 | `trim` returns the contiguous middle of the input: only whitespace before it and after it, and no whitespace at either end of it |
| Text.LeadingWhitespace | src/utils/mnemonics.ts:59 | the count of leading characters `trim` removes: all of them are whitespace and the next one is not |
| Text.TrailingWhitespace | src/utils/mnemonics.ts:59 | the count of trailing characters `trim` removes: all of them are whitespace and the one before them is not |
| Mnemonics.InvalidWords | src/utils/mnemonics.ts:24 | the filtered words are all phrase words outside the word list; the filter is empty iff every word is in the list |
| Mnemonics.ValidateSetOfWords | src/utils/mnemonics.ts:13-40 | an absent or empty phrase gives NotEnoughWords with isValidLength false and no word; otherwise isValidLength holds iff the word count is within [MIN, MAX]; invalidWord is set iff the error is InvalidWord; no error iff the phrase is present, every word is in the list and the length is valid |
| Mnemonics.LastOfInvalidWords | src/utils/mnemonics.ts:24-28 | the last element of the invalid-word filter is the last invalid word of the phrase |
| Mnemonics.InvalidWordTakesPrecedence | src/utils/mnemonics.ts:24-31 | any invalid word gives InvalidWord whatever the length, and the reported word is the last invalid one in phrase order |
| Mnemonics.LengthDecidesWhenAllWordsValid | src/utils/mnemonics.ts:33-39 | with every word valid: fewer than MIN words gives NotEnoughWords, more than MAX gives TooManyWords, otherwise no error |
| Mnemonics.ValidateMnemonic | src/utils/mnemonics.ts:43-55 | exactly one of error and validMnemonic is set; validMnemonic is the normalised input |
| Mnemonics.WordSetErrorsPassThrough | src/utils/mnemonics.ts:48-49 | a word-set error and its invalid word pass through unchanged |
| Mnemonics.ChecksumFailureIsInvalidPhrase | src/utils/mnemonics.ts:51-52 | a valid word set with a failing checksum gives InvalidPhrase and nothing else |
| Mnemonics.AcceptedIff | src/utils/mnemonics.ts:48-54 | a phrase is accepted iff it is present, all words are in the list, the length is valid and the checksum holds |
| Mnemonics.IsValidDerivationPath | src/utils/mnemonics.ts:57-62 | an accepted path has exactly five '/' after trimming |
| Mnemonics.AcceptedPathShape | src/utils/mnemonics.ts:57-62 | an accepted path trims to "m" and five more '/'-free segments joined by '/' |
| Mnemonics.PathOfSegmentsAccepted | src/utils/mnemonics.ts:57-62 | conversely, a non-empty path that trims to six '/'-free segments starting with "m" is accepted |
| Mnemonics.EthereumPathAccepted | src/utils/mnemonics.ts:57-62 | m/44'/60'/0'/0/0 is accepted |
| Mnemonics.UserFinishedTypingWord | src/utils/mnemonics.ts:65-69 | an absent or empty phrase never counts as a finished word |
| Mnemonics.FinishedTypingIffEmptyLastWord | src/utils/mnemonics.ts:65-69 | for a non-empty phrase: finished iff the last space-separated piece is empty, that is, the phrase ends with a space |
| SwapValidate.IsFormIncomplete | src/features/transactions/swap/validate.tsx:120-133 | incomplete iff the input currency, the output currency, or the amount on the exact-currency side is missing |
| SwapValidate.RuleWarnings | src/features/transactions/swap/validate.tsx:31-115 | each rule adds at most one warning, and only labels of its own rank |
| SwapValidate.GetSwapWarnings | src/features/transactions/swap/validate.tsx:25-118 | the pushes build exactly the rule-by-rule list: funds, router, form, price impact, view-only |
| SwapValidate.OnlyOwnRuleDecides | src/features/transactions/swap/validate.tsx:28-117 | the warning a label gets in the whole list is the one its own rule produces; rules do not interfere |
| SwapValidate.InsufficientFundsIff | src/features/transactions/swap/validate.tsx:32-44 | InsufficientFunds (None / DisableReview) appears iff the input amount and balance are both present and balance < amount |
| SwapValidate.RouterWarningIff | src/features/transactions/swap/validate.tsx:47-74 | a trade error gives LowLiquidity when its code is "no route", else SwapRouterError, both Medium / DisableReview; no trade error gives neither |
| SwapValidate.FormIncompleteIff | src/features/transactions/swap/validate.tsx:79-85 | FormIncomplete (None / DisableReview) appears iff the form is incomplete |
| SwapValidate.PriceImpactBands | src/features/transactions/swap/validate.tsx:88-105 | for impact n/d with d > 0: nothing up to 3% inclusive, PriceImpactMedium/Medium strictly between 3% and 5%, PriceImpactHigh/High from 5% inclusive, always WarnBeforeSubmit |
| SwapValidate.NoTradeNoPriceImpactWarning | src/features/transactions/swap/validate.tsx:29 | without a trade there is no price-impact warning |
| SwapValidate.PriceImpactAtThresholds | src/features/transactions/swap/validate.tsx:10-11 | an impact of exactly 3% warns nothing; exactly 5% warns High |
| SwapValidate.ViewOnlyAccountIff | src/features/transactions/swap/validate.tsx:107-115 | ViewOnlyAccount (Medium / DisableSubmit) appears iff the account is present and read-only |
| SwapValidate.WarningsOrdered | src/features/transactions/swap/validate.tsx:28-117 | warnings come in strict rule order, so no label repeats and there are at most five |
| UriComponent.EncodeUriComponent | functions/src/signMoonpayLinkStaging.ts:16 | output has only unreserved characters, '%' and upper-case hex digits; it is empty iff the input is; it is never shorter |
| UriComponent.NoDelimiters | functions/src/signMoonpayLinkStaging.ts:16 | an encoded component contains neither '&' nor '=' |
| UriComponent.UnreservedUnchanged | functions/src/signMoonpayLinkStaging.ts:16 | a string of unreserved characters encodes to itself |
| UriComponent.ReservedEscaped | functions/src/signMoonpayLinkStaging.ts:16 | a string with a reserved character grows by at least two characters |
| MoonpayLink.TruthyIff | functions/src/signMoonpayLinkStaging.ts:15 | a value is skipped iff it is undefined, null, "", false or 0; a kept value never converts to "" |
| MoonpayLink.Decimal | functions/src/signMoonpayLinkStaging.ts:16 | an integer prints as decimal digits without leading zeros that denote the integer |
| MoonpayLink.ToJsString | functions/src/signMoonpayLinkStaging.ts:16 | the string conversion applied before encoding: a string is itself, an integer its decimal form (with '-' when negative) that reads back as the same number |
| MoonpayLink.LinkParams | functions/src/signMoonpayLinkStaging.ts:55-66 | ten parameters with distinct keys, the first being apiKey with the chosen key or "" when it is unset |
| MoonpayLink.QueryPairs | functions/src/signMoonpayLinkStaging.ts:13-18 | one pair per truthy entry |
| MoonpayLink.SerializeQueryParams | functions/src/signMoonpayLinkStaging.ts:12-20 | the loop's result is the truthy entries' pairs, in enumeration order, joined by '&' |
| MoonpayLink.QueryPairShape | functions/src/signMoonpayLinkStaging.ts:16 | each pair splits on '=' into exactly the encoded key and the encoded value, and contains no '&' |
| MoonpayLink.PairOfEntry | functions/src/signMoonpayLinkStaging.ts:14-17 | a truthy entry at position k gives the pair at the position counting the truthy entries before it |
| MoonpayLink.EmptyIffNoTruthyValue | functions/src/signMoonpayLinkStaging.ts:13-19 | the query string is "" iff no value is truthy |
| MoonpayLink.SplitGivesPairs | functions/src/signMoonpayLinkStaging.ts:13-19 | with a truthy value, splitting the query on '&' gives back exactly the pairs, one per truthy entry |
| MoonpayLink.NoOuterSeparator | functions/src/signMoonpayLinkStaging.ts:19 | a non-empty query string neither starts nor ends with '&' |
| MoonpayLink.SelectStagingKeys | functions/src/signMoonpayLinkStaging.ts:36-40 | platform "web" selects the web publishable key and web secret; anything else selects the default staging pair |
| MoonpayLink.ApiKeyComesFirst | functions/src/signMoonpayLinkStaging.ts:54-56 | a non-empty API key is the link's first pair, "apiKey=" followed by the encoded key |
| MoonpayLink.SignedUrl | functions/src/signMoonpayLinkStaging.ts:76 | the signed URL has the unsigned URL as a prefix; the rest splits on '&' into "" and "signature=" followed by the encoded signature |
| MoonpayLink.SignMoonpayLink | functions/src/signMoonpayLinkStaging.ts:54-76 | no link when the URL does not parse (where the URL constructor throws); otherwise the staging URL, '?', and the serialised parameters (API key first), followed by the signature of the URL's search part under the secret chosen by platform |

## Left out

- The Google Drive backup helper (`apps/mobile/android/app/src/main/java/com/uniswap/GoogleDriveApiHelper.kt`) is not modelled. It is a network client over the Google Sign-In and Drive SDKs, with coroutine fan-out and an activity-result callback. Its behaviour is decided by the remote store, not by local logic.
- The dapp request watcher saga and the UI and navigation files are not modelled. They hold no stated logic beyond calls into unseen code.
- The English BIP-39 word list, the checksum test and `normalizeTextInput` are not modelled. Their code is not part of this model, so they are parameters (`Mnemonics.Bip39`).
- `src/constants/accounts` is not part of this model. `MNEMONIC_LENGTH_MIN` and `MNEMONIC_LENGTH_MAX` are taken as 12 and 24, the BIP-39 range. Every lemma is stated in terms of the two constants.
- `src/features/routing/routingApi` is not part of this model. The value of `SWAP_NO_ROUTE_ERROR` is abstracted: an error code is either that code (`SwapNoRouteError`) or another one.
- `src/components/modals/types` and `src/features/wallet/accounts/types` are not part of this model. Only the labels, severities, actions and account kinds these rules use are declared. Every non-read-only account kind is `SignerMnemonic`.
- Translated titles and messages, `formatPriceImpact` and currency symbols are not modelled. They are text for display only.
- Any currency checks inside the SDK's amount comparisons are not modelled. The model compares the fractions only.
- SwapValidate.PriceImpactBands: stated for positive denominators only. The rule itself uses the SDK's cross-multiplication for every fraction.
- Query values that are arrays, objects or non-integer numbers are not modelled. `QueryValue` covers undefined, null, strings, booleans and integers. Integers beyond 2^53 are not rounded as JavaScript numbers would be.
- The parameter object is given as a sequence in `for ... in` enumeration order. Integer-like keys and inherited properties, which change that order, do not occur among the link's fixed keys.
- A `platform` query value that is an array is not modelled. It is an optional string.
- HMAC-SHA256 (RFC 2104), `new URL(url).search`, CORS, the Firebase request and response, environment reads and logging are not modelled. They are foreign crypto and I/O, represented by the `hmac` and `urlSearch` parameters and the `StagingSecrets` record.
- MoonpayLink.SignMoonpayLink: URL parsing is the parameter `urlSearch`, so the model returns no link exactly when that parameter rejects the URL. The model does not itself establish which strings fail to parse. For example, it does not prove that the "undefined?..." built when the staging URL is unset is rejected.
- The URIError that `encodeURIComponent` raises on a lone surrogate is not modelled. It cannot arise here, because Dafny characters are Unicode scalar values.
