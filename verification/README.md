# Centile core, modelled in Dafny

Centile is a crypto dashboard web application. A user signs in, through Google, through Discord or with an Ethereum wallet ("Sign-In with Ethereum"). They then arrange cards on named dashboards: price charts, calculators, currency converters, coin tables and a wBAN reserve summary. This project models the deterministic logic at the core of the application and proves properties of it:

- **Dashboard and card router** (`UiRouter`, `ui_router.dfy`):
  - the `slugify` normaliser and the collision suffix for dashboard slugs;
  - the ownership predicate;
  - the scan that collects the currency ids a dashboard's cards need;
  - the decision logic of the `createCard`, `createDashboard`, `deleteCards`, `reorderCards` and `renameDashboard` mutations. This covers the authorisation and not-found errors, the choice of `xOrder`, and which repository writes happen with which arguments.
- **Authentication** (`Auth`, `auth.dfy`):
  - the user id derived from an Ethereum address, proved equal to the version-4 UUID that section 4.4 of RFC 4122 builds from the first 16 octets of the address's SHA-256 digest;
  - the CSRF nonce taken from the Auth.js cookie, and `authorize`;
  - the list of sign-in providers shown on the sign-in page;
  - the `session` and `jwt` callbacks, and the custom JWT `encode` that turns Ethereum sign-ins into database sessions.
- **CoinMarketCap router** (`CmcRouter`, `cmc_router.dfy`): the request URLs, the merge of one quotes response per convert currency, the failure rules of the global-metrics query, and the paging offset of the coin list.
- **Add-card dialog** (`AddCard`, `add_card.dfy`):
  - the form schema and default values;
  - validation of the form;
  - the three ways a submission becomes a `createCard` request;
  - the selection state of the dialog;
  - the stable ordering of the inputs.
- **wBAN summary card** (`WbanSummary`, `wban_summary.dfy`): the accounts queried, how the status flags of the card's two queries combine, and each network's row with its warning.
- **Navigation bar** (`Navbar`, `navbar.dfy`): the active route, the icons, and which parts of the bar are shown.

Two modules are shared by the others. `Wrappers` (`wrappers.dfy`) holds `Option` and `Result`. `Ascii` (`ascii.dfy`) holds the JavaScript string operations the core relies on, restricted to ASCII:
- `toLowerCase`;
- `split` and `join` on one character;
- `toString` in bases 10 and 16, `parseInt`, and `Buffer.toString("hex")`.

Foreign calls become parameters:
- each repository (database) function: a handler takes the repository's answers as arguments and returns the list of repository calls it makes, in program order;
- `fetch` and `Response.json()`;
- SHA-256 (any function from strings to 32-byte digests);
- `crypto.randomUUID()`, `Date.now()`;
- Sign-In with Ethereum message parsing and verification;
- the session adapter and the default JWT encoder.

## Model

| member | source | states |
|---|---|---|
| UiRouter.IsOwner | src/server/trpc/api/ui/router.ts:28-36 | The viewer owns `username`'s dashboards iff there is a session and its user's username is `username`. |
| UiRouter.Slugify | src/server/trpc/api/ui/router.ts:361-374 | A slug consists only of `a-z`, `0-9` and `-`, and never contains two hyphens in a row. |
| UiRouter.SlugifyKeepsAlnums | src/server/trpc/api/ui/router.ts:361-374 | A slug keeps exactly the letters and digits of the lower-cased title, in order; nothing else survives except hyphens. |
| UiRouter.SlugifyAlnumIdentity | src/server/trpc/api/ui/router.ts:361-374 | A title made only of lower-case letters and digits is its own slug. |
| UiRouter.CollapseWhitespace | src/server/trpc/api/ui/router.ts:368 | After `replace(/\s+/g, " ")` no two whitespace characters are adjacent, every whitespace is a space, slug-source characters stay slug-source, and a leading character maps to itself or a space. |
| UiRouter.CollapseIdempotent | src/server/trpc/api/ui/router.ts:368-370 | The second whitespace collapse changes nothing: collapsing is idempotent. |
| UiRouter.SlugifyNotIdempotent | src/server/trpc/api/ui/router.ts:361-374 | A hyphen is removed as a non-alphanumeric character, so `slugify` is not idempotent: for any two words `a`, `b` of lower-case letters and digits, "a b" gives "a-b", and "a-b" gives "ab". |
| UiRouter.SlugifyTrailingHyphen | src/server/trpc/api/ui/router.ts:361-374 | Trimming happens before filtering, so for any word `w` of lower-case letters and digits, `w` + " !" becomes `w` + "-": the slug can end in a hyphen. |
| UiRouter.AddRandomStringToSlug | src/server/trpc/api/ui/router.ts:376-379 | The result is the slug, a hyphen, then the first four characters of the UUID, and nothing else. |
| UiRouter.SuffixedSlug | src/server/trpc/api/ui/router.ts:376-379 | A suffixed slug never equals the slug it extends. With the lower-case hex digits `randomUUID` starts with, it still consists of slug characters. A slug that ends in a hyphen gets a doubled hyphen. |
| UiRouter.ResolveSlug | src/server/trpc/api/ui/router.ts:299-301 | An available slug is kept unchanged; an unavailable one gets the hyphen and the four UUID characters appended. |
| UiRouter.CurrencyIdsSources | src/server/trpc/api/ui/router.ts:105-127 | An id is collected iff it is the value of a `calculator_currency_id` input of a calculator card, or of a `currency_currency_id_base`/`_quote` input of a currency card, where that card has values. |
| UiRouter.CurrencyIdsAppend | src/server/trpc/api/ui/router.ts:106 | Collection follows card order: the ids of a concatenation of card lists are the concatenation of their ids. |
| UiRouter.OtherCardsContributeNothing | src/server/trpc/api/ui/router.ts:107-126 | Cards of other types, and cards without values, contribute no ids. |
| UiRouter.CollectCardCurrencyIds | src/server/trpc/api/ui/router.ts:107-126 | The per-card `forEach`/`push` loops produce the card's ids as the reference definition gives them. |
| UiRouter.CollectCurrencyIds | src/server/trpc/api/ui/router.ts:105-127 | The whole scan produces the reference list of ids, in card order then value order. |
| UiRouter.GetDashboards | src/server/trpc/api/ui/router.ts:60-78 | The repository is asked once, with the ownership flag, and its answer is returned together with that flag. |
| UiRouter.GetCardsPlan | src/server/trpc/api/ui/router.ts:86-129 | Cards and dashboard are read with the viewer's ownership flag. The ids passed on are exactly those of the currency sources. |
| UiRouter.ReadsAskAsOwnerOnlyForOwner | src/server/trpc/api/ui/router.ts:28-103 | `getDashboards` and both reads of `getCards` pass the same ownership flag, which holds iff the viewer is signed in as `username`; an anonymous viewer never reads as owner. |
| UiRouter.SelectCardXOrderDefined | src/server/trpc/api/ui/router.ts:193-208 | An explicit `xOrder` wins. Otherwise "first" gives 0, and anything else gives the maximum plus 1. The result is always defined, so the `BAD_REQUEST` guard is unreachable. |
| UiRouter.CreateCard | src/server/trpc/api/ui/router.ts:172-231 | Without a session the result is `UNAUTHORIZED` with no repository call. A missing dashboard gives `NOT_FOUND` after the one lookup. The result is never `BAD_REQUEST`, and it succeeds iff both session and dashboard exist. |
| UiRouter.CreateCardWrites | src/server/trpc/api/ui/router.ts:180-225 | On success the calls are exactly, in order: the dashboard lookup as owner, the maximum read iff it is needed, the card insert at the chosen position, and last the value write iff there are values. Each value row is tagged with the new card id and otherwise unchanged. |
| UiRouter.CreateDashboard | src/server/trpc/api/ui/router.ts:264-316 | A title whose JavaScript length is outside 2..32 is rejected before anything else; no session gives `UNAUTHORIZED`. On success the slug is the title's slug, suffixed when taken, and the insert uses the given `xOrder` or the maximum plus 1. |
| UiRouter.Utf16LengthIsCount | src/server/trpc/api/ui/router.ts:267-274 | The title length the schema checks counts UTF-16 code units; it equals the character count iff no character lies above U+FFFF. |
| UiRouter.AstralCharIsValidTitle | src/server/trpc/api/ui/router.ts:267-274 | A title of one character above U+FFFF, such as an emoji, passes the two-character minimum. |
| UiRouter.DeleteCards | src/server/trpc/api/ui/router.ts:232-247 | The call fails iff there is no session, and then with `UNAUTHORIZED` and no repository call; otherwise it makes exactly one delete, of the given ids, and returns true. |
| UiRouter.ReorderCards | src/server/trpc/api/ui/router.ts:248-263 | The call fails iff there is no session, and then with `UNAUTHORIZED` and no repository call; otherwise it makes exactly one reorder, with the given positions, and returns true. |
| UiRouter.RenameDashboard | src/server/trpc/api/ui/router.ts:317-348 | The call fails iff the title is out of bounds or there is no session, with `BAD_REQUEST` taking precedence and no repository call; otherwise it makes exactly one rename, of the given dashboard to the given title, and returns the repository's answer. |
| UiRouter.SignedInMutationsAreScoped | src/server/trpc/api/ui/router.ts:172-347 | With a session, every mutation that passes validation calls the repository, and every call is scoped to the session user: the user ids it passes are the user's, the dashboard it looks up is the user's own read as owner, and the dashboard ids it passes are that dashboard's. |
| UiRouter.AnonymousMutationsTouchNothing | src/server/trpc/api/ui/router.ts:172-347 | Without a session no mutation calls the repository, and every mutation whose input passes validation fails with `UNAUTHORIZED`. |
| Auth.VersionMask | src/server/auth/index.ts:208-211 | `(x & 0x0fff) \| 0x4000` equals `0x4000 + x mod 0x1000`: the top nibble becomes 4 and the rest is kept. |
| Auth.VariantMask | src/server/auth/index.ts:213-216 | `(y & 0x3f) \| 0x80` equals `0x80 + y mod 0x40`: the top two bits become `10` and the rest is kept. |
| Auth.UuidMatchesRfc4122 | src/server/auth/index.ts:194-222 | The id built by slicing the digest's hex is exactly the section 3 string of the version-4 UUID that section 4.4 of RFC 4122 builds from the digest's first 16 octets. |
| Auth.UuidGroupsShape | src/server/auth/index.ts:202-219 | The id has 36 characters and splits at `-` into five lower-case hex groups of 8, 4, 4, 4 and 12 digits. |
| Auth.UuidVersionAndVariant | src/server/auth/index.ts:208-216 | The third group starts with `4`, and the fourth starts with `8`, `9`, `a` or `b`. |
| Auth.UuidCopiesDigestHex | src/server/auth/index.ts:204-218 | Groups 1, 2 and 5 are hex ranges [0,8), [8,12) and [20,32) of the digest. The digits after the version and variant digits are ranges [13,16) and [18,20). |
| Auth.UuidIgnoresAddressCase | src/server/auth/index.ts:194-199 | Addresses that differ only in ASCII letter case get the same id. |
| Auth.CsrfNonce | src/server/auth/index.ts:62-69 | A nonce exists iff the cookie is present, non-empty, and does not start with `\|`. The nonce is then the non-empty prefix before the first `\|`, or the whole cookie. |
| Auth.CsrfNonceOfCookie | src/server/auth/index.ts:62-68 | For a cookie `token\|hash`, the nonce is `token`. |
| Auth.Authorize | src/server/auth/index.ts:56-114 | Without a nonce or a verified message the result is null and the users table is untouched. A returned user has the id derived from the verified address and is stored under it. Only that row may be added, and existing rows are unchanged. |
| Auth.AuthorizeCreates | src/server/auth/index.ts:95-104 | A first sign-in creates and returns the user named after the address, with the address as its Ethereum address. |
| Auth.AuthorizeExisting | src/server/auth/index.ts:95-110 | A returning user is returned as stored, and the table does not change. |
| Auth.AuthorizeIgnoresAddressCase | src/server/auth/index.ts:92-110 | Signing in again with the same address in another letter case returns the user the first sign-in created, and adds nothing. |
| Auth.ConfiguredProviders | src/server/auth/index.ts:33-116 | Google is listed iff both its settings are truthy, and the same holds for Discord. The Ethereum credentials provider is always last. |
| Auth.AuthProviderMapMembers | src/server/auth/index.ts:181-190 | An `{id, name}` pair is listed iff some provider describes itself so, whether as an object or a factory, and its id is not `credentials`. |
| Auth.ConfiguredProviderMap | src/server/auth/index.ts:33-39 | The sign-in page lists Google, then Discord, each only when configured. It never lists the credentials provider. |
| Auth.SessionCallback | src/server/auth/index.ts:135-143 | The session's `user.id` becomes the database user's id and every other field is kept. The session is unchanged iff it already had that id. |
| Auth.SessionCallbackOverwrites | src/server/auth/index.ts:135-143 | Applying the callback twice equals applying it with the later user id. |
| Auth.JwtCallback | src/server/auth/index.ts:144-149 | The token is marked `credentials` iff it already was or the sign-in used the `credentials` provider. Nothing else changes. |
| Auth.Encode | src/server/auth/index.ts:152-173 | An unmarked or absent token goes to the default encoder. A marked token without a truthy `sub` fails with "No user ID". Otherwise a session row for `sub`, expiring 30 days after now, is offered to the adapter: if it is created, the fresh token is returned with that row, and if not, the call fails with "Failed to create session". |
| Auth.EthereumSignInUsesDatabaseSession | src/server/auth/index.ts:144-173 | After an Ethereum sign-in the token always becomes a 30-day database session (or a failure). After another sign-in of an unmarked token, the default encoder runs. |
| Ascii.JoinSplit | src/server/auth/index.ts:66 | Joining the pieces of `split` gives back the string. |
| Ascii.SplitJoin | src/server/trpc/api/routers/cmc/router.ts:20 | Splitting a `join` of separator-free pieces gives back the pieces. |
| Ascii.SplitFirst | src/server/auth/index.ts:66-68 | The first piece of `split` is the text before the first separator. |
| Ascii.ParseTwoBytesHex | src/server/auth/index.ts:209 | `parseInt` of the hex of two bytes is their big-endian 16-bit value. |
| Ascii.BytesHexSlice | src/server/auth/index.ts:204-218 | A range of the hex string is the hex of the matching byte range. |
| Ascii.ParseDecimalRoundTrip | src/server/trpc/api/routers/cmc/router.ts:20 | Reading back an integer rendered in base 10 gives the integer. |
| CmcRouter.IdsParamRoundTrip | src/server/trpc/api/routers/cmc/router.ts:20 | The joined ids split back, in input order, into one base-10 rendering per id, and each parses to its id. |
| CmcRouter.CryptoInfoUrls | src/server/trpc/api/routers/cmc/router.ts:12-24 | There is one request per convert currency (`["USD"]` by default), in order, each carrying all ids. |
| CmcRouter.DefaultConvertIsUsd | src/server/trpc/api/routers/cmc/router.ts:16-24 | Without `convert` there is exactly one request, asking for US dollars. |
| CmcRouter.MergeQuoteSources | src/server/trpc/api/routers/cmc/router.ts:43-49 | A currency is in a coin's merged quote iff some response quotes it. Its value is the one from the last response that does. |
| CmcRouter.MergeResponses | src/server/trpc/api/routers/cmc/router.ts:40-55 | The loops fail iff some coin of the first response is missing from a response. Otherwise the result has exactly the first response's coins, each with the first response's fields and its quotes merged over all responses. |
| CmcRouter.GetCryptoInfos | src/server/trpc/api/routers/cmc/router.ts:19-56 | An unparsable body, then a body without `data`, then an empty `convert` list, then a first-response coin missing from some response each make the query throw. Otherwise the query succeeds with the merge of all responses. |
| CmcRouter.GetGlobalMetrics | src/server/trpc/api/routers/cmc/router.ts:63-99 | A failed fear-and-greed response throws first, then a failed metrics response, then an unparsable body, then a metrics body without `data` or `data.quote`. Otherwise the query succeeds with the fear-and-greed body's `data` and the two dominance figures; the totals for `convert` are present iff that currency is quoted. |
| CmcRouter.CoinListStart | src/server/trpc/api/routers/cmc/router.ts:109-110 | `start` is at least 1 and is 1 modulo 100. It recovers the page, with page 0 read as 1. |
| CmcRouter.CoinListPagesAdjacent | src/server/trpc/api/routers/cmc/router.ts:109-111 | Consecutive pages ask for adjacent windows of 100 coins. |
| CmcRouter.CoinListStartInjective | src/server/trpc/api/routers/cmc/router.ts:105-110 | Two pages with the same start are equal or are both 0 or 1, the two values `page || 1` maps to the first window. |
| CmcRouter.GetCoinList | src/server/trpc/api/routers/cmc/router.ts:101-128 | An input the schema rejects gives `BAD_REQUEST`. Otherwise an unparsable body throws the parse error even for a failed response, a parsed failed response throws its status, and an ok parsed response succeeds with `coin_list` set to the body's `data`. |
| CmcRouter.SchemaPage | src/server/trpc/api/routers/cmc/router.ts:105 | An explicit page is accepted iff it is positive; an omitted page is rejected when the default is checked by `.positive()` and otherwise becomes 0. |
| CmcRouter.OmittedPage | src/server/trpc/api/routers/cmc/router.ts:105-110 | An omitted page is either rejected (checked default) or fetches exactly what page 1 fetches. |
| CmcRouter.FailureReportsDiffer | src/server/trpc/api/routers/cmc/router.ts:80-123 | For a failed response with a non-JSON body, the coin list reports the parse error but the metrics query reports the status. |
| AddCard.SchemaKeys | src/components/cards/_utils/add-card.tsx:87-92 | The schema has exactly one field per input id, and each field requires at least one character. |
| AddCard.SchemaRules | src/components/cards/_utils/add-card.tsx:88-90 | Each field's rule and message are those of the last input with that id. |
| AddCard.Defaults | src/components/cards/_utils/add-card.tsx:85-92 | There is one default per input id and every default is `""`. |
| AddCard.ParseForm | src/components/cards/_utils/add-card.tsx:93-100 | The form passes iff every input id has a non-empty value. It then yields one entry per field, in declaration order, with the submitted value. |
| AddCard.DefaultsFail | src/components/cards/_utils/add-card.tsx:85-100 | A fresh form with at least one input cannot be submitted. |
| AddCard.FindInput | src/components/cards/_utils/add-card.tsx:122 | The first input with the id is found, and none is found iff no input has the id. |
| AddCard.OnSubmit | src/components/cards/_utils/add-card.tsx:116-130 | Nothing is sent iff no card type is selected. Otherwise there is one value per entry, with its key and value, positioned by the matching input's `xOrder` or 0. |
| AddCard.ValidatedSubmission | src/components/cards/_utils/add-card.tsx:116-124 | A validated form sends exactly one value per input id, each positioned by an input with that id. |
| AddCard.OnSubmitNew | src/components/cards/_utils/add-card.tsx:132-142 | Every value's `xOrder` becomes 0 and nothing else changes. The card type id is `""` when none is selected. |
| AddCard.OnSubmitNewIdempotent | src/components/cards/_utils/add-card.tsx:132-142 | Resetting the positions of already-reset values gives the same request. |
| AddCard.OnSubmitWithNoValues | src/components/cards/_utils/add-card.tsx:144-152 | An empty value list is sent iff a card type is selected. |
| AddCard.EmptySubmissionsAgree | src/components/cards/_utils/add-card.tsx:116-152 | With no entries, `onSubmit` sends what `onSubmitWithNoValues` sends. |
| AddCard.Step | src/components/cards/_utils/add-card.tsx:156-355 | Opening and closing through the trigger or the overlay keep the selection. While the dialog is closed, Back, a card-type choice and Escape change nothing. A choice while a card type is selected changes nothing, because the command list is not mounted then. While it is open: Back clears the selection; a choice with nothing selected selects the first loaded entry with the chosen id, if any; Escape clears a selection, or closes the dialog when nothing is selected. A successful create closes the dialog and clears the selection. |
| AddCard.FindCardType | src/components/cards/_utils/add-card.tsx:345-351 | The result is the first entry with the id, and none iff no entry has it. |
| AddCard.BackUndoesSelect | src/components/cards/_utils/add-card.tsx:268-355 | Going back right after selecting returns to the prior state. |
| AddCard.EscapeTwiceCloses | src/components/cards/_utils/add-card.tsx:178-243 | From an open dialog, two Escape presses close it with nothing selected. |
| AddCard.ReopenKeepsSelection | src/components/cards/_utils/add-card.tsx:156-243 | Closing the dialog through the overlay, pressing Escape and reopening it returns to the same selection. |
| AddCard.StepKeepsSelectionFrom | src/components/cards/_utils/add-card.tsx:348-355 | Every event keeps the selection among the loaded card types. |
| AddCard.SortByXOrderCorrect | src/components/cards/_utils/add-card.tsx:425 | The shown inputs are sorted by `xOrder`, and inputs with equal `xOrder` keep their order, which also makes the result a permutation. |
| AddCard.ShownFields | src/components/cards/_utils/add-card.tsx:424-434 | Fields appear in sorted order, and only the first is marked `data-first`. |
| AddCard.FirstShownIsSmallest | src/components/cards/_utils/add-card.tsx:425-434 | The marked field has the smallest `xOrder`. |
| WbanSummary.QueryAccounts | src/components/cards/wban-summary/card.tsx:21-32 | The query lists every cold wallet in network order, then every hot wallet: twice the number of networks, none marked as mine. |
| WbanSummary.QueryAccountsCoverWallets | src/components/cards/wban-summary/card.tsx:21-32 | An address is queried iff it is a cold or hot wallet of some network. |
| WbanSummary.Combine | src/components/cards/wban-summary/card.tsx:60-65 | Each card flag is the or of the two queries' flags. |
| WbanSummary.CombineLaws | src/components/cards/wban-summary/card.tsx:60-65 | The combination is symmetric and idempotent, and a settled query adds nothing. |
| WbanSummary.FindByAddress | src/components/cards/wban-summary/card.tsx:88-93 | The first balance record with the address is found, and none is found iff there is no data or no such record. |
| WbanSummary.NetworkRow | src/components/cards/wban-summary/card.tsx:87-221 | Missing balances, receivables and pending amounts are shown as 0. The warning holds iff the pending amount and the hot-wallet record are both known and pending exceeds the hot balance. |
| WbanSummary.Rows | src/components/cards/wban-summary/card.tsx:87-95 | There is one row per network, in network order, each the row of that network. |
| WbanSummary.WarningMatchesShownFigures | src/components/cards/wban-summary/card.tsx:186-193 | A warned row shows pending above the hot balance. An unwarned row with both figures known shows it at or below. |
| WbanSummary.NoWarningWithoutHotWallet | src/components/cards/wban-summary/card.tsx:171-193 | Without a balance record for the hot wallet, the row has no warning and shows a hot balance of 0, whatever the pending amount. |
| WbanSummary.RowsBeforeData | src/components/cards/wban-summary/card.tsx:87-95 | Before either query has answered, every row shows zero balances, zero pending and no warning. |
| WbanSummary.HasData | src/components/cards/wban-summary/card.tsx:66-67 | `hasData` holds iff both the balance data and the pending-withdrawal data are defined. |
| WbanSummary.WarningNeedsData | src/components/cards/wban-summary/card.tsx:66-95 | A row can warn only when `hasData` holds, since the warning needs a hot-wallet balance and a pending amount. |
| Navbar.FindIndex | src/components/navigation/navbar.tsx:29 | The result is the index of the first route whose `href` is the pathname, or -1 iff there is none. |
| Navbar.FinalIndexIsFindIndex | src/components/navigation/navbar.tsx:29-30 | The `>= 0` guard changes nothing. |
| Navbar.IconFor | src/components/navigation/navbar.tsx:54-59 | The icon is Banana for "banana", Calculator for "calculator", and the dashboard icon for anything else. |
| Navbar.View | src/components/navigation/navbar.tsx:35-86 | The loading and error blocks show independently. Links and underline show iff neither does. Each link keeps its route's target and label, and is active iff its `href` is the pathname. |
| Navbar.UnderlineMarksActiveLink | src/components/navigation/navbar.tsx:29-86 | The underline slot is -1 iff no link is active; otherwise it is the first active link. |
| Navbar.OneActiveLink | src/components/navigation/navbar.tsx:29-64 | With distinct hrefs, a link is active iff it is the underlined one. |

## Left out

- Repository (database) functions, `cleanAndSortArray`, `getCurrencies` and Redis are left out. They are I/O; handlers take their answers as parameters.
- `fetch`, `Promise.all` concurrency and `Response.json()` are parameters. A body is `None` when parsing fails. The order of concurrent requests is not modelled.
- SHA-256, `crypto.randomUUID()`, `Date.now()`, `decodeURI` and Sign-In with Ethereum parsing and verification are parameters. The CSRF cookie is taken after `decodeURI`.
- Auth.Authorize: exceptions thrown by the database (caught and turned into null in the source) are not modelled. The lookup after `createUser` always finds the new row, so the final null check never fires in the model.
- Auth.ConfiguredProviders: the ids and names of the Google and Discord providers ("google"/"Google", "discord"/"Discord") come from the next-auth provider modules, which are not part of this model. The same holds for the credentials provider's id "credentials".
- Auth.Encode: the default JWT encoder and the session adapter are parameters. The adapter is modelled as a yes/no answer to "was the session created".
- CmcRouter.GetCoinList: which zod version runs the schema is not recorded, so whether the default page 0 is checked by `.positive()` (zod 3) or passed on unchecked (zod 4) is the parameter `defaultIsChecked`. Fractional pages, which `.int()` rejects, are not modelled.
- CmcRouter.GetGlobalMetrics: a body that is JSON but not an object (such as `null`) is not modelled; a missing `data` or `data.quote` is.
- AddCard.OnSubmit: the entries follow the order the fields were declared in. JavaScript's `Object.entries` lists integer-like keys first, in ascending order; that reordering is not modelled.
- UiRouter.RenameDashboard: the `session.user.id === undefined` guard is not modelled, because a session's user always carries an id here. The `session` callback sets it (`Auth.SessionCallback`).
- CmcRouter.MergeResponses: the key order of `for ... in` is not modelled. The error records that some coin was missing, not which one.
- CmcRouter.IdsParamRoundTrip: it requires at least one id. With no ids the parameter is `""`, which splits into one empty piece (`IdsParamEmpty`).
- The API base URL comes from a constants module that is not part of this model, so it is a parameter.
- JavaScript numbers are modelled as follows:
  - card positions and ids are unbounded integers;
  - wBAN amounts are exact reals, with NaN left out;
  - fractional coin ids passed to `getCryptoInfos` are not modelled.
- Number formatting (`formatNumberTBMK`) and `useConditionalValue` are left out. Percentage widths and offsets of the navbar underline are also left out; only the slot index is kept.
- `toLowerCase`, `trim` and `\s` are modelled for ASCII only. Unicode case mapping and Unicode whitespace are left out.
- AddCard.ParseForm: zod's error objects are reduced to the list of messages, and react-hook-form's field state is not modelled.
- AddCard.ShownFields: `Array.prototype.sort` sorts the selected card type's `inputs` in place. The model returns a sorted copy, so the later effect of that mutation on `inputs.find` is left out. It only matters when two inputs share an id.
- Rendering, focus management, React hooks, tRPC and zod plumbing, styling and the other UI components are left out.
- `getDashboard`, `getCurrencies`, `getCardTypes` and `getUser` queries are left out. They only forward to the repository; `getDashboard` uses the same ownership flag as `getDashboards`.
