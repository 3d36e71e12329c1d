# KasKu: a Dafny model of the transaction bot

KasKu records personal income and expenses from chat messages. Its core has three parts:

- **Telegram webhook.** It reads a chat update and greets on `/start`. Any other text goes to the classify endpoint together with the sender's id. The endpoint's answer is turned into a chat reply. The webhook always acknowledges with status 200.
- **Classify endpoint.** It takes the language model's reply and removes a Markdown code fence. It then cuts out the bracketed JSON payload and parses it. The result is treated as a list of items, and every item is validated. One transaction row is built per item and the rows are stored. The endpoint answers with a confirmation message that states the expense and income totals in Indonesian number format ("25.000").
- **Dashboard page.** It computes the income and expense totals and the sums per category name over the stored transactions, and shows the ten most recent ones.

The model is written in Dafny, one module per concern:

| module | file | what it holds |
|---|---|---|
| `Wrappers` | wrappers.dfy | `Option` and `Result` |
| `JsText` | jstext.dfy | `trim()`, `indexOf`, `lastIndexOf`, `slice` and prefix/suffix tests |
| `Locale` | locale.dfy | `String(n)` and `toLocaleString('id-ID')` for natural numbers |
| `JsValues` | jsvalues.dfy | parsed JSON, truthiness, `== null`, `Number(...)`, `String(...)` |
| `Normalizer` | normalizer.dfy | the fence removal and payload cut of the classify endpoint |
| `Summary` | summary.dfy | the confirmation message |
| `Classify` | classify.dfy | the classify endpoint after the model call |
| `Telegram` | telegram.dfy | the webhook |
| `Dashboard` | dashboard.dfy | the page's statistics and recent list |
| `Scenarios` | scenarios.dfy | end-to-end consequences for concrete messages |

Outside calls are parameters, so everything in the model is a pure function:

- `JSON.parse` is a function `parse: string -> Result<Json, string>`.
- The upserted user row's id is `user: Option<nat>`.
- The category table is `categories: map<string, nat>`.
- The current ISO timestamp is `now: string`.
- The database's answer to the insert is `insertError: Option<string>`.
- The classify endpoint, as seen by the webhook, is `classify: (string, string) -> Call<Json>`.
- The error a `sendMessage` call throws, if any, is `sendError: Option<string>`.

Two behaviours of the code are worth stating plainly, because a reader might expect otherwise:

- **Payload cut.** The cut takes the first '[' through the last ']', and falls back to braces only when the text holds no '[' at all. So an object that contains an array is cut down to the inner array (`Normalizer.ArrayInsideObjectWins`).
- **Failed classify call.** A classify call that throws is caught: the webhook answers `{ok: false, error}` with status 200, and no chat message is sent (`Telegram.OkIffNothingThrew`). A 400 answer from classify is not a throw: its `ok: false` body becomes the "Gagal memproses" reply (`Scenarios.ChatRelaysRefusal`).

## Model

| member | source | states |
|---|---|---|
| JsText.Trim | src/app/api/classify/route.ts:30 | `trim()` yields text with no white space at either end. The result is the contiguous run of the input after its leading white space, with only white space after it. Already trimmed text is unchanged. |
| JsText.TrimPadded | src/app/api/telegram/route.ts:14 | White space around trimmed non-empty text is exactly what `trim()` removes. |
| JsText.LeadingSpacesUnique | src/app/api/classify/route.ts:34 | The length of the leading white-space run is the only position that ends a white-space prefix and starts non-space text. This is the extent of the regular-expression `\s*` after the opening fence. |
| JsText.IndexOf | src/app/api/classify/route.ts:36 | `indexOf` is -1 exactly when the character is absent. Otherwise it is the first position holding the character. |
| JsText.LastIndexOf | src/app/api/classify/route.ts:37 | `lastIndexOf` is -1 exactly when the character is absent. Otherwise it is the last position holding the character. |
| JsText.Take | src/app/api/classify/route.ts:83 | `slice(0, 10)` of the timestamp is its first ten characters, or the whole text if it is shorter. |
| Normalizer.StripOpenFence | src/app/api/classify/route.ts:34 | Without a leading fence the text is unchanged. Otherwise a suffix remains: what follows the fence (and the greedy "json" tag), with only white space removed in between, and it does not start with white space. |
| Normalizer.StripCloseFence | src/app/api/classify/route.ts:34 | Without a trailing fence the text is unchanged. Otherwise a prefix remains: what precedes the fence, with only white space removed, and it does not end with white space. |
| Normalizer.Defence | src/app/api/classify/route.ts:34 | The de-fenced, trimmed text has no white space at either end and occurs contiguously in the input. |
| Normalizer.EnclosesByIndices | src/app/api/classify/route.ts:36-43 | The guard `first !== -1 && last !== -1 && last > first` holds exactly when some opening character precedes some closing one. |
| Normalizer.Extract | src/app/api/classify/route.ts:36-44 | If some '[' precedes some ']', the cut runs from the first '[' to the last ']'. Only when there is no '[' at all does it fall back to the first '{' through the last '}', and then the cut holds no '['. Without such a pair the text is unchanged. The result always occurs in the input. |
| Normalizer.Clean | src/app/api/classify/route.ts:32-46 | The cleaned text occurs contiguously in the raw reply and is no longer. |
| Classify.Cleaned | src/app/api/classify/route.ts:30-46 | The text handed to `JSON.parse` is a contiguous piece of the model's reply, no longer than it. A reply that, once trimmed, is an array text (or an object text without '[') reaches the parser exactly as the trimmed text. |
| Normalizer.BracketedKept | src/app/api/classify/route.ts:32-46 | An array text, or an object text without '[', passes cleaning unchanged. |
| Normalizer.CleanIdempotentOnCuts | src/app/api/classify/route.ts:32-46 | When cleaning cut out a bracketed payload, cleaning again changes nothing. |
| Normalizer.CleanNotIdempotentWithoutCut | src/app/api/classify/route.ts:34-44 | When nothing is cut out, cleaning need not be idempotent: for trimmed text x without brackets or braces, not starting with a backtick or "json" and not ending with a backtick, a doubled opening fence before x loses one fence per pass. |
| Normalizer.DefenceOfFenced | src/app/api/classify/route.ts:33-34 | De-fencing a reply wrapped in a fence, with or without the "json" tag and with white space around the payload, returns exactly the payload. The payload must not start with "json" when a bare fence touches it; any other payload, one starting with "j" or "js" included, is recovered. |
| Normalizer.CleanOfFencedPayload | src/app/api/classify/route.ts:32-46 | A fenced array, or a fenced object without '[', comes out of cleaning as exactly that payload. |
| Normalizer.ArrayInsideObjectWins | src/app/api/classify/route.ts:36-43 | An object text that encloses an array is cut down to an array text, so cleaning changes it. |
| Normalizer.UnclosedArrayKeepsText | src/app/api/classify/route.ts:36-44 | With a '[' but no ']' there is no fallback to braces: the text is kept whole. |
| Normalizer.BareFenceDropped | src/app/api/classify/route.ts:34 | A bare opening fence is removed exactly from trimmed text that does not begin with "json" and does not end with a backtick (a last backtick could complete a closing fence, as in "a```"). |
| Locale.Group | src/app/api/classify/route.ts:109 | The id-ID form of n: a '.' stands exactly at the positions a positive multiple of four from the end, and the length is not a multiple of four, so the first group has one to three digits and every later group three. Removing the dots gives the decimal digits of n, which read back as n. |
| Locale.DigitsRoundTrip | src/app/api/classify/route.ts:109 | The decimal text of n reads back as n. |
| Locale.SmallNumbersUngrouped | src/app/api/classify/route.ts:109 | Below one thousand the id-ID form has no separator. |
| Locale.WholeThousands | src/app/api/classify/route.ts:112 | k thousands (k below 1000) is written as the digits of k followed by ".000". |
| JsValues.Get | src/app/api/classify/route.ts:65 | A property read finds a value exactly when the value is an object with that field. |
| JsValues.Add | src/app/api/classify/route.ts:101 | A sum is a number exactly when both summands are, and then it is their sum. Otherwise it is NaN. |
| JsValues.StringToNumber | src/app/api/classify/route.ts:101 | `Number` of text is a number only for blank text or text whose trimmed form is all digits. |
| JsValues.NumberOfNumericText | src/app/api/classify/route.ts:101 | `Number` of a decimal string, and of a one-element array holding a number, is that number. |
| JsValues.ToNumber | src/app/api/classify/route.ts:101 | `Number(undefined)` is NaN, a number stays itself, a string converts as `Number` of text, a plain object is NaN and an empty array is 0. |
| JsValues.Format | src/app/api/classify/route.ts:109 | A finite number is written in the grouped shape (a first group of one to three digits, then groups of three after each '.'), and removing the dots gives its decimal digits. |
| Classify.ToItems | src/app/api/classify/route.ts:54 | A parsed array is the item list, and nothing else is. Any other value becomes a list of one. |
| Classify.Admissible | src/app/api/classify/route.ts:65 | An item passes the guard exactly when it is an object with all four fields, an amount that is not null, and a truthy description, currency and category (none of null, false, 0 and the empty string). Other keys, such as "type", play no part. |
| Classify.AmountOnlyNonNull | src/app/api/classify/route.ts:65 | For any object that holds the four fields, whatever its other keys, with the other three fields truthy, the item passes exactly when its amount is not null, so an amount of 0, false or "" passes. |
| Classify.CategoryId | src/app/api/classify/route.ts:70-81 | A category id exists exactly when the category's text names a stored category, and then it is that category's id. |
| Classify.RowOf | src/app/api/classify/route.ts:76-85 | The row carries the item's description, amount, currency and type unchanged, the looked-up category id, the source "telegram", the user's id and the date part of the timestamp. |
| Classify.Gather | src/app/api/classify/route.ts:63-87 | The loop succeeds exactly when every item passes the guard and (if there are items) a user row exists. It then yields one row per item, in order. A failure carries the rejection of the first failing item, or the missing user row's error. |
| Classify.FirstRefused | src/app/api/classify/route.ts:64-67 | It is absent exactly when every item passes the guard. Otherwise it is the position of the first item that fails it. |
| Classify.IncludesGuardRedundant | src/app/api/classify/route.ts:98-107 | The `includes` test in front of each total changes nothing: an empty selection already sums to 0. |
| Classify.KindTotal | src/app/api/classify/route.ts:98-107 | A total as the handler computes it equals the filtered sum without the `includes` test, and equals the reference right-to-left sum of every row's amount with rows of other types counted as 0. |
| Classify.TotalFinite | src/app/api/classify/route.ts:99-101 | A `reduce` sum is a number exactly when every summand is one. |
| Classify.FoldsAgree | src/app/api/classify/route.ts:99-101 | Summing from the left, as `reduce` does, equals summing from the right. |
| Classify.SelectedTotal | src/app/api/classify/route.ts:99-101 | Filtering by type and then summing equals summing with the other rows counted as 0. |
| Classify.KindTotalFinite | src/app/api/classify/route.ts:98-107 | A total is NaN exactly when some row of its type has an amount that does not convert to a number. |
| Classify.RowTotalsMatchItems | src/app/api/classify/route.ts:95-107 | The totals computed over the stored rows equal the reference totals read off the parsed items. |
| Classify.AnswerJson | src/app/api/classify/route.ts:117-130 | The JSON answer's `ok` is truthy exactly for an accepted reply. An accepted answer carries the parsed value as `data` and the message. A refused answer carries the error. |
| Classify.Handle | src/app/api/classify/route.ts:51-130 | The status is 200 or 400, and 200 exactly when the reply is accepted. A refused reply stores nothing. |
| Classify.HandleAcceptsIff | src/app/api/classify/route.ts:51-121 | The reply is accepted exactly when the cleaned text parses, every item passes the guard, a user row exists (or there are no items) and the insert succeeds. |
| Classify.HandleAccepted | src/app/api/classify/route.ts:95-121 | An accepted reply echoes the parsed value and stores one row per item, in order. Its message reports the reference expense and income totals of the items. |
| Classify.ParseFailureRefused | src/app/api/classify/route.ts:51 | Text that does not parse gives a 400 with the parser's message, and nothing is stored. |
| Classify.ItemFailureRefused | src/app/api/classify/route.ts:64-77 | A failing item, or a missing user row when there are items, gives a 400 with the loop's refusal, and nothing is stored. |
| Classify.InsertFailureRefused | src/app/api/classify/route.ts:91-93 | A failed insert gives a 400 with the database's message. |
| Summary.Message | src/app/api/classify/route.ts:108-115 | The message is income-only when the expense total is not above 0. It is expense-only when the income total is not above 0. Otherwise it has both lines, expense first, and the first line has a blank before its break. The message is already trimmed. |
| Summary.MessageVariant | src/app/api/classify/route.ts:108-115 | The opening of the message tells which variant was chosen, in both directions for each of the three headings. |
| Summary.FormatReadsBack | src/app/api/classify/route.ts:109 | A formatted total, read with its separators dropped, gives the total back. |
| Summary.IncomeOnlyReadsBack | src/app/api/classify/route.ts:109 | In the income-only message the figure after the heading reads back as the income total. |
| Summary.ExpenseOnlyReadsBack | src/app/api/classify/route.ts:112 | In the expense-only message the figure after the heading reads back as the expense total. |
| Summary.BothReadBack | src/app/api/classify/route.ts:114 | In the two-line message the first figure reads back as the expense total. The second figure, after the income label, reads back as the income total. |
| Telegram.Field | src/app/api/telegram/route.ts:6-7 | Optional chaining yields nothing on a nullish value. On an object that has the field it yields exactly that field, and any value it yields is that field. |
| Telegram.SenderId | src/app/api/telegram/route.ts:7 | A sender id exists exactly when `update.message.from.id` is not nullish. It is `id.toString()`: the decimal digits of a numeric id, a string id unchanged, "true" or "false" for a boolean. |
| Telegram.Decide | src/app/api/telegram/route.ts:6-14 | An update is ignored exactly when its text is falsy or its sender id is missing or empty. It greets exactly when the trimmed text is "/start". Otherwise it forwards the text unchanged with the sender id, or fails when the text is not a string. |
| Telegram.ReplyText | src/app/api/telegram/route.ts:38-40 | Building the reply throws exactly when the answer is null, or is successful with a nullish `data`. |
| Telegram.Details | src/app/api/telegram/route.ts:39 | The detail text starts with classify's message, then the description line and the amount heading, and it ends with the category line. |
| Telegram.ReplyMark | src/app/api/telegram/route.ts:38-40 | A reply starts with the check mark exactly when classify reported success. A failure reply is the failure prefix followed by the reported error. |
| Telegram.ReplyAmountReadsBack | src/app/api/telegram/route.ts:39 | In a success reply the amount line shows the grouped amount, and that figure reads back as the amount. |
| Telegram.Sent | src/app/api/telegram/route.ts:42-52 | After the final `sendMessage` the answer is `ok` exactly when the call did not throw, and its error is the one thrown. |
| Telegram.Handle | src/app/api/telegram/route.ts:3-55 | The webhook always answers with status 200, and `ok` holds exactly when there is no error. |
| Telegram.IgnoredUpdateAcknowledged | src/app/api/telegram/route.ts:9-11 | An update without text or sender is acknowledged and nothing is called. |
| Telegram.StartGreetsWithoutClassify | src/app/api/telegram/route.ts:14-27 | "/start" sends only the welcome text to the sender and never calls classify. |
| Telegram.ForwardedVerbatim | src/app/api/telegram/route.ts:30-50 | Other text goes to classify unchanged with the sender id as the user id. The reply built from the answer is sent back to the same chat. |
| Telegram.OkIffNothingThrew | src/app/api/telegram/route.ts:3-55 | The acknowledgement is `ok` exactly when the request parsed, the text was a string and no awaited call or reply construction threw. |
| Dashboard.FilterKind | src/app/page.tsx:11-17 | A transaction is in the filtered list exactly when it is in the input and its type is the given one. |
| Dashboard.KindTotal | src/app/page.tsx:11-17 | A total over null data is 0. Otherwise it is the sum of the amounts of exactly the transactions whose type is the given one, as filtered by `FilterKind`. |
| Dashboard.SumKind | src/app/page.tsx:11-17 | The one-pass per-type sum equals the sum of the amounts of the filtered transactions (`FilterKind`, defined separately). It never exceeds the sum of all amounts, is 0 when no transaction has the type, and is the sum of all amounts when every transaction has it. |
| Dashboard.TotalsPartition | src/app/page.tsx:11-17 | Every amount counts in the income total, the expense total, or neither, and never in both. |
| Dashboard.CategoryOf | src/app/page.tsx:21 | Under the page's reading, a name other than "Lainnya" can only come from a non-empty list embed, and it is the first entry's name. A named first entry always supplies its name. |
| Dashboard.ObjectEmbedAlwaysFallback | src/app/page.tsx:21 | An object embed is always read as "Lainnya". |
| Dashboard.ReadingsDiffer | src/app/page.tsx:21 | The page's reading and the intended one differ exactly on object embeds whose name is not "Lainnya". |
| Dashboard.TallySumsAll | src/app/page.tsx:20-25 | The per-category values add up to the total of all amounts. |
| Dashboard.TallyContents | src/app/page.tsx:20-25 | The keys are exactly the categories that occur, and each key holds the sum of the amounts of its transactions. |
| Dashboard.CategoryStats | src/app/page.tsx:20-25 | Null data gives the empty object. Otherwise the keys are exactly the names the page's reading yields, each holding the reference sum of its transactions' amounts. |
| Dashboard.StatsOfData | src/app/page.tsx:11-25 | Null data gives zero totals and empty statistics. Otherwise the statistics add up to the total of all amounts, with keys exactly the categories that occur. |
| Dashboard.OtherTypeOnlyInStats | src/app/page.tsx:11-25 | A transaction that is neither income nor expense leaves both totals alone but still adds its amount under its category. |
| Dashboard.ObjectEmbedsCollapse | src/app/page.tsx:20-25 | When every transaction comes with an object embed, the statistics hold the single key "Lainnya" with the total of all amounts. |
| Dashboard.IntendedCategoryOf | src/app/page.tsx:21 | The intended reading takes the name of an object embed. It agrees with the page on list embeds and falls back to "Lainnya" otherwise. |
| Dashboard.IntendedStatsByName | src/app/page.tsx:20-25 | With the intended reading, object embeds are tallied under exactly their names. |
| Dashboard.Recent | src/app/page.tsx:88-89 | The list shows rows exactly when the data is non-empty. They are the first ten rows, or all of them when there are fewer. |
| Dashboard.RecentIgnoresOlder | src/app/page.tsx:89 | Rows after the tenth never change the list. |
| Scenarios.CleanedFencedPayload | src/app/api/classify/route.ts:30-46 | A fenced array or object reply reaches `JSON.parse` as exactly its payload. |
| Scenarios.ExpenseOnlyMessage | src/app/api/classify/route.ts:111-112 | Expense 25000 and income 0 give the expense-only message ending in "25.000". |
| Scenarios.IncomeOnlyMessage | src/app/api/classify/route.ts:108-109 | Expense 0 and income 50000 give the income-only message ending in "50.000". |
| Scenarios.TwoLineMessage | src/app/api/classify/route.ts:113-114 | Expense 25000 and income 50000 give the two-line message, expense first. |
| Scenarios.ZeroTotalsMessage | src/app/api/classify/route.ts:108-109 | Two zero totals give the income-only message with "0". |
| Scenarios.CoffeePurchase | src/app/api/classify/route.ts:30-121 | A fenced reply holding the coffee item ("Beli kopi", 25000) stores one expense row with category id 1, today's date and source "telegram". The endpoint answers 200 with the message ending in "25.000". |
| Scenarios.MissingCurrencyRefused | src/app/api/classify/route.ts:65-66 | An object without a currency is refused with "Invalid item format" and nothing is stored. |
| Scenarios.EmptyListAccepted | src/app/api/classify/route.ts:54-109 | An empty array is accepted, nothing is stored, and the message reports an income of 0. |
| Scenarios.PaddedStartGreets | src/app/api/telegram/route.ts:14 | "/start" with white space around it still greets the sender. |
| Scenarios.ChatRelaysRefusal | src/app/api/telegram/route.ts:30-52 | A refusal from classify is relayed to the sender as "Gagal memproses: " with its error, and the webhook answers `ok`. |
| Scenarios.ChatRelaysCoffee | src/app/api/telegram/route.ts:30-52 | For the coffee item the sender receives the message and the item's details, with the amount shown as "25.000". |

## Left out

- The language-model call is left out: the prompt, the model choice, the API key and `generateContent`. Its reply text is an input.
- `JSON.parse` is a parameter. The model does not describe which texts parse.
- The database is left out. The user upsert, the category lookup and the insert are parameters. The upsert's own side effect, creating the user row, is not modelled. A `maybeSingle` lookup that matches several rows (which errors) is not modelled either; the lookup is a map.
- `new Date()` is the `now` parameter.
- `req.json()` of the classify endpoint is left out; the text and chat id it yields only reach the model prompt and the upsert. For the webhook, the parsed update or the parse error is the `request` parameter.
- `console.log` is left out.
- The `fetch` calls to Telegram's `sendMessage` and to the classify endpoint are left out. They are parameters that return an answer or throw; headers, URLs and the HTML parse mode are not modelled.
- JSON numbers are natural numbers. Negative amounts, fractions, floating-point rounding and the `toLocaleString` rendering of fractions are not modelled. `Number(text)` reads blank text and plain digit strings; every other numeric syntax ("1e3", "0x10", " -5") is NaN in the model.
- `e.message ?? 'error'`: every thrown error in the model carries a message, so the fallback text is not reached.
- Plain-object key collisions are not modelled in the per-category statistics (a category named "__proto__" or "constructor"). Neither is the key order of `Object.entries`, which only affects display.
- Page line 101 reads `t.categories.name` for display. It throws on a missing embed and is not modelled. Neither is the rest of the page's markup.
- JsValues.Text: a JSON object with its own `toString` or `valueOf` key is converted as a plain object ("[object Object]", and NaN under `Number`). In JavaScript, `String(...)`, a template literal, `Number(...)` and `id?.toString()` call that key and throw a TypeError when it is not a function. So a classify answer whose `data.description` is `{"toString": 1}` makes the webhook answer `{ok: false}` and send nothing, while the model sends a reply. The same holds for `Telegram.SenderId`, `Classify.CategoryId`, `Telegram.Details` and `JsValues.ToNumber`.
- Dashboard.KindTotal: amounts are natural numbers, so a NaN total from a non-numeric stored amount is not modelled on the page.

## Findings

| source | as written | input that shows it | evidently intended | confidence | as-written member | corrected member |
|---|---|---|---|---|---|---|
| src/app/page.tsx:21 | `t.categories?.[0]?.name ?? 'Lainnya'` indexes the embedded category with 0. The query embeds `categories(name)` through the many-to-one `category_id` key, so the embed is a single object. | Two transactions whose embeds are `{name: "Transportasi"}` and `{name: "Belanja"}`: both are tallied under "Lainnya", and the statistics are the single key "Lainnya" with the sum of both amounts. | Read `t.categories?.name`, so each transaction is tallied under its category's name. | medium, not executed (depends on the embed shape the database client returns) | Dashboard.ObjectEmbedsCollapse | Dashboard.IntendedStatsByName |
