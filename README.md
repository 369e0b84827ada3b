# Banking dashboard core, modelled in Dafny

This project models the logic of a small React banking dashboard and proves
properties about it. The dashboard categorizes card transactions. The model
covers five parts:

- `parseCsvText` turns an uploaded file into raw transaction descriptions.
  It splits the text into lines and trims them. It drops blank lines and a
  header line. It keeps the longest comma-separated field of each line and
  strips one quote at each end.
- The validators: the e-mail check (a regular expression, restated here as
  an `@` and a later `.` cutting the trimmed text into three runs), the
  password check (length at least 8, a score counting four character
  classes, a pass at score 3) and the strength label.
- `AuthProvider` is a credential store kept in browser storage. It is the
  class `Auth.AuthProvider`. Its fields are the map from normalized user
  name to encoded password, the persisted session, and the signed-in user.
  Sign-up and sign-in run their checks in the source's order. A refused call
  changes nothing. `btoa` is an abstract function `encode`.
- The transaction list of `App` is the class `Transactions.TransactionStore`.
  An upload puts the new rows in front. `accept` and `correct` rewrite every
  row with a given id. `correct` also normalizes the category: each run of
  white space becomes one `_`, then the text is lowercased.
- The `Insights` summary groups the transactions by category, with
  "uncategorized" for an empty category. The grouping loop is the method
  `Insights.GroupByCategory`, with a map index as in the source. Its
  reference definition is a fold of one loop turn (`Insights.Tally`). Lemmas
  prove that each entry holds its category's count and total, that each
  category has exactly one entry, and that the counts and totals add up. The
  sort by total, largest first, gives a sorted permutation.

Files: `wrappers.dfy` (Option), `text.dfy` (JavaScript `trim`, `\s`,
`toLowerCase`, `split`, `includes`), `parse_csv.dfy`, `validators.dfy`,
`auth_context.dfy`, `app.dfy`, `insights.dfy`.

When a line has several longest fields, the right-most one wins: the
`reduce` of src/utils/parseCsv.ts line 11 compares lengths with a strict `>`,
so a later field of equal length replaces the current one. `ParseCsv.Candidate` states this, and `ParseCsv.TieGoesRight` shows it
on `"ab,cd"`.

## Model

| member | source | states |
|---|---|---|
| Text.Trim | src/utils/parseCsv.ts:3 | `trim` removes the leading run and the trailing run of JavaScript white space and keeps the middle; the result neither starts nor ends with white space |
| Text.TrimIdempotent | src/utils/parseCsv.ts:3 | trimming twice is trimming once |
| Text.TrimNoSpace | src/utils/parseCsv.ts:3 | text with no white space is its own trim |
| Text.TrimDropsTrailingSpace | src/utils/parseCsv.ts:3 | one more white-space character at the end does not change the trim |
| Text.ToLower | src/utils/parseCsv.ts:5 | `toLowerCase` keeps the length and lowers each character |
| Text.LowerKeepsClasses | src/utils/validators.ts:7-8 | lowering keeps white space, `@` and `.` what they are, and is idempotent |
| Text.TrimToLower | src/context/AuthContext.tsx:40 | trim and lowercase commute |
| Text.WhiteSpaceSet | src/utils/parseCsv.ts:3 | `IsSpace`, the set of `trim` and `\s`, holds the no-break, ideographic and byte-order-mark spaces and the line separator, but not U+0085, the zero-width space or U+180E |
| Text.ContainsInside | src/utils/parseCsv.ts:6 | `includes` (`Contains`) finds a string wherever it stands |
| Text.Split | src/utils/parseCsv.ts:10 | `split` gives at least one piece, and no piece holds the separator |
| Text.JoinSplit | src/utils/parseCsv.ts:10 | joining the pieces with the separator gives back the text |
| Text.SplitWithoutSeparator | src/utils/parseCsv.ts:11 | text without the separator splits into itself alone |
| ParseCsv.DropCarriageReturn | src/utils/parseCsv.ts:3 | a piece of the `/\r?\n/` split loses at most one final `\r` |
| ParseCsv.SplitLines | src/utils/parseCsv.ts:3 | the `/\r?\n/` split has as many pieces as the split at `\n` |
| ParseCsv.TrimAll | src/utils/parseCsv.ts:3 | every line is trimmed, none added or lost |
| ParseCsv.NonEmpty | src/utils/parseCsv.ts:3 | `filter(Boolean)` keeps exactly the non-empty strings, in order (a subsequence) |
| ParseCsv.NonEmptyAppend | src/utils/parseCsv.ts:13 | filtering distributes over concatenation |
| ParseCsv.Lines | src/utils/parseCsv.ts:3 | every surviving line is non-empty and already trimmed, and the lines are exactly the trimmed, non-blank pieces between the `\n`s, in order (a `\r` before a `\n` makes no difference) |
| ParseCsv.TrimmedLinesIgnoreCarriageReturn | src/utils/parseCsv.ts:3 | once trimmed, the lines of the `/\r?\n/` split equal those of the split at `\n` |
| ParseCsv.TrimDropCarriageReturn | src/utils/parseCsv.ts:3 | trimming a piece ignores the `\r` it lost |
| ParseCsv.SplitAfterLine | src/utils/parseCsv.ts:3 | a first line without `\n` is the first piece of the split |
| ParseCsv.LinesAfterLine | src/utils/parseCsv.ts:3 | a non-blank first line is the first trimmed line, followed by the lines of the rest |
| ParseCsv.HeaderKeyword | src/utils/parseCsv.ts:5-6 | a first line holding "raw", "description" or "transaction" in any letter case is a header (`IsHeader`) |
| ParseCsv.HeaderIgnoresCase | src/utils/parseCsv.ts:5 | letter case does not matter to the header test |
| ParseCsv.DataLines | src/utils/parseCsv.ts:5-8 | the first line is dropped exactly when it is a header, otherwise all lines are data |
| ParseCsv.ReduceLongest | src/utils/parseCsv.ts:11 | the `reduce` ends on a longest field, and every later field is strictly shorter |
| ParseCsv.Candidate | src/utils/parseCsv.ts:10-11 | the candidate is the right-most field of maximal length |
| ParseCsv.TieGoesRight | src/utils/parseCsv.ts:11 | of two fields of equal length, the second is kept |
| ParseCsv.StripQuotes | src/utils/parseCsv.ts:12 | the quote-stripping `replace` removes at most one `"` at each end and keeps the middle |
| ParseCsv.StripOneQuotePair | src/utils/parseCsv.ts:12 | one enclosing pair of quotes is removed and inner quotes survive |
| ParseCsv.LineWithoutComma | src/utils/parseCsv.ts:11-12 | a line without a comma yields the line itself, unquoted, then trimmed |
| ParseCsv.ExtractLine | src/utils/parseCsv.ts:10-12 | a data line yields its right-most longest comma-separated field, unquoted, then trimmed, so the result neither starts nor ends with white space |
| ParseCsv.ExtractAll | src/utils/parseCsv.ts:9-12 | one extraction per data line, in order |
| ParseCsv.ExtractAllAppend | src/utils/parseCsv.ts:9 | extraction distributes over concatenation |
| ParseCsv.ParseCsvText | src/utils/parseCsv.ts:1-14 | for every text, the result is exactly the non-empty extractions of the data lines, in line order (the early returns for empty text and for no lines change nothing); so empty text gives nothing, every result is non-empty, and there is at most one result per non-blank line |
| ParseCsv.NothingWithoutData | src/utils/parseCsv.ts:2-8 | no non-blank line, or a lone header line, gives nothing |
| ParseCsv.HeaderLineDropped | src/utils/parseCsv.ts:5-8 | a header first line is dropped and the rest is extracted |
| ParseCsv.DataLineKept | src/utils/parseCsv.ts:5-9 | a non-header first line is extracted like every other line |
| Validators.IsValidEmail | src/utils/validators.ts:4-9 | the empty string is refused; the rows below give the pattern's shape in both directions |
| Validators.EmailIgnoresSurroundingSpace | src/utils/validators.ts:6-8 | white space around the address does not change the verdict |
| Validators.EmailPatternExamples | src/utils/validators.ts:7-8 | the pattern `MatchesEmailPattern` accepts "a@b.co" and refuses a one-letter top-level part, white space in the local part and a second `@` |
| Validators.EmailFromParts | src/utils/validators.ts:7-8 | `l@x.y` with runs free of white space and `@`, of lengths at least 1, 1 and 2, is accepted |
| Validators.EmailParts | src/utils/validators.ts:7-8 | every accepted address, trimmed, is such an `l@x.y` |
| Validators.ValidEmailHasOneAt | src/utils/validators.ts:7 | an accepted address holds exactly one `@` |
| Validators.EmailIgnoresCase | src/utils/validators.ts:7 | lowercasing does not change the verdict |
| Validators.ValidatePassword | src/utils/validators.ts:23-48 | a short password is refused with score 0 and the length message; the score lies in 0..4; valid exactly when at least 8 long with score at least 3; a message exactly when invalid |
| Validators.LowercaseIn | src/utils/validators.ts:32 | `HasLower` (`/[a-z]/.test`) holds exactly when the lowercase class occurs |
| Validators.UppercaseIn | src/utils/validators.ts:33 | `HasUpper` (`/[A-Z]/.test`) holds exactly when the uppercase class occurs |
| Validators.DigitIn | src/utils/validators.ts:34 | `HasDigit` (`/[0-9]/.test`) holds exactly when the digit class occurs |
| Validators.SpecialIn | src/utils/validators.ts:35 | `HasSpecial` (`/[^A-Za-z0-9]/.test`) holds exactly when the special class occurs |
| Validators.CardinalityOfFour | src/utils/validators.ts:37 | the number of classes present is the number of true flags |
| Validators.ScoreCountsClasses | src/utils/validators.ts:32-37 | from 8 characters on, the score (`ClassScore`) is the number of character classes present |
| Validators.ScoreGrowsWithAppend | src/utils/validators.ts:28-47 | for every password, appending characters never lowers the score or revokes validity |
| Validators.StrongPasswordExample | src/utils/validators.ts:32-47 | "Aa1!aaaa" is valid with score 4 and no message |
| Validators.OneClassPasswordExample | src/utils/validators.ts:39-45 | "aaaaaaaa" is refused with score 1 and the three-classes message |
| Validators.PasswordStrengthLabel | src/utils/validators.ts:52-57 | score 1 or less is "Very weak", 2 "Weak", 3 "Good", 4 or more "Strong", each with its fixed colour |
| Validators.StrengthLabelMonotone | src/utils/validators.ts:52-57 | a higher score never gets a weaker label |
| Auth.NormalizeUsername | src/context/AuthContext.tsx:40 | the key is no longer than the name, has no white space at either end, and every character of it is lowercase |
| Auth.NormalFormIsOwnKey | src/context/AuthContext.tsx:40 | a name already trimmed and lowercase is its own key; with the two rows below, the key of any name is its trimmed, lowercased text |
| Auth.NormalizeIgnoresCase | src/context/AuthContext.tsx:40 | names that differ only in letter case get the same key |
| Auth.NormalizeIgnoresSurroundingSpace | src/context/AuthContext.tsx:40 | names that differ only in surrounding white space get the same key |
| Auth.NormalizeIdempotent | src/context/AuthContext.tsx:40 | normalizing twice is normalizing once |
| Auth.ValidityOfNormalForm | src/context/AuthContext.tsx:40-43 | a name and its key are both valid addresses or both not |
| Auth.SignupCheck | src/context/AuthContext.tsx:43-50 | sign-up passes exactly when the address is valid, the password passes and the key is free; otherwise the first failing check, in source order, is reported |
| Auth.SigninCheck | src/context/AuthContext.tsx:62-69 | sign-in passes exactly when the address is valid, the password is non-empty, the key is known and its stored value is `encode(password)`; otherwise the first failing check is reported: invalid address, missing password, unknown account, wrong password |
| Auth.SignupRefusalExplained | src/context/AuthContext.tsx:43-50 | every refused sign-up returns a message (`SignupMessage`) |
| Auth.SigninRefusalExplained | src/context/AuthContext.tsx:62-69 | every refused sign-in returns a message (`SigninMessage`) |
| Auth.SignupThenSignin | src/context/AuthContext.tsx:49-69 | after sign-up, any name with the same key signs in with the same password |
| Auth.SignupTwiceRefused | src/context/AuthContext.tsx:50-53 | a second sign-up under the same key is refused as existing |
| Auth.SignupCaseVariantRefused | src/context/AuthContext.tsx:40-50 | after a name signs up, a sign-up as the same name lowercased ("A@B.com", then "a@b.com") is refused as an existing account |
| Auth.OnlyStoredPasswordSignsIn | src/context/AuthContext.tsx:67-69 | with an injective `encode`, a different password is refused as incorrect |
| Auth.RestoredUser | src/context/AuthContext.tsx:32-35 | a user is restored exactly when the stored session has a non-empty name, and it is that name |
| Auth.AuthProvider.constructor | src/context/AuthContext.tsx:30-35 | storage as found, and the user restored from the session |
| Auth.AuthProvider.Signup | src/context/AuthContext.tsx:42-59 | on success the key maps to `encode(password)`, one entry is added, the rest unchanged, and session and user become the key; on refusal nothing changes and the source's message is returned |
| Auth.AuthProvider.Signin | src/context/AuthContext.tsx:61-74 | the credential map never changes; on success session and user become the key; on refusal nothing changes |
| Auth.AuthProvider.Signout | src/context/AuthContext.tsx:76-79 | session and user are cleared, whatever they were, and a restart restores nobody |
| Transactions.Prepare | src/App.tsx:77-84 | row `i` has id `nows[i] + i` (the clock reading taken while row `i` is made, plus its index), the item's text, category "unknown", status pending and amount `draw + 100` |
| Transactions.PreparedBatchWellFormed | src/App.tsx:78-83 | while the clock does not go back during an upload, ids within the batch strictly increase, so they are distinct, and amounts lie in 100..2099 |
| Transactions.AcceptAll | src/App.tsx:89-92 | rows with the id become accepted, nothing else changes, length and order kept |
| Transactions.AcceptAbsentId | src/App.tsx:91 | an absent id changes nothing |
| Transactions.AcceptIdempotent | src/App.tsx:89-92 | accepting twice is accepting once |
| Transactions.CollapseSpaceRuns | src/App.tsx:101 | the result holds no white space, is no longer than the input, is empty only for empty input, and text without white space is unchanged |
| Transactions.CollapseRun | src/App.tsx:101 | a whole run of white space between text that is not white space becomes exactly one `_` |
| Transactions.NormalizeCategory | src/App.tsx:101 | a corrected category holds no white space, is lowercase, is empty only for empty input, and text without white space is only lowercased |
| Transactions.NormalizeCategoryRun | src/App.tsx:101 | the corrected category of `a`, a run of white space, then `b` is those of `a` and `b` joined by one `_` |
| Transactions.NormalizeCategoryIdempotent | src/App.tsx:101 | normalizing twice is normalizing once |
| Transactions.CorrectAll | src/App.tsx:96-106 | rows with the id get the normalized category and status corrected, nothing else changes |
| Transactions.CorrectAbsentId | src/App.tsx:97-105 | an absent id changes nothing |
| Transactions.GetCategoryColor | src/App.tsx:109-118 | the five known categories get their style, every other string the gray default |
| Transactions.TransactionStore.constructor | src/App.tsx:18-59 | the dashboard starts with the five sample rows |
| Transactions.TransactionStore.HandleUpload | src/App.tsx:76-87 | the prepared rows, in upload order, come before the old rows, which are kept |
| Transactions.TransactionStore.Accept | src/App.tsx:89-92 | the list becomes its accepted version |
| Transactions.TransactionStore.Correct | src/App.tsx:93-107 | a cancelled or empty answer changes nothing; otherwise the list becomes its corrected version |
| Insights.CategoryOf | src/components/Insights.tsx:41 | an empty category reads as "uncategorized", any other is kept |
| Insights.AmountOf | src/components/Insights.tsx:43-46 | the fallback to 0 for a falsy amount adds the amount itself: amounts are whole numbers, and the only falsy one is 0 |
| Insights.InCategoryStep | src/components/Insights.tsx:43-46 | one more transaction adds to its own category's count and total only |
| Insights.NoneInCategory | src/components/Insights.tsx:43-46 | a category no transaction has counts and totals nothing |
| Insights.FindCategory | src/components/Insights.tsx:42 | `map.get` finds an entry of the category exactly when one exists |
| Insights.FindDistinct | src/components/Insights.tsx:42 | with distinct categories, the lookup finds that category's entry |
| Insights.GroupStep | src/components/Insights.tsx:40-48 | the reference grouping `Group` of one more transaction is one more loop turn `Tally` |
| Insights.TallyCategories | src/components/Insights.tsx:41-47 | a loop turn adds the transaction's category and no other |
| Insights.TallyKeepsDistinct | src/components/Insights.tsx:42-43 | a loop turn keeps the entries' categories distinct |
| Insights.TallyExisting | src/components/Insights.tsx:42-47 | for an indexed category the turn updates that entry in place and the index stays exact |
| Insights.TallyNew | src/components/Insights.tsx:42-43 | for a new category the turn appends an entry and indexes it |
| Insights.GroupCategories | src/components/Insights.tsx:39-48 | a category has an entry exactly when some transaction has it |
| Insights.GroupDistinct | src/components/Insights.tsx:39-48 | no two entries share a category |
| Insights.GroupEntries | src/components/Insights.tsx:43-46 | each entry holds its category's number of transactions and sum of amounts |
| Insights.GroupCountsPositive | src/components/Insights.tsx:43-45 | each entry counts at least one transaction |
| Insights.GroupByCategory | src/components/Insights.tsx:39-48 | the loop with its map index computes the reference grouping |
| Insights.InsertByTotal | src/components/Insights.tsx:50 | an insertion step keeps every entry |
| Insights.InsertKeepsSorted | src/components/Insights.tsx:50 | insertion into a list sorted by total keeps it sorted |
| Insights.SortByTotal | src/components/Insights.tsx:50 | the sort is a permutation ordered by total, largest first |
| Insights.SortKeepsDistinct | src/components/Insights.tsx:50 | sorting keeps the categories distinct |
| Insights.SumsSort | src/components/Insights.tsx:50-57 | sorting keeps the sums of counts and totals |
| Insights.SumsTally | src/components/Insights.tsx:41-47 | a loop turn (`Tally`) adds one to the counts and the amount to the totals (`TotalAll`) |
| Insights.GroupConserves | src/components/Insights.tsx:39-48 | the counts sum to the number of transactions and the totals to the amount spent |
| Insights.SummaryEntriesCorrect | src/components/Insights.tsx:38-52 | every summary entry is an occurring category with its exact count (at least 1) and total |
| Insights.SummaryOnePerCategory | src/components/Insights.tsx:38-52 | every occurring category has an entry, and only one |
| Insights.SummaryConserves | src/components/Insights.tsx:57 | `totalAll` equals the amount spent, and the counts sum to the number of transactions |
| Insights.Summarize | src/components/Insights.tsx:38-52 | the summary is the sorted grouping: sorted by total, counts summing to the number of transactions, `totalAll` equal to the amount spent |
| Insights.UnderscoresToSpaces | src/components/Insights.tsx:33 | every `_` becomes a space, all else is kept |
| Insights.FormatCategory | src/components/Insights.tsx:32-34 | same length, no `_`, spaces exactly where the input had `_` or a space; a word character at the start, or after `_` or a non-word character, is upper-cased, and every other character is kept |
| Insights.FormatCategoryIdempotent | src/components/Insights.tsx:32-34 | formatting twice is formatting once |
| Insights.FormatCategoryExample | src/components/Insights.tsx:32-34 | "coffee_dining" is shown as "Coffee Dining" |

## Left out

- src/utils/storage.ts is not part of this model. The two storage entries are the fields `users` and `session` of `Auth.AuthProvider`. A missing or unreadable entry is passed to the constructor as the empty map or as no session. JSON encoding and the `try`/`catch` are left out.
- `btoa` is the abstract function `encode` fixed at construction. Its Base64 alphabet and its exception on characters above U+00FF are left out. Injectivity is assumed only by `Auth.OnlyStoredPasswordSignsIn`.
- `Date.now()`, `Math.random()` and `prompt()` are parameters (`nows`, one clock reading per uploaded row, and `now` at sign-up and sign-in; `draws`; `input`).
- Transactions.TransactionStore.HandleUpload: ids are distinct within one batch only. Ids of different batches, or of a batch and the sample rows, may collide as in the source.
- Floating point is left out: `confidence` is carried as a `real` and never computed with. `getConfidenceColor`, percentages, `Math.round`, `toLocaleString` and the strength-bar width are left out. Amounts are whole numbers, so `t.amount || 0` is the amount itself.
- Text.ToLower: case mapping is ASCII only. White space (`Text.IsSpace`) is the full JavaScript `WhiteSpace` and `LineTerminator` set.
- Validators.ValidatePassword, Validators.IsValidEmail, ParseCsv.Candidate: lengths count characters, whereas JavaScript's `length` counts UTF-16 code units. A character outside the Basic Multilingual Plane counts 1 here and 2 there. So the 8-character minimum, the `{2,}` of the e-mail pattern and the longest-field choice can decide differently on such text.
- Validators.ValidatePassword: the `typeof password !== 'string'` branch (validators.ts lines 24-26) is left out, because every argument here is a string.
- Validators.PasswordStrengthLabel: scores are integers; a fractional score is not modelled.
- Transactions.GetCategoryColor: lookups of inherited object keys such as "constructor" are not modelled; every string outside the five known categories gets the default.
- Insights.SortByTotal: an insertion sort that keeps equal totals in their first-seen order. The contract proves sortedness and permutation, but not that this order matches the engine's stable `Array.prototype.sort`.
- React state, effects, memoization and context plumbing (`useState`, `useEffect`, `useMemo`, `useAuth`) are replaced by fields and method calls.
- The view components (Header, StatsCards, ModelPerformance, TransactionsList, the charts of Insights), the form handlers of AuthForms.tsx and the file reading of UploadArea.tsx are left out. They render or delegate to the modelled functions.
