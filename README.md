# mvpgesocial core, modelled in Dafny

mvpgesocial is a municipal social-benefits system built on Django. Staff register
beneficiaries (`Pessoa`), each enrolled in one benefit (`Beneficio`: bus pass, income
support) with a monthly amount. The system lists and filters them, and issues numbered
payment memoranda (`Memorando`) with a frozen copy of each line (`MemorandoPessoa`). It
also prints receipts in duplicate and bundles the beneficiaries' uploaded documents.

This project models the logic behind those features:

- **Money** (`money.dfy`): Brazilian currency text (`1.234,56`) built from Python's
  `{:,.2f}` with the separator swap, and `valor_por_extenso`, the amount in words.
  Amounts are integer cents.
- **Forms** (`forms.dfy`): CPF validation with both check digits and uniqueness,
  `clean_celular`, and the two upload checks.
- **Validators** (`validators.dfy`): the password-strength validator.
- **Middleware** (`middleware.dfy`): the forced password-change middleware.
- **Models** (`models.dfy`): `Pessoa.save`, which refreshes `cpf_ultimos_4`; the
  `ConfiguracaoGeral` singleton; and the user flags.
- **Memoranda** (`services.dfy`): memorandum numbering (`00001/2026`),
  `registrar_memorando` with its snapshots, the `(ano, sequencia)` uniqueness, and the
  `SET_NULL` on a person's deletion.
- **Listing** (`listing.dfy`): the beneficiary list's filters (name, status, amount,
  CPF search through the last four digits), the position range, the ordinals, the page
  size, and the mass-generation selection.
- **Dashboard** (`dashboard.dfy`): benefit cards, totals and the six amount ranges.
- **Toggles** (`toggles.dfy`): the on/off switches for people, benefits and users.
- **MemoLayout** (`memo_layout.dfy`): page layout of the mass memorandum. The rows come
  in person order, break onto a new page when they reach the margin, and the closing
  block gets a page of its own when it does not fit.
- **Receipts** (`receipts.dfy`): the receipts, two identical copies per person.
- **DocumentMerge** (`merge.dfy`): the document bundle, at most four pages per person,
  each copied twice.

`query.dfy`, `text.dfy`, `common.dfy` and `entities.dfy` hold the shared vocabulary:

- filtering a table;
- digit strings and their values;
- sums;
- the records.

## Model

| member | source | states |
|---|---|---|
| Money.GroupThousandsShape | beneficios/utils.py:68 | the `,` grouping of a digit string puts a separator exactly at every fourth place from the right and nothing else but digits |
| Money.GroupThousandsDigits | beneficios/utils.py:68 | grouping only inserts separators: removing them gives back the digit string |
| Money.FormatUSShape | beneficios/utils.py:68 | `{:,.2f}` of an amount: optional minus sign, comma every three integer digits, a point, then exactly the two cent digits |
| Money.FormatUSDigits | beneficios/utils.py:68 | the digits of `{:,.2f}` read back as the absolute amount in cents |
| Money.SwapSeparatorsExchanges | beneficios/utils.py:68 | the X-placeholder replace chain exchanges `,` and `.` and keeps every other character, when the text has no `X` |
| Money.FormatBRShape | beneficios/utils.py:68 | Brazilian amount text: `.` groups thousands, `,` precedes exactly two cent digits, `-` only for negative amounts, and its digits read back as the absolute amount |
| Money.SwappedShape | beneficios/utils.py:68 | swapping the separators of a US-layout amount gives the Brazilian layout with the same digits |
| Money.SplitAmount | beneficios/utils.py:18-19 | `int(valor)` and the rounded cents recombine to the amount, truncating toward zero, with both parts carrying the amount's sign |
| Money.ValorPorExtenso | beneficios/utils.py:14-35 | words for the reais, then `real`/`reais`, then `e … centavos` only when there are positive cents, and nothing else (the length is that of the two parts); when num2words fails, the plain `{:.2f}` text followed by ` reais` |
| Money.ExtensoUnitAgreement | beneficios/utils.py:25-32 | the unit is the singular `real` exactly for amounts from R$ 1,00 up to R$ 1,99 and `reais` otherwise |
| Money.ExtensoNegativeDropsCents | beneficios/utils.py:18-32 | for a negative amount the cents are never spelled out, because the negative cents fail the `> 0` test |
| Money.ExtensoOneCentPlural | beneficios/utils.py:23-28 | one cent is still written `centavos` (plural) |
| Money.ExtensoExamples | beneficios/utils.py:14-35 | R$ 1,00 reads `um real` and R$ 2,00 reads `dois reais` |
| Money.FormatPlainDigits | beneficios/utils.py:35 | the digits of `{:.2f}` read back as the absolute amount |
| Money.ExtensoFallbackKeepsAmount | beneficios/utils.py:34-35 | the fallback text ends in ` reais` and its digits still read back as the amount |
| Forms.CheckDigit | beneficios/forms.py:77-88 | a CPF check digit is 0 when the weighted sum mod 11 is below 2; otherwise the digit completes the sum to a multiple of 11 |
| Forms.FormatCpfShape | beneficios/forms.py:90 | the stored CPF is `XXX.XXX.XXX-XX`: 14 characters with `.` at 3 and 7, `-` at 11 and digits elsewhere |
| Forms.FormatCpfDigits | beneficios/forms.py:90 | formatting a CPF keeps its 11 digits |
| Forms.ValidateCpf | beneficios/forms.py:67-90 | the length message exactly when there are not 11 digits; acceptance exactly for 11 digits, not all equal, with both check digits correct |
| Forms.AcceptedCpfReadsBack | beneficios/forms.py:90 | an accepted CPF is returned formatted, carrying the same digits as the input |
| Forms.ValidateCpfIdempotent | beneficios/forms.py:67-90 | cleaning an already cleaned CPF gives the same result |
| Forms.ZerosPassChecksumButAreRejected | beneficios/forms.py:74-75 | `00000000000` satisfies both check digits and is still refused by the repeated-digit rule |
| Forms.CompletedCpfAccepted | beneficios/forms.py:77-90 | nine digits completed with their two computed check digits are accepted, unless all eleven digits are equal |
| Forms.CleanCpf | beneficios/forms.py:67-101 | validation errors pass through; a valid CPF that another person already holds gets the duplicate message; otherwise the formatted CPF |
| Forms.CleanCelular | beneficios/forms.py:61-65 | the phone keeps exactly its digits, each as often as it occurs, in their original order |
| Forms.CleanCelularIdempotent | beneficios/forms.py:61-65 | cleaning a cleaned phone changes nothing |
| Forms.CleanPessoaArquivo | beneficios/forms.py:52-59 | a person's upload is accepted exactly when it is absent or has an empty name, or when its lower-cased name ends in `.pdf` and it is at most 10 MB |
| Forms.CleanDocumentoArquivo | beneficios/forms.py:117-128 | a document upload is accepted exactly when it is absent or has an empty name, or when its name, case kept, ends in `.pdf` and it is at most 10 MB |
| Forms.DocumentFormStricter | beneficios/forms.py:52-59 | every upload the document form accepts, the person form accepts too |
| Forms.UpperCaseExtensionSplitsForms | beneficios/forms.py:117-128 | `scan.PDF` passes the person form but is refused by the document form |
| Validators.Check | beneficios/validators.py:11-21 | one check reports its class exactly when the password lacks it |
| Validators.Missing | beneficios/validators.py:8-24 | the reported classes are exactly the missing ones, in checking order |
| Validators.Validate | beneficios/validators.py:8-24 | one message per missing class, in order; no message (nothing raised) exactly when all four classes are present |
| Validators.StrongIffNothingMissing | beneficios/validators.py:23-24 | nothing is reported exactly when the password has an uppercase letter, a lowercase letter, a digit and a special character |
| Validators.MissingMessagesDistinct | beneficios/validators.py:8-24 | no message is reported twice |
| Validators.LowercaseOnlyExample | beneficios/validators.py:8-24 | `abc` lacks an uppercase letter, a digit and a special character, and all three are reported |
| Validators.StrongExample | beneficios/validators.py:8-24 | `Abc1!` is accepted |
| Middleware.AnyPrefix | beneficios/middleware.py:22 | true exactly when the path starts with one of the prefixes |
| Middleware.Decide | beneficios/middleware.py:18-25 | redirect exactly when the user is authenticated, is flagged to change the password, and the path starts with none of the allowed prefixes |
| Middleware.PasswordChangePageReachable | beneficios/middleware.py:8-13 | paths under `/trocar-senha/` are never redirected |
| Middleware.OnlyFlaggedUsersRedirected | beneficios/middleware.py:19-20 | only authenticated, flagged users are ever redirected |
| Middleware.AllowedSubtreePasses | beneficios/middleware.py:8-13 | everything under an allowed prefix passes |
| Middleware.AdminMountNotExempt | beneficios/middleware.py:8-13 | paths of the admin site as mounted (`/panel-super-gesocial/`) are redirected for a flagged user, since `/admin/` does not cover them |
| Middleware.Respond | beneficios/middleware.py:18-25 | a passed request reaches the view; a redirected one goes to the path of the URL name `trocar_senha`, or fails with `NoReverseMatch` when no such name exists |
| Middleware.FlaggedUserGetsError | beneficios/middleware.py:23 | with the site's URL names, every request the middleware redirects fails with `NoReverseMatch`, the home page `/` among them |
| Middleware.Serve | beneficios/middleware.py:18-25 | with the password-change page routed at `/trocar-senha/`, a request is either served or redirected there, and redirected exactly when the middleware decides so |
| Middleware.RedirectNeverLoops | beneficios/middleware.py:8-25 | following the corrected redirect reaches a page that is served without a further redirect |
| Middleware.PrefixNeedsTrailingSlash | beneficios/middleware.py:8-13 | `/admin` without a slash, and `/`, are redirected for a flagged user |
| Models.PessoaRecord.Save | beneficios/models.py:68-74 | saving with at least four CPF digits sets `cpf_ultimos_4` to the last four; otherwise the record is unchanged |
| Models.LastFourAreCpfSuffix | beneficios/models.py:70-73 | the stored four are digits and end the CPF's digit string |
| Models.ConfigStore.Save | beneficios/models.py:199-202 | saving always writes the row with key 1, replacing any other |
| Models.ConfigStore.GetConfig | beneficios/models.py:204-206 | returns the row with key 1, creating it with the defaults when it is missing |
| Models.AtMostOneConfig | beneficios/models.py:199-206 | a table keyed only by 1 holds at most one configuration |
| Models.User.constructor | beneficios/models.py:5-7 | a new user is active and must change the password |
| Memoranda.LatestSequence | beneficios/services.py:11 | none exactly when the year has no memorandum; otherwise the year's highest sequence |
| Memoranda.NextSequence | beneficios/services.py:12 | above every sequence of the year; 1 for a fresh year; otherwise one more than an existing sequence |
| Memoranda.FormatNumber | beneficios/services.py:13 | the number carries the `/` between sequence and year |
| Memoranda.FormatNumberLayout | beneficios/services.py:13 | the number is the sequence as digits padded with zeros to at least five (exactly five below 100000), then `/`, then the year |
| Memoranda.ParseFormatNumber | beneficios/services.py:13 | the number text reads back as the sequence and year |
| Memoranda.FormatNumberInjective | beneficios/services.py:13 | different (sequence, year) pairs give different numbers |
| Memoranda.NextNumber | beneficios/services.py:6-15 | returns the number text, the year and the next sequence, and the text reads back as that pair |
| Memoranda.NextNumberFresh | beneficios/services.py:6-15 | the next number differs from every number already issued |
| Memoranda.NumbersUnique | beneficios/models.py:105 | with unique (ano, sequencia) and numbers built from them, no two memoranda share a number |
| Memoranda.FirstNumberOfYear | beneficios/services.py:12-13 | the first memorandum of 2026 is `00001/2026` |
| Memoranda.Snapshots | beneficios/services.py:59-66 | one frozen row per entry, copying the person, name, amount and order |
| Memoranda.MemorandoStore.Registrar | beneficios/services.py:18-68 | appends one memorandum with the next sequence of the year, its number, the total of the amounts, the head count and the configuration current at issuance (the stored one, or the default, which it then stores, when there is none); appends its snapshot rows; keeps the store's invariants, including unique (ano, sequencia) |
| Memoranda.MemorandoStore.OnPessoaDeleted | beneficios/models.py:138 | deleting a person blanks the person link of that person's snapshot rows and changes nothing else |
| Listing.ByName | beneficios/views.py:253-254 | with a name, exactly the people whose name contains it ignoring ASCII and Latin-1 case, in list order; without one, everyone |
| Listing.ByStatus | beneficios/views.py:256-259 | `ativo` keeps exactly the active people, `desativado` exactly the deactivated ones, any other status everyone; in list order |
| Listing.ByValue | beneficios/views.py:261-265 | a positive amount keeps exactly the people with that amount, in list order; a missing, unparsable or non-positive amount keeps everyone |
| Listing.Filtered | beneficios/views.py:253-279 | a person is in the filtered rows exactly when they are listed and pass every filter that was given: name, status, amount and CPF |
| Listing.ByCpf | beneficios/views.py:268-279 | with a CPF query, exactly the people whose stored last four digits end the query digits and whose CPF digits contain the query digits, each as often as listed and in list order |
| Listing.CpfSearchSound | beneficios/views.py:268-279 | every person the CPF search returns has the query's digits in their CPF |
| Listing.CpfSuffixQueryFinds | beneficios/views.py:268-279 | a query of at least four digits that ends a person's CPF finds that person |
| Listing.CpfMiddleDigitsNotFound | beneficios/views.py:270-273 | digits from the middle of a CPF (`2345` in `12345678909`) do not find it, because the prefilter compares the query's last four digits |
| Listing.PositionFilter | beneficios/views.py:281-304 | the position range slices exactly when accepted (a start of at least 1 with an end not before it, a start of at least 1 alone, or a non-negative end alone); a slice starts at `id_de`, or at 1 without it, and keeps the rows from there up to `id_ate` or the end; otherwise the rows are unchanged; each notice arises exactly in its own case (start below 1, end before start, not a number) |
| Listing.SliceKeepsPositions | beneficios/views.py:284-301 | the sliced rows are the filtered rows at positions first, first+1, …; the slice ends at `id_ate` or at the end of the list, whichever comes first, and is empty when it starts past the end |
| Listing.NumberRows | beneficios/views.py:306-310 | row j gets ordinal start + j |
| Listing.ShowSlice | beneficios/views.py:306-310 | every displayed ordinal is the person's position in the filtered list |
| Listing.PageSizeAsWritten | beneficios/views.py:333-335 | a non-integer `por_pagina` crashes; any integer result is one of 15, 25 and 50 |
| Listing.PageSizeCrashes | beneficios/views.py:333 | `por_pagina=abc` crashes, while 7 falls back to 15 |
| Listing.PageSize | beneficios/views.py:333-335 | one of 15, 25 and 50: the requested size when it is offered, 15 otherwise |
| Listing.PageSizeAgrees | beneficios/views.py:333-335 | the corrected size equals the size as written whenever the latter does not crash |
| Listing.PageOf | beneficios/views.py:337-340 | a page holds its size in rows, fewer on the last page and none past the end, and its rows are the list's rows in order from (number − 1) × size |
| Listing.ShowPage | beneficios/views.py:333-343 | the page size is the clamped `por_pagina`; as many rows are shown as the page holds, and their ordinals are the list positions (number − 1) × size + j + 1 of the people shown |
| Listing.MassPosition | beneficios/views.py:621-636 | when the range is accepted, the rows from position `id_de` (or 1) up to `id_ate` or the end, in order; otherwise every row, unchanged |
| Listing.MassStatus | beneficios/views.py:597-600 | an empty status keeps exactly the active people, `desativado` exactly the deactivated ones, any other status everyone; in list order |
| Listing.MassSelection | beneficios/views.py:583-636 | only active people of the input are selected |
| Listing.MassOutcome | beneficios/views.py:640-642 | an error exactly when the selection is empty; otherwise the selection |
| Listing.DeactivatedSelectsNobody | beneficios/views.py:597-600 | asking for deactivated people in a mass generation always ends in "no person found" |
| Listing.MassPositionAgrees | beneficios/views.py:621-636 | the mass generation's position range selects the same rows as the list's |
| Listing.MassSelectionMatchesList | beneficios/views.py:583-636 | with status `ativo`, a mass generation prints exactly the list's filtered rows after its position range and before pagination: with a range, the rows the list numbers; without one, every filtered row, of which the list shows one page |
| Dashboard.CardFor | beneficios/views.py:28-54 | a card carries its benefit's id and name; its active and deactivated counts add up to its total; its colour cycles by index and it always has an icon; its amount is the sum over its active members, formatted in reais |
| Dashboard.CardCounts | beneficios/views.py:29-34 | a card's total counts the people enrolled in its benefit, and its active and deactivated counts those of them with that status |
| Dashboard.CardIcon | beneficios/views.py:39-40 | the benefit's own icon when it has one, otherwise the fallback icon at the card's index modulo 4 |
| Dashboard.BuildCards | beneficios/views.py:25-57 | one card per active benefit, in order, and the overall total with its formatted text |
| Dashboard.TotalCoversActiveEnrolment | beneficios/views.py:28-54 | the overall monthly total is the sum of the amounts of every active person enrolled in an active benefit |
| Dashboard.RangeOf | beneficios/views.py:64-71 | every amount falls in the range it is assigned to |
| Dashboard.RangesPartition | beneficios/views.py:64-71 | the six ranges are disjoint and cover all amounts |
| Dashboard.DistributionCountsEveryone | beneficios/views.py:64-71 | the six counts add up to the number of people counted |
| Dashboard.OverviewOf | beneficios/views.py:59-83 | the total counts the people in active benefits and the active and deactivated counts those of them with that status; the distribution is taken over the active ones; active plus deactivated is the total and the distribution accounts for every active person |
| Dashboard.CountCoversEnrolment | beneficios/views.py:28-34 | adding up per-benefit head counts over benefits with distinct ids counts every person enrolled in one of them exactly once |
| Dashboard.CardSumsAreCounts | beneficios/views.py:28-34 | the cards' totals, active and deactivated counts add up to the per-benefit counts among all, active and deactivated people |
| Dashboard.CardsAddUpToOverview | beneficios/views.py:25-83 | the cards' totals, active counts and deactivated counts add up to the dashboard's overall total, active and deactivated figures |
| Toggles.TogglePessoa | beneficios/views.py:166-174 | flips `ativo` and saves, which also refreshes `cpf_ultimos_4`; nothing else changes |
| Toggles.ToggleBeneficio | beneficios/views.py:417-425 | flips `ativo` and nothing else |
| Toggles.Decide | beneficios/views.py:479-489 | a flag is flipped exactly when the actor is staff and is not the target; non-staff are always refused |
| Toggles.OwnAccountNeverFlipped | beneficios/views.py:487-489 | no one can toggle their own account |
| Toggles.ToggleStaff | beneficios/views.py:477-496 | flips `is_staff` exactly when allowed; the other flags never change |
| Toggles.ToggleActive | beneficios/views.py:499-518 | flips `is_active` exactly when allowed; the other flags never change |
| MemoLayout.LetterheadBottom | beneficios/utils.py:336-405 | the first page's table starts below the letterhead's fixed heights and the introduction paragraph |
| MemoLayout.CellsFor | beneficios/utils.py:493-502 | the name and benefit are their first 38 characters and the account its first 12 (all of each when shorter); the amount is `R$ ` plus the Brazilian text; the ordinal reads back as the row number |
| MemoLayout.NumberedRows | beneficios/utils.py:473-504 | row k shows person k with ordinal k + 1 |
| MemoLayout.CursorStep | beneficios/utils.py:473-481 | each row moves the cursor down one row height, after a page break when the row would reach the bottom margin |
| MemoLayout.PlaceRow | beneficios/utils.py:473-504 | placing a row keeps every page well formed, appends exactly that row, and opens a new page exactly when the row would reach the margin |
| MemoLayout.LayRows | beneficios/utils.py:473-504 | all rows are laid out in person order on well-formed pages, starting under the letterhead |
| MemoLayout.PlaceClosing | beneficios/utils.py:507-512 | the closing goes under the last row when it fits, and alone on a fresh page otherwise |
| MemoLayout.MassMemorandum | beneficios/utils.py:312-516 | the document opens with the letterhead, shows every person's row exactly once and in order, and ends with the closing; the page count matches the closed form |
| MemoLayout.CursorClosedForm | beneficios/utils.py:473-481 | the cursor and the number of page breaks after n rows, in closed form: the first page takes what fits, each later page 36 rows |
| MemoLayout.PageCountClosedForm | beneficios/utils.py:473-512 | the number of pages for n people, in closed form |
| MemoLayout.ContinuationCapacity | beneficios/utils.py:475-479 | a continuation page holds at most 36 rows |
| MemoLayout.LaterPagesHoldAtMost36Rows | beneficios/utils.py:475-479 | every page after the first holds at most 36 rows |
| Receipts.LocalityLine | beneficios/utils.py:143-150 | no locality line exactly when both bairro and cidade are empty; when both are present, bairro, then ` - `, then cidade; otherwise the one present alone |
| Receipts.ReceiptFor | beneficios/utils.py:37-150 | the receipt shows the month's name, the benefit, the year, the amount as `R$ ` plus Brazilian text, the amount in words in upper case, the name upper-cased as signer, `CPF: ` and the CPF, the address exactly when there is one, and the locality line |
| Receipts.ReceiptAmountReadsBack | beneficios/utils.py:68-69 | the printed amount's digits read back as the benefit amount |
| Receipts.SeparatePages | beneficios/utils.py:152-169 | a single person's receipt is two identical pages |
| Receipts.TwiceShape | beneficios/utils.py:518-536 | doubling gives page j = item j / 2 |
| Receipts.ReceiptsFor | beneficios/utils.py:518-536 | one receipt per person, in order |
| Receipts.ReceiptPagesShape | beneficios/utils.py:518-536 | 2n pages for n people, and page j is person j / 2's receipt |
| Receipts.SinglePersonBatch | beneficios/utils.py:152-169 | a batch of one person gives the same pages as the single receipt |
| Receipts.ReceiptPagesAppend | beneficios/utils.py:518-536 | batching two lists of people one after the other gives their pages one after the other |
| Receipts.MassReceipts | beneficios/utils.py:518-536 | the loop produces each person's receipt twice, person after person |
| DocumentMerge.PagesTaken | beneficios/utils.py:559 | at most 4 pages, all of a shorter document, and none when nothing can be read |
| DocumentMerge.FirstFailure | beneficios/utils.py:551-570 | none exactly when every document is readable; otherwise the first unusable person, with everyone before readable |
| DocumentMerge.MergeFailsIff | beneficios/utils.py:551-570 | the bundle fails exactly when some person's document is missing or unreadable |
| DocumentMerge.MergedLength | beneficios/utils.py:559-567 | the bundle has twice the sum of min(pages, 4) pages |
| DocumentMerge.MergedPagesInRange | beneficios/utils.py:559-567 | every bundled page is one of the first four pages of an existing person's document |
| DocumentMerge.MergedPagesPrefix | beneficios/utils.py:551-567 | adding people only appends pages |
| DocumentMerge.MergeDocuments | beneficios/utils.py:538-592 | the loop gives the whole bundle, or the error of the first failing person |
| DocumentMerge.FirstFailureUnique | beneficios/utils.py:551-570 | the first failure is the first unusable index after a readable prefix |
| Query.Where | beneficios/views.py:219 | a filter keeps a row exactly when the table has it and it satisfies the filter, and never more rows than the table |
| Query.WhereCounts | beneficios/views.py:219 | each accepted row is kept as often as it occurs, and no other row |
| Query.WhereOrder | beneficios/views.py:219 | the kept rows appear in the table's order |
| Query.WhereSameFilter | beneficios/views.py:59-80 | two filters accepting the same rows keep the same rows |
| Query.WhereDisjointCount | beneficios/views.py:28-34 | two filters that never both accept a row keep as many rows together as the filter accepting either |
| Query.WhereCommutes | beneficios/views.py:243-279 | successive filters commute and equal one filter on their conjunction |
| Query.WhereSplits | beneficios/views.py:222-226 | the active and deactivated counts add up to the total |
| Query.Slice | beneficios/views.py:292 | a queryset slice `[lo:hi]` keeps the rows at positions lo up to hi, clipped to the list |
| Query.SliceFrom | beneficios/views.py:297 | a slice `[lo:]` keeps the rows from lo on |
| Text.Digits | beneficios/models.py:71 | only digits are kept, never more characters than the text has, and a text of digits is unchanged |
| Text.DigitsCounts | beneficios/models.py:71 | every digit of the text is kept as often as it occurs, and no other character |
| Text.DigitsOrder | beneficios/models.py:71 | the digits are kept in their original order |
| Text.NatToString | beneficios/services.py:13 | the decimal text of a number, without leading zeros, reading back as the number |
| Text.ZeroPad | beneficios/services.py:13 | `:05d`: pads with zeros on the left to the width, keeping the text at the right |
| Text.ZeroPadValue | beneficios/services.py:13 | zero padding does not change the value |
| Text.NatToStringWidth | beneficios/services.py:13 | a number below 10^w takes at most w digits, so `:05d` pads every sequence below 100000 to exactly five |
| Text.Take | beneficios/utils.py:499-502 | `s[:n]` is a prefix of at most n characters, all of s when s is shorter |
| Text.LastN | beneficios/models.py:73 | `s[-4:]` has four characters and ends s |
| Text.Lower | beneficios/forms.py:55 | lower-cases each ASCII and Latin-1 capital letter and keeps every other character |
| Text.Upper | beneficios/utils.py:88 | upper-cases each ASCII and Latin-1 small letter, which lower-cases back to it, and keeps every other character |
| Text.UpperAccented | beneficios/utils.py:88 | `três` upper-cases to `TRÊS`, as in the spelled-out amounts |

## Left out

- **Drawing and PDF files.**
  - ReportLab drawing (fonts, coordinates within a line, images) is left out: the memorandum is reduced to the blocks placed on each page, and the receipts to the fields they print.
  - PyPDF2 and the file system are left out: an attachment is `NoDocument`, `Unreadable` or `Readable(pageCount)`.
- **Outside code, clocks and encryption.**
  - `num2words` is a parameter, `words`; it returns nothing where the library raises.
  - The current month and year are parameters.
  - `EncryptedCharField` is left out: the CPF is held as plain text.
- **Numbers.**
  - Amounts are integer cents, not `Decimal`.
  - The dashboard's `float(valor_mensal)` and the list's `float(f_valor)` comparison are reduced to exact cents.
  - Python's `int()` parsing of query parameters is abstracted as `Absent`, `Malformed` or `Given(n)`, after `strip()`. For `por_pagina` only a missing key is `Absent`; an empty value is `Malformed`, since it reaches `int('')`.
- **ORM and views.**
  - The ORM is rows in sequences, given in the query's order.
  - Transactions and concurrent issuance are left out.
  - Redirects, flash messages and templates are left out.
  - Views that only render are not modelled.
  - `Paginator`'s resolution of an out-of-range page number is left out: the page number is an input.
  - Negative queryset slicing is taken to raise `ValueError`, as Django 4 and later do, which the position handler catches.
- **Text.**
  - Digits are the ASCII digits; Python's `str.isdigit` also accepts other Unicode digits, such as superscripts.
  - Lower and upper case cover the ASCII and Latin-1 letters; Python also maps `ß` to `SS`, `ÿ` to `Ÿ`, `µ` to `Μ` and the letters of other scripts.
  - `clean_nome_completo` (a `str.title()` call) is not modelled.
- **Scope.**
  - The single-person memorandum (`gerar_memorando_pdf`) is not modelled; its amount text uses the same formatting as `Money.FormatBR`.
  - The list page's header counts and amount ranges repeat the dashboard's aggregates (`Dashboard.CardFor`, `Dashboard.Distribute`) for one benefit; they are not modelled separately.
  - The middleware is not listed in `MIDDLEWARE` (config/settings.py:28-36), so as configured it never runs; the model states what it does once installed.
  - The password-change page itself is not part of this model. No view serves it and no URL name `trocar_senha` exists in beneficios/urls.py or config/urls.py; `Middleware.Serve` assumes it is routed at `/trocar-senha/`, the prefix the middleware exempts.
- Middleware.Decide: the prefix list is kept as written. `/admin/` does not cover the admin site as mounted at `/panel-super-gesocial/` (config/urls.py:7), so flagged users are redirected away from it (`Middleware.AdminMountNotExempt`).
- Memoranda.MemorandoStore.Registrar: the memorandum store is a sequence and the `(ano, sequencia)` uniqueness is a store invariant; the database enforcing it against concurrent writers is not modelled.
- MemoLayout.LetterheadBottom: heights are whole millimetres and the introduction's height is a parameter, since measuring wrapped text is not modelled.

## Findings

| source | as written | input that shows it | evidently intended | confidence | as-written member | corrected member |
|---|---|---|---|---|---|---|
| beneficios/views.py:333 | `int(request.GET.get('por_pagina', 15))` sits outside any `try`, so a non-integer value raises and the list page fails | `?por_pagina=abc` or `?por_pagina=` | an unusable page size falls back to 15, as an integer outside 15/25/50 already does | not executed | Listing.PageSizeAsWritten (shown by Listing.PageSizeCrashes) | Listing.PageSize (related by Listing.PageSizeAgrees) |
| beneficios/middleware.py:23 | `redirect('trocar_senha')` names a URL that neither beneficios/urls.py nor config/urls.py defines, so `redirect` raises `NoReverseMatch` | a logged-in user with `must_change_password` set (the default for new users) requesting `/` | the user is sent to the password-change page under `/trocar-senha/`, which the middleware exempts | not executed | Middleware.Respond with the site's URL names (shown by Middleware.FlaggedUserGetsError) | Middleware.Serve (proved by Middleware.RedirectNeverLoops) |
