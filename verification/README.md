# Verified models of the exact-arithmetic core

The server keeps a layer without I/O: decimal arithmetic and the money engine of the Measurement Book, the printer and
parser of contractual remarks, a CSV reader, document numbering, throttles, the TallyPrime export readers with their
reconciliation, the railway document readers, GST restatement and amounts in words. This project models that layer in
Dafny and proves what it is relied on for.

`dafny verify dfyconfig.toml` checks everything.

## How it is laid out

| files | what they model |
|---|---|
| `Text`, `Decimal`, `Money`, `Sums` | trimming and numerals, decimals as (units, scale) with the number they stand for, paise, sums over maps |
| `MbRemark`, `MbCompute`, `MbRuns` | stage pricing and remark wording, one book, runs of books |
| `MbLines` | which items are on a book, and what each line bills, costs and claims |
| `RemarkClaims`, `BaselinePropose` | reading claims back out of a remark, and the opening position proposed from them |
| `Csv`, `NumberSeries` | the quoting state machine and its printer, numbering templates |
| `RateLimit`, `AccountLockout` | sliding windows and lockouts, in process and in PostgreSQL |
| `UnionFind`, `TallyMatch`, `TallyReconcile` | the inline union-find, the two matching arms, verdicts over components |
| `TallyScan`, `TallyVouchers`, `TallyDocuments` | line shapes, the depth-counting scanner as a class, well-nested documents and what the scanner makes of them |
| `TallyLinks`, `TallyRecords`, `TallyDeductions` | links, records and receipts in terms of the fields, tags and ledgers they come from |
| `TallyReceipts`, `TallyImport` | the receipt classifier, and the scanner feeding its two consumers |
| `RailwayLayout`, `RailwayMeasurement`, `RailwayMatch`, `RemarkReduction` | cells of a line, the sheet parser, the line-by-line matcher, what its reduction of a remark keeps |
| `ExecutedValue`, `AmountInWords` | GST bases and percentages, Indian-system words and a reader that inverts them |

Code that works step by step is modelled by methods with loops or by classes whose fields the methods change; each is
proved against a function, and the results below are about that function. A throttle's specification is a function of
the history of calls; the link graph's connectedness is by walks over edges; a decimal's value is a real number; a
Tally document is a tree.

## What the code does that its comments do not say

- `tally-vouchers.ts:980` calls the rewriting of parents path halving. Each step rewrites the node it leaves and moves to
  the old parent, which is path splitting; nothing depends on the difference.
- A `NAME` is collected as a document number at any depth inside the outermost `BILLALLOCATIONS.LIST`, not only at its
  own level (`tally-vouchers.ts:668-671`); `OwnLevelOnly` says exactly when that matters.
- "The first AMOUNT only" is the first readable one: an unreadable figure leaves the leg open to the next
  (`tally-vouchers.ts:660-667`); `SecondAmountTaken` is such a leg and `FirstAmountExactlyWhen` the exact condition.
- A receipt leg that is both a round-off and the customer credited or a bank debited is added twice, so acceptance is
  double-entry balance only where no ledger is both (`tally-receipts.ts:360-363`).
- `periodsOf` prints "0" periods when the share rounds to one hundredth (`mb-remark.ts:369-371`), against the fallback
  its caller describes; `TenthOfAUnit` is such a quantity and `ZeroPeriodsPrinted` the exact condition.
- "The next book bills it" (`mb-compute.ts:257-259`) fails where a book left some out and the next one measures less
  than the room reopened: the clamp sees one book's delta and never the excess an earlier one left out. `ExcessStaysOut` is such a run and
  `NextBookBillsExactlyWhen` the exact condition.
- `normaliseRemark` deletes decimal points (`railway-measurement-match.ts:239-251`), against the comment that nothing
  which could turn one claim into another is removed (`railway-measurement-match.ts:235-237`). `LostPointMatches` is a
  book and a sheet that state different quantities and are answered as matched; `ReducedAlikeExactlyWhen` is the exact
  condition on printed remarks, and `WholeClaimsSurvive` the case in which the comment holds.
- A continuation is lost to the remark where the remark before the wide gap ends in a blank or holds a tab beside
  another blank, and cut short at a wide gap of its own (`railway-measurement-parse.ts:197-200`): `ContinuationLost`,
  and `WeldExactlyWhen` for the exact condition.
- An earlier railway entry with the same item number is replaced by a later one before anything is compared
  (`railway-measurement-match.ts:300-303`): `WrongEntryReplaced`.
- The PostgreSQL lockout counts after inserting, within a window open at its left end, so a window of zero never counts
  the failure being recorded (`rate-limit.ts:295-304`). With a limit of one failure it therefore never locks, where the
  Map version does; under every other rule `ReplayLockouts` shows the two alike.
- Restating an inclusive figure and back stays within the one paisa callers allow for (`executed-value.ts:122-126`) at
  rates up to 200% and at no higher one: `InclusiveExactlyWhen`.
- A division code of another length can make two financial years print one number (`number-series.ts:88-92`):
  `DivisionLengthMatters`, and `DivisionsCollideExactlyWhen` for the codes that can.

## Model

| member | source | states |
|---|---|---|
| `Decimal.AddVal` | apps/server/src/mb-remark.ts:206-213 | Adding two decimals of any scales adds the numbers they stand for, exactly. |
| `Decimal.SubVal` | apps/server/src/mb-compute.ts:199-203 | Subtraction by negating the text subtracts the numbers, exactly. |
| `Decimal.MinVal` | apps/server/src/mb-compute.ts:206-208 | The minimum is one of its arguments and the lesser number. |
| `Decimal.SignVal` | apps/server/src/mb-compute.ts:186-196 | The sign tests on text are the signs of the numbers. |
| `Decimal.MulVal` | apps/server/src/mb-remark.ts:227-231 | Multiplying decimal strings multiplies the numbers, exactly, at the sum of the scales. |
| `Decimal.RoundScaledRoundsTo` | apps/server/src/mb-remark.ts:245-257 | Rounding with truncating BigInt division is half-away-from-zero rounding, characterised without division. |
| `Decimal.RoundMonotone` | apps/server/src/mb-remark.ts:245-257 | Rounding respects order across scales, so two spellings of one number round alike. |
| `Decimal.RoundError` | apps/server/src/mb-remark.ts:238-257 | A rounded figure is within half a unit of the exact one. |
| `Decimal.ParseFormat` | apps/server/src/mb-remark.ts:163-199 | What formatting prints, parsing reads back with the same units and scale, sign included. |
| `Decimal.RenderQuantity` | apps/server/src/mb-remark.ts:289-297 | The trailing-zero loop computes the canonical text. |
| `Decimal.RenderInjective` | apps/server/src/mb-remark.ts:289-302 | Two decimals render alike exactly when they are the same number. |
| `Money.PaiseRoundTrip` | apps/server/src/money.ts:48-68 | Every paise count survives printing and reading. |
| `Money.RupeesExactlyWhen` | apps/server/src/money.ts:48-61 | What a whole number of rupees, or rupees and a fraction, is read as: one digit counts tenths, more than two are refused. |
| `Money.OnlyFiguresRead` | apps/server/src/money.ts:48-61 | Nothing else without a sign is read as money. |
| `Money.SignsRead` | apps/server/src/money.ts:48-61 | Blanks around a figure are dropped, and a minus sign negates what stands behind it. |
| `MbRemark.ComputeStageAmounts` | apps/server/src/mb-remark.ts:462-479 | Each stage is rounded on its own and the total is the sum of the rounded amounts. |
| `MbRemark.StageAmountError` | apps/server/src/mb-remark.ts:462-479 | A stage amount is within half a paisa of quantity x rate x percent. |
| `MbRemark.StageAmountMonotone` | apps/server/src/mb-remark.ts:462-479 | More quantity never prices lower at non-negative rate and percentage. |
| `MbRemark.ZeroPeriodsPrinted` | apps/server/src/mb-remark.ts:350-378 | A positive quantity prints as zero periods exactly when its share rounds to one hundredth of a period. |
| `MbRemark.TenthOfAUnit` | apps/server/src/mb-remark.ts:350-378 | A concrete quantity and cadence that print as "0" periods: a tenth of a unit where a period takes ten. |
| `MbRemark.HundredthsNearest` | apps/server/src/mb-remark.ts:350-372 | The hundredths of a period are the share quantity x periods / total to the nearest, as numbers. |
| `MbRemark.PeriodsExactlyWhen` | apps/server/src/mb-remark.ts:350-378 | A count prints as the whole number it is within a hundredth of, otherwise in hundredths, and there is none for a total, a quantity or a share that is not positive. |
| `MbRemark.OneStageWording` | apps/server/src/mb-remark.ts:424-453 | The whole text of a remark with one stage: paid before and now, now alone, or before alone with "Now to pay nill." |
| `MbRemark.TwoStagesWording` | apps/server/src/mb-remark.ts:439-453 | Two stages paid now are joined by "and" in one clause that ends in a full stop. |
| `MbRemark.PeriodWording` | apps/server/src/mb-remark.ts:396-411 | On the certificate stage of a cadence the fragment names periods, in the plural unless the count reads 1; every other stage names the quantity and unit. |
| `MbRemark.RenderOrder` | apps/server/src/mb-remark.ts:424-426 | Stages are printed supply, installation, certificate, final bill, none lost and none twice, in whatever order they are given. |
| `MbRemark.RemarkExactlyWhen` | apps/server/src/mb-remark.ts:413-453 | A remark is refused exactly when a stage is given twice; otherwise it is that of the stages in order. |
| `MbCompute.OverrideVal` | apps/server/src/mb-compute.ts:233-238 | An override only ever reduces: the result is the lesser of the two numbers. |
| `MbCompute.ClampVal` | apps/server/src/mb-compute.ts:261-269 | The clamp bills the lesser of the delta and the room left, and nothing once the prior is past the sanction. |
| `MbCompute.FinalBillReachesBase` | apps/server/src/mb-compute.ts:286-300 | Prior plus final-bill delta is the greater of the prior and the base, and off the delivered branch stays within the sanction. |
| `MbCompute.NeverAnotherRow` | apps/server/src/payment-matrix.ts:82-111 | Percentages resolve exactly when the item's own category has a row, and then from the first such row. |
| `MbCompute.ComputeMeasurementBook` | apps/server/src/mb-compute.ts:326-540 | The imperative book, item by item, is the specified fold of the items in the order given. |
| `MbCompute.PriceAdjustment` | apps/server/src/mb-compute.ts:504-536 | What an adjustment left out is the unreduced price of the two stages less the reduced one, and nothing on an unadjusted item. |
| `MbCompute.AdjustmentsOnlyMoveMoney` | apps/server/src/mb-compute.ts:326-540 | Total plus adjusted-away equals, to the paisa, the total of the same book with every override removed. |
| `MbCompute.AwayNotNegative` | apps/server/src/mb-compute.ts:504-536 | The adjusted-away amount is never negative at non-negative rates and percentages. |
| `MbCompute.TotalIsLineAmounts` | apps/server/src/mb-compute.ts:465-502 | The total is the sum of the four stage amounts of every line, and every line is a priced item of the book. |
| `MbCompute.OrderDoesNotPrice` | apps/server/src/mb-compute.ts:336-343 | Total and adjusted-away amount are the same for every permutation of the items. |
| `MbLines.BookListsEarners` | apps/server/src/mb-compute.ts:375-402 | The book has one line for each item with a positive stage or an adjustment whose category has a row, in the items' order, and names every other such item as unresolved. |
| `MbLines.LinesStateItems` | apps/server/src/mb-compute.ts:349-424 | On every line, as numbers: supply is the lesser of override and measurement, installation that lesser figure clamped to the room, certificate the measurement clamped, final bill the excess of the base on a final book and nothing otherwise; each amount is within half a paisa of its price at the first row of the category. |
| `MbLines.BaseVal` | apps/server/src/mb-remark.ts:501-546 | The base of the final bill, category by category, an undecided category by whether the description mentions installation. |
| `MbLines.LineRemark` | apps/server/src/mb-compute.ts:442-471 | A line's remark claims exactly the item's own priors at positive percentages and then this book's billed quantities, each in contractual order. |
| `MbLines.CadenceRemark` | apps/server/src/mb-compute.ts:442-471 | A maintenance line with a cadence claims the same four stages, with its certificate counted in the item's own periods. |
| `MbRuns.EachBillsItsOwn` | apps/server/src/mb-compute.ts:233-269 | In every run of books and cancellations, each book bills of its installation and certificate stages between nothing and what it measured. |
| `MbRuns.NeverPastTheSanction` | apps/server/src/mb-compute.ts:261-269 | In every run of books computed from the cumulative of the books then live, under amendments and cancellations, the cumulative billed on their lines never passes the highest sanction in force. |
| `MbRuns.BillsUpToTheSanction` | apps/server/src/mb-compute.ts:261-269 | In every such run under one sanction and without cancellations, cumulative billed equals the lesser of total measured and sanctioned. |
| `MbRuns.NextBookBillsExactlyWhen` | apps/server/src/mb-compute.ts:252-269 | After any run, two more books, the second under a sanction at least as high, together bring the cumulative to all that was measured, up to that sanction, exactly when the first left nothing out or the second measures all the room itself. |
| `MbRuns.ExcessStaysOut` | apps/server/src/mb-compute.ts:256-259 | A concrete run: fifteen measured under ten bills ten, and once the sanction is twenty a book that measures nothing bills nothing. |
| `MbRuns.MoneyDrift` | apps/server/src/mb-remark.ts:462-479 | For each of the four stages, the amounts on k live lines of one rate come to within k/2 paise of rate x percent x cumulative quantity. |
| `RemarkClaims.RemarkIsRead` | apps/server/src/billing-baseline-propose.ts:67-77 | The pattern finds in a printed remark exactly one claim for each printed fragment, prepaid first, whatever the unit, provided it holds no percent sign. |
| `RemarkClaims.NoPercentNoClaims` | apps/server/src/billing-baseline-propose.ts:67-67 | Text without a percent sign holds no claim. |
| `BaselinePropose.ClaimsAreNumbers` | apps/server/src/billing-baseline-propose.ts:67-77 | Whatever the pattern captures, from any text, is a number the exact reader accepts. |
| `BaselinePropose.ParseRemarkClaims` | apps/server/src/billing-baseline-propose.ts:69-77 | The insertion-ordered map holds each claimed percentage once, in order of first appearance, with the sum of its quantities. |
| `BaselinePropose.SingleMatch` | apps/server/src/billing-baseline-propose.ts:119-124 | The filter finds one stage exactly when one and only one stage carries the percentage. |
| `BaselinePropose.ProposeBaselineLine` | apps/server/src/billing-baseline-propose.ts:107-146 | The loop answers null exactly when some claimed percentage does not name one stage, and otherwise each stage holds the sum claimed at its own percentage, priced stage by stage. |
| `BaselinePropose.RemarkRoundTrip` | apps/server/src/billing-baseline-propose.ts:107-146 | Printing four stages and proposing from the remark declines exactly when a printed stage shares its percentage with another stage; otherwise it recovers every cumulative quantity and the amount of the cumulative stages. |
| `BaselinePropose.PriorPlusDelta` | apps/server/src/mb-remark.ts:427-443 | At a positive percentage the recovered cumulative is the prior quantity plus this book's. |
| `Csv.ParseCsv` | apps/server/src/csv.ts:79-184 | The index-driven loop computes the reading specified character by character, on every input. |
| `Csv.RoundTrip` | apps/server/src/csv.ts:79-184 | Rows printed per section 2 of RFC 4180, quoted or bare, with any mix of LF, CRLF and CR and an optional byte-order mark, read back exactly, less trailing single-empty-field rows. |
| `Csv.RoundTripUnterminated` | apps/server/src/csv.ts:165-184 | The same where the last record has no terminator. |
| `Csv.UnclosedExactlyWhen` | apps/server/src/csv.ts:168-172 | A text is refused as unclosed exactly when it is any text that leaves the reader between fields, a quote, and characters with every quote among them doubled. |
| `Csv.CeilingsRefused` | apps/server/src/csv.ts:87-105 | One record too many, or one field too many, refuses the document with the matching error. |
| `NumberSeries.AssertValidTemplate` | apps/server/src/number-series.ts:218-275 | The loop refuses with the first error in the order the checks run. |
| `NumberSeries.RefusedUnlessAccepted` | apps/server/src/number-series.ts:218-275 | No refusal exactly when every piece is an allowed token or literal, a counter is used and a scope token is present where one is required. |
| `NumberSeries.RefusalExactlyWhen` | apps/server/src/number-series.ts:218-275 | Each refusal in turn: blank, a stray brace, the first bad token, no counter, no scope. |
| `NumberSeries.BadTokenExactlyWhen` | apps/server/src/number-series.ts:235-260 | A token is unknown exactly when its name is none of the eight, and its width is bad exactly on a counter whose width is not one to twelve. |
| `NumberSeries.CounterDecides` | apps/server/src/number-series.ts:136-185 | Two renderings of an accepted template that agree, with tokens of equal lengths, have the same counter, even with several counters of different widths. |
| `NumberSeries.InjectiveInSequence` | apps/server/src/number-series.ts:136-185 | An accepted template never prints two counters alike, the other tokens fixed. |
| `NumberSeries.ChallansApart` | apps/server/src/number-series.ts:298-326 | Two delivery or issue challans of one shape never share a number unless they share the counter and the work or the prefix. |
| `NumberSeries.StandaloneApart` | apps/server/src/number-series.ts:332-343 | Two standalone challans of one shape never share a number unless they share the counter and the prefix or the two digits of the year. |
| `NumberSeries.StoredTokens` | apps/server/src/number-series.ts:136-185 | {WORK}, {PREFIX} and {FY} print the stored text, and a blank or absent one is missing. |
| `NumberSeries.DivisionPrinted` | apps/server/src/number-series.ts:79-92 | {DIV} prints the code less one zero at the end of a longer one. |
| `NumberSeries.YearTokens` | apps/server/src/number-series.ts:136-185 | Of a date {YYYY} prints the year and {YY} its last two digits; of a financial year {FY} prints the label and {FY2} the two digits it opens in. |
| `NumberSeries.CounterToken` | apps/server/src/number-series.ts:136-150 | {SEQ:n} prints the counter in digits, led by zeros up to the width. |
| `NumberSeries.PlainCounter` | apps/server/src/number-series.ts:140-142 | {SEQ} without a width, or with an empty one, prints the counter in its plain digits. |
| `NumberSeries.PiecesSpell` | apps/server/src/number-series.ts:93-111 | The pieces of a template spell it, and its tokens are braced texts of one to twenty characters without a brace. |
| `NumberSeries.MissingExactlyWhen` | apps/server/src/number-series.ts:128-198 | A number with a hole in it is never printed: the first token without a value is named instead. |
| `NumberSeries.TokensAllowed` | apps/server/src/number-series.ts:281-296 | For each token the documents whose templates may hold it. |
| `NumberSeries.WidthsAllowed` | apps/server/src/number-series.ts:250-259 | A counter width is one or two digits that spell a number from one to twelve; any other width is refused as such. |
| `NumberSeries.InjectiveAcrossYears` | apps/server/src/number-series.ts:136-185 | For tax invoices and credit notes, with prefix and division of fixed length, equal numbers mean the same counter and start years equal modulo 100. |
| `NumberSeries.DivisionLengthMatters` | apps/server/src/number-series.ts:88-92 | A concrete accepted template and two divisions of different lengths that print one number in two years. |
| `NumberSeries.SameNumberExactlyWhen` | apps/server/src/number-series.ts:79-92 | In the series P{DIV}{FY2}{SEQ:3} two divisions print one number exactly when one printed code begins with the other and what follows is the same text. |
| `NumberSeries.DivisionsCollideExactlyWhen` | apps/server/src/number-series.ts:79-92 | Where the printed codes differ in length, two different years can share a number exactly when the longer code begins with the shorter and the third digit it has more, if any, is not zero. |
| `RateLimit.MapLimiter.Allow` | apps/server/src/rate-limit.ts:45-66 | The Map limiter answers what the history alone decides, sweeping or not. |
| `RateLimit.AttemptTable.InsertIfRoom` | apps/server/src/rate-limit.ts:220-233 | The serialised insert answers what the history alone decides. |
| `RateLimit.PgLimiter.Allow` | apps/server/src/rate-limit.ts:209-239 | One PostgreSQL instance answers what the shared history decides, whenever any instance deletes dead rows. |
| `RateLimit.NeverMoreThanMax` | apps/server/src/rate-limit.ts:57-65 | Over any run, every interval (t - window, t] holds at most max allowed attempts of a key. |
| `RateLimit.RefusedOnlyWhenFull` | apps/server/src/rate-limit.ts:57-62 | An attempt is refused exactly when its window already holds max allowed ones. |
| `RateLimit.OtherKeysUnseen` | apps/server/src/rate-limit.ts:57-65 | Other keys never change an answer. |
| `RateLimit.ReplayLimiters` | apps/server/src/rate-limit.ts:37-241 | One run gets the same answers from the Map limiter and from two PostgreSQL instances taking turns. |
| `AccountLockout.MapLockout.IsLocked` | apps/server/src/rate-limit.ts:127-134 | Locked exactly when the latest unlocked-to-locked transition since the last clear is less than lockMs old; sweeping is unobservable. |
| `AccountLockout.MapLockout.RecordFailure` | apps/server/src/rate-limit.ts:135-150 | True exactly when this failure locks an unlocked key. |
| `AccountLockout.LockoutTables.RecordFailure` | apps/server/src/rate-limit.ts:281-318 | The delete, insert, count and upsert of one transaction give the same answer under every rule but a window of zero with a limit of one failure, and there always answer no. |
| `AccountLockout.HandleBoth` | apps/server/src/rate-limit.ts:111-328 | One call, sweeps included, gets the answer the history decides from the Map version, and from PostgreSQL the same one, or no under that one rule; both stores then describe the longer history. |
| `AccountLockout.ReplayLockouts` | apps/server/src/rate-limit.ts:111-328 | One run of checks, failures and clears gets the same answers from the Map version and from two PostgreSQL instances exactly when the window is positive, or the limit is not one failure, or the run holds no failure. |
| `AccountLockout.CountedRows` | apps/server/src/rate-limit.ts:289-304 | The count taken after the insert reaches the limit exactly when the recent failures and the new one do, except under a window of zero with a limit of one, where it never does. |
| `AccountLockout.SomethingAnswered` | apps/server/src/rate-limit.ts:135-150 | Where one failure is the limit, some call of a run is answered yes exactly when the run holds a failure. |
| `AccountLockout.LocksOnTransition` | apps/server/src/rate-limit.ts:140-149 | recordFailure is true exactly on an unlocked-to-locked transition whenever locks last at all. |
| `AccountLockout.ClearForgets` | apps/server/src/rate-limit.ts:151-153 | After a clear the key answers as one never seen. |
| `UnionFind.Links.Find` | apps/server/src/tally-vouchers.ts:975-984 | find terminates, returns the root, and its pointer rewriting changes no root and keeps the forest acyclic. |
| `UnionFind.Links.Link` | apps/server/src/tally-vouchers.ts:985-991 | Linking adds exactly one edge to the graph the forest represents. |
| `UnionFind.Links.SameRepresentative` | apps/server/src/tally-vouchers.ts:974-1007 | After any calls, two nodes have one representative exactly when the edges connect them. |
| `UnionFind.NewEdgeConnects` | apps/server/src/tally-vouchers.ts:985-991 | What one more edge connects, by walks: exactly what was connected, or is now through the edge. |
| `TallyMatch.MatchKeysMeaning` | apps/server/src/tally-vouchers.ts:833-845 | At most forty distinct keys of three characters or more, each from a source field, and below the cap all of them. |
| `TallyMatch.MatchKeys` | apps/server/src/tally-vouchers.ts:833-845 | The loop with its early stop computes the specified keys. |
| `TallyMatch.BuildIndexes` | apps/server/src/tally-vouchers.ts:889-904 | The two indexes hold exactly the invoices with each number and each serial. |
| `TallyMatch.HitsFor` | apps/server/src/tally-vouchers.ts:917-964 | The hits of a Sales voucher are exactly the invoices the number arm, or failing that the guarded serial arm, justifies; refused serials are counted. |
| `TallyLinks.SqueezeOne` | apps/server/src/zoho-invoices.ts:621-623 | Squeezing keeps digits and capitals, makes small letters capitals and drops every other ASCII character. |
| `TallyLinks.SeparatorsAside` | apps/server/src/zoho-invoices.ts:621-623 | A dash, a slash, a blank and nothing between two parts squeeze alike. |
| `TallyLinks.KeysAreCarried` | apps/server/src/tally-vouchers.ts:833-845 | Every key is the voucher's number, reference or a bill reference, squeezed, of three characters or more; with at most 38 bill references every such text is a key. |
| `TallyReconcile.FindPairs` | apps/server/src/tally-vouchers.ts:912-966 | The pairs found are exactly the matches, the rest of the Sales vouchers are unmatched, and collisions are counted. |
| `TallyReconcile.LinkAll` | apps/server/src/tally-vouchers.ts:992-1007 | The forest represents exactly the edges of the pairs and of the carried links. |
| `TallyReconcile.GroupByRoot` | apps/server/src/tally-vouchers.ts:1013-1040 | Each distinct voucher and known invoice is filed once, under its root, with its value. |
| `TallyReconcile.Judge` | apps/server/src/tally-vouchers.ts:1042-1061 | Every component has the verdict of its sums, and the disputed ones are counted. |
| `TallyReconcile.MatchTallyVouchers` | apps/server/src/tally-vouchers.ts:884-1083 | Links are the matches with the verdict of their component of the link graph; unmatched vouchers, collisions and both component counts are those of the graph. |
| `TallyLinks.NumberLinks` | apps/server/src/tally-vouchers.ts:917-929 | A Sales voucher whose number, reference or a bill reference is an invoice number up to case and punctuation is linked to that invoice as an exact number. |
| `TallyLinks.SerialLinks` | apps/server/src/tally-vouchers.ts:930-962 | Where no number is known, the same five last digits behind different prefixes link the two, provided amount to a rupee, GSTIN or name agrees. |
| `TallyLinks.LinksAreGrounded` | apps/server/src/tally-vouchers.ts:917-964 | Conversely every link is of a Sales voucher, its evidence is the squeezed text of one of those three fields, and it satisfies its own arm's condition. |
| `TallyLinks.UnmatchedExactlyWhen` | apps/server/src/tally-vouchers.ts:916-965 | A voucher is unmatched exactly when it is a Sales voucher that knows neither a number nor a vouched serial. |
| `TallyLinks.CollisionsCounted` | apps/server/src/tally-vouchers.ts:937-956 | The collisions of a voucher count, key by key, the register entries whose serial it shares and nothing vouches for. |
| `TallyLinks.CollisionsAddUp` | apps/server/src/tally-vouchers.ts:914-956 | The collisions counted over several vouchers are those of each of them, added up. |
| `TallyReconcile.VerdictIsShared` | apps/server/src/tally-vouchers.ts:1042-1074 | Connected documents carry one verdict. |
| `TallyReconcile.VerdictWeighsItsClass` | apps/server/src/tally-vouchers.ts:1047-1061 | A component's totals are the sums over its distinct vouchers and known invoices, and disputed means a gap above 100 paise. |
| `TallyReconcile.ComponentsConserveMoney` | apps/server/src/tally-vouchers.ts:1013-1061 | The totals over all components add up to the totals over all linked documents. |
| `TallyReconcile.ClassCounts` | apps/server/src/tally-vouchers.ts:1076-1082 | The roots found count the connected components, and the disputed ones. |
| `TallyReconcile.LinkedOrUnmatched` | apps/server/src/tally-vouchers.ts:916-964 | Each Sales voucher is linked or unmatched, never both; no other voucher is either. |
| `TallyReconcile.IncrementalGraph` | apps/server/src/tally-vouchers.ts:992-1007 | Matching a second file with the first file's links carried describes the same graph as matching both files at once. |
| `TallyReconcile.ImportInTwoFiles` | apps/server/src/tally-vouchers.ts:884-1083 | Incremental import gives every link of the second file the verdict the batch import gives it, and the same component counts, whatever the voucher order. |
| `TallyScan.CompletePrinted` | apps/server/src/tally-scan.ts:185-185 | A value printed between its tags on one line is read back with its tag folded to upper case, whatever the value holds. |
| `TallyScan.OpenPrinted` | apps/server/src/tally-scan.ts:188-188 | An opening tag with attributes is read as opening. |
| `TallyScan.SelfClosedPrinted` | apps/server/src/tally-vouchers.ts:675-681 | A self-closing element with attributes is nothing. |
| `TallyScan.ClosePrinted` | apps/server/src/tally-scan.ts:190-190 | A closing tag is read as closing its tag. |
| `TallyScan.SpansPrinted` | apps/server/src/tally-scan.ts:199-199 | Text that runs past the end of its tag's line is read as a running value, tried last. |
| `TallyScan.ClosesExactlyWhen` | apps/server/src/tally-scan.ts:189-190 | A line is a closing tag exactly when it prints one, whose name is one to sixty-four letters, digits, dots, underscores and colons. |
| `TallyScan.CompletesExactlyWhen` | apps/server/src/tally-scan.ts:173-185 | A line is a value exactly when it stands between an opening tag and its closing tag at the very end, in whatever case that is spelled. |
| `TallyScan.OpensExactlyWhen` | apps/server/src/tally-scan.ts:186-188 | A line is an opening tag exactly when it is one alone and does not close itself. |
| `TallyScan.SpansExactlyWhen` | apps/server/src/tally-scan.ts:191-199 | A line is a running value exactly when ink follows its opening tag and its own closing tag does not end it. |
| `TallyScan.ExactRupeesRead` | apps/server/src/tally-scan.ts:215-225 | A figure the reader keeps is one the money reader accepts, with the sign its text shows. |
| `TallyScan.FigureExactlyWhen` | apps/server/src/tally-scan.ts:205-225 | A figure is kept exactly when it has one to fifteen digits of rupees and at most two behind the point, always printed as two. |
| `TallyScan.OnlyFiguresKept` | apps/server/src/tally-scan.ts:205-225 | Nothing else without a sign is kept. |
| `TallyScan.SignsKept` | apps/server/src/tally-scan.ts:205-225 | A blank anywhere in a figure is dropped, and a leading minus sign is kept. |
| `TallyVouchers.VoucherValue` | apps/server/src/tally-vouchers.ts:310-327 | The two loops compute the specified value. |
| `TallyVouchers.ValueMeaning` | apps/server/src/tally-vouchers.ts:310-327 | The printed value is exactly the magnitude of the first party leg with a figure, or the larger of debits and credits. |
| `TallyVouchers.VoucherScanner.CloseEntry` | apps/server/src/tally-vouchers.ts:400-415 | A closed leg is dropped without a ledger, kept below the ceiling and spoils the voucher at it; no leg stays open. |
| `TallyVouchers.VoucherScanner.FinishVoucher` | apps/server/src/tally-vouchers.ts:417-554 | Counting, the refusals in order, the ceilings and the stored record, as one state change. |
| `TallyVouchers.VoucherScanner.ReadOutside` | apps/server/src/tally-vouchers.ts:588-618 | Between vouchers a line ends the envelope, opens a voucher afresh or is passed over. |
| `TallyVouchers.VoucherScanner.ReadField` | apps/server/src/tally-vouchers.ts:641-671 | A value goes to the direct field, the open leg or the bill references, by the level it stands at, and changes nothing else. |
| `TallyVouchers.VoucherScanner.ReadOpening` | apps/server/src/tally-vouchers.ts:681-703 | An opening tag adds a level, and begins a leg or a bill allocation where one may begin. |
| `TallyVouchers.VoucherScanner.ReadInside` | apps/server/src/tally-vouchers.ts:620-716 | One line inside a voucher moves the scanner as the shape of the line says. |
| `TallyVouchers.VoucherScanner.ReadLine` | apps/server/src/tally-vouchers.ts:565-716 | One raw line moves the scanner as the specified step on the trimmed line. |
| `TallyVouchers.ReadTallyVoucherRecords` | apps/server/src/tally-vouchers.ts:338-747 | The line loop and the end-of-file checks compute the specified outcome for any lines. |
| `TallyVouchers.AnyFileIsSound` | apps/server/src/tally-vouchers.ts:417-554 | Whatever the lines: no GUID is returned twice, every record fits its ceilings and carries legal figures, refusals are capped, and records plus refusals never exceed the vouchers counted. |
| `TallyRecords.DateExactlyWhen` | apps/server/src/tally-vouchers.ts:270-284 | A date is read exactly when it is eight digits of a day on the calendar, leap years included, and stored with dashes. |
| `TallyRecords.GstinExactlyWhen` | apps/server/src/tally-vouchers.ts:287-290 | A registration number is read exactly when it has one of the two shapes. |
| `TallyRecords.TrimmedOrNoneStores` | apps/server/src/tally-vouchers.ts:295-299 | A bounded column stores the first characters of a text without blanks around them, or nothing of blanks. |
| `TallyDocuments.BodyRead` | apps/server/src/tally-vouchers.ts:620-716 | On every well-nested voucher body the direct fields, legs, leg ledger and first readable amount, and bill references are those of the document structure, and the scanner returns to its starting level. |
| `TallyDocuments.BeneathRead` | apps/server/src/tally-vouchers.ts:668-710 | Below the levels that are read, nested lists of any depth change nothing but bill references. |
| `TallyDocuments.LegRead` | apps/server/src/tally-vouchers.ts:659-667 | A leg takes the last ledger name and the first readable amount at its own level, whatever lists it contains. |
| `TallyDocuments.FirstAmountExactlyWhen` | apps/server/src/tally-vouchers.ts:660-667 | A leg's figure is its first own-level AMOUNT's reading exactly when that one is readable or no later one is. |
| `TallyDocuments.SecondAmountTaken` | apps/server/src/tally-vouchers.ts:660-667 | A concrete leg whose first AMOUNT is unreadable and whose second is taken. |
| `TallyDocuments.DepthIsNesting` | apps/server/src/tally-vouchers.ts:680-710 | After every line of a well-nested body the depth has grown by exactly the lists standing open, and nothing has been imported or refused meanwhile. |
| `TallyDocuments.ExportRead` | apps/server/src/tally-vouchers.ts:338-747 | A whole export, however indented and with any lines the scanner passes over before its envelope, yields exactly the records, refusals and count its structure describes. |
| `TallyRecords.FieldsAbsorbed` | apps/server/src/tally-vouchers.ts:641-658 | Each of the eleven direct fields is the text of the last own-level field with its own tag, or what it was before: empty, and false for the two flags. |
| `TallyRecords.LegsAbsorbed` | apps/server/src/tally-vouchers.ts:400-415 | The legs kept are the first hundred the body names, with ledger and first readable amount, and more spoil the voucher. |
| `TallyRecords.ReferencesAbsorbed` | apps/server/src/tally-vouchers.ts:668-671 | The bill references kept are the first forty the body names, in order. |
| `TallyRecords.SourceFieldsAbsorbed` | apps/server/src/tally-vouchers.ts:653-658 | Each tag keeps the last own-level text that is no flag, no list and not too long, up to where eighty tags are kept; nothing behind that is looked at. |
| `TallyRecords.ValueExactlyWhen` | apps/server/src/tally-vouchers.ts:310-327 | A voucher is worth the size of the first figure among its party's legs, and where the party shows none the larger of its two sides. |
| `TallyRecords.SidesAddUp` | apps/server/src/tally-vouchers.ts:310-327 | Each side is the sum of its legs, a negative figure being a debit and a missing one nothing. |
| `TallyRecords.ElementRecorded` | apps/server/src/tally-vouchers.ts:417-554 | One voucher element adds nothing, a record that describes it field by field, or the refusal it earns; each of the eight reasons exactly when its condition is the first to fail, with line and name. |
| `TallyRecords.ExportGrows` | apps/server/src/tally-vouchers.ts:565-716 | Element by element an export grows by what that element earns, at the line its opening tag stands on; lines between elements add nothing. |
| `TallyRecords.RecordsDescribed` | apps/server/src/tally-vouchers.ts:338-747 | Every record of an export describes one of its voucher elements. |
| `TallyDocuments.TruncatedExportRefused` | apps/server/src/tally-vouchers.ts:718-744 | Every proper line-prefix of such an export is refused. |
| `TallyDocuments.EnvelopeExpected` | apps/server/src/tally-vouchers.ts:579-586 | A file without an envelope is refused as no Tally export, and so is one whose first twenty lines show neither envelope nor voucher and whose next inked line is no envelope. |
| `TallyDocuments.EnvelopeLines` | apps/server/src/tally-vouchers.ts:580-589 | The lines that open and close the envelope, spelled out. |
| `TallyDocuments.VoucherLines` | apps/server/src/tally-vouchers.ts:590-590 | A line opens a voucher exactly when it begins with that tag in any case, followed by a blank or the end of the tag. |
| `TallyDocuments.SelfClosedVoucher` | apps/server/src/tally-vouchers.ts:612-617 | A voucher element that closes itself on its line is passed over and not counted. |
| `TallyDocuments.OwnLevelOnly` | apps/server/src/tally-vouchers.ts:668-671 | A bill allocation's references are its own names exactly when nothing beneath it carries a NAME as well; under the ceiling of forty, exactly when the names that still fit are the same. |
| `TallyDocuments.CostCategoryCollected` | apps/server/src/tally-vouchers.ts:668-671 | A NAME of a list nested in a bill allocation is collected as a document number: a concrete document. |
| `TallyReceipts.Reconcile` | apps/server/src/tally-receipts.ts:470-590 | The filters, sums and fold decide the fate of a voucher the earlier checks let through. |
| `TallyReceipts.FoldHeads` | apps/server/src/tally-receipts.ts:516-557 | The loop over head legs computes the fold, its total and the work code together. |
| `TallyReceipts.ReadTallyReceipts` | apps/server/src/tally-receipts.ts:331-602 | The loop files every voucher into the list of its fate. |
| `TallyReceipts.GapIsImbalance` | apps/server/src/tally-receipts.ts:470-566 | Gross less net less deductions equals the sum of the legs plus the legs that are counted twice. |
| `TallyReceipts.AcceptedExactlyWhen` | apps/server/src/tally-receipts.ts:559-566 | A voucher is accepted exactly when it passes every earlier check and its legs plus overlaps sum to zero, and unbalanced exactly when they do not. |
| `TallyReceipts.BalancedExactlyWhen` | apps/server/src/tally-receipts.ts:559-566 | Where no ledger is both round-off and bank or customer: accepted only if the legs sum to zero, and legs that sum to zero are never unbalanced. |
| `TallyReceipts.OverlapMisjudged` | apps/server/src/tally-receipts.ts:360-363 | With a customer ledger named ROUNDOFF, a voucher 100 rupees out of balance is accepted and a balanced one is refused. |
| `TallyReceipts.FoldLosesNothing` | apps/server/src/tally-receipts.ts:516-546 | Folded amounts sum to all the legs, and leg counts to their number. |
| `TallyReceipts.FoldedSummarises` | apps/server/src/tally-receipts.ts:516-546 | One line to each ledger, with that ledger's total, head, work code, leg count, and a missing-amount mark exactly when all its legs are silent. |
| `TallyReceipts.ReceiptReconciles` | apps/server/src/tally-receipts.ts:559-589 | An accepted receipt has positive gross equal to net plus the folded lines, which summarise its head legs. |
| `TallyReceipts.DepositCodeExactlyWhen` | apps/server/src/tally-receipts.ts:547-555 | The work code proposed is the one every coded security-deposit leg names, when all name one. |
| `TallyReceipts.EachInOneList` | apps/server/src/tally-receipts.ts:331-602 | The five lists together hold every voucher exactly as often as the export. |
| `TallyReceipts.ListsAgreeWithFates` | apps/server/src/tally-receipts.ts:331-602 | Each list holds only vouchers of its fate. |
| `TallyDeductions.FatesExactlyWhen` | apps/server/src/tally-receipts.ts:331-470 | Each way to be passed over or refused, exactly when its condition on legs and census is the first to hold. |
| `TallyDeductions.LedgerHead` | apps/server/src/tally-receipts.ts:174-196 | Each head exactly when its name or group applies and none before it does: damages by squeezed name, GST, income tax by group or prefix, security deposit, and the rest. |
| `TallyDeductions.LedgersOfEachHead` | apps/server/src/tally-receipts.ts:112-134 | A concrete ledger or group for each head, spelled as the census spells it. |
| `TallyDeductions.AcceptedStatesLegs` | apps/server/src/tally-receipts.ts:470-590 | An accepted receipt's payer is the one customer credited; gross, round-off, net and deductions are the sums of the legs of each kind. |
| `TallyDeductions.AcceptedStatesDeductions` | apps/server/src/tally-receipts.ts:516-546 | Its deductions are one line to each ledger withheld on, with that ledger's head, work code, sum, leg count, and a missing amount exactly when no leg has one. |
| `TallyImport.ImportSales` | apps/server/src/tally-vouchers.ts:756-758 | The scanner's records meet the matcher's requirements on any file; links, unmatched vouchers, collisions and both component counts are those of the live vouchers. |
| `TallyImport.SalesElementsOnly` | apps/server/src/tally-vouchers.ts:136-140 | A sales import takes nothing from an element of any type but Sales, Credit Note and Debit Note, and a record or a refusal from each of those. |
| `TallyImport.RecordLinked` | apps/server/src/tally-vouchers.ts:884-929 | Out of any file, a live Sales record whose number, reference or a bill reference is an invoice's number is linked to that invoice with the record's exact value. |
| `TallyImport.LinksComeFromElements` | apps/server/src/tally-vouchers.ts:884-965 | Every link is made from a live Sales element of the export that itself states, in one of those three tags, the number or serial that leads to the invoice. |
| `TallyImport.ImportReceipts` | apps/server/src/tally-receipts.ts:320-336 | The receipt read files the records of the scanner, or refuses the file when the scanner does. |
| `TallyImport.RecordValueExact` | apps/server/src/tally-vouchers.ts:310-327 | The value of every kept record is exact and never negative. |
| `TallyImport.AcceptedReceiptsBalance` | apps/server/src/tally-receipts.ts:320-331 | Out of any file at all, accepted receipts balance and balanced vouchers are not called unbalanced, wherever no ledger is counted twice. |
| `RailwayMatch.ExpectedMeaning` | apps/server/src/railway-measurement-match.ts:134-144 | The coefficient figure is the sum over stages of cumulative quantity times percentage over 100, exactly. |
| `RailwayMatch.ExpectedQuantity` | apps/server/src/railway-measurement-match.ts:134-144 | The accumulating loop computes the coefficient figure. |
| `RailwayMatch.PhysicalQuantity` | apps/server/src/railway-measurement-match.ts:170-184 | The loop with its early return computes the physical figure. |
| `RailwayMatch.PhysicalMeaning` | apps/server/src/railway-measurement-match.ts:170-184 | A physical figure exists exactly when the stages carrying quantity agree on it, and then it is theirs. |
| `RailwayMatch.BothFitExactlyWhen` | apps/server/src/railway-measurement-match.ts:197-210 | The two figures coincide exactly when nothing is billed or the billed percentages come to 100. |
| `RailwayMatch.SameItemExactlyWhen` | apps/server/src/railway-measurement-match.ts:258-265 | Item numbers agree exactly when they agree segment by segment, numerals by value. |
| `RemarkReduction.ReducedAlikeExactlyWhen` | apps/server/src/railway-measurement-match.ts:212-251 | Two remarks printed with one unit, whatever the unit, reduce alike exactly when their prepaid and their now-to-pay claims are the same once only the digits of each number are kept. |
| `RemarkReduction.ReduceOne` | apps/server/src/railway-measurement-match.ts:239-251 | Reducing keeps small letters, digits and percent signs, makes capitals small and drops every other ASCII character. |
| `RemarkReduction.PaddingAside` | apps/server/src/railway-measurement-match.ts:212-234 | A zero led before a number is not seen. |
| `RemarkReduction.PrepaidNilAside` | apps/server/src/railway-measurement-match.ts:212-234 | "Prepaid Nil" in front of a remark is not seen. |
| `RemarkReduction.RailwayWording` | apps/server/src/railway-measurement-match.ts:212-251 | The railway's wording of a first claim, with its capitals, its leading zero and its nil, reduces like the book's own. |
| `RemarkReduction.SameClaimsExactlyWhen` | apps/server/src/railway-measurement-match.ts:235-251 | Two such remarks state the same claims exactly when they reduce alike and every point stands at the same place. |
| `RemarkReduction.WholeClaimsSurvive` | apps/server/src/railway-measurement-match.ts:235-237 | Where every printed number is whole, the remarks reduce alike exactly when they state the same claims, as the comment promises of every remark. |
| `RemarkReduction.PrintedApart` | apps/server/src/railway-measurement-match.ts:235-251 | The promise fails with fractions: two printed remarks, 70% for 1.5 and 70% for 15, that reduce alike. |
| `RemarkReduction.LostPointMatches` | apps/server/src/railway-measurement-match.ts:295-391 | A book line at 70% for 1.5 against a sheet with a total of 1.05 whose remark says 15 is answered as matched. |
| `RailwayMatch.JudgeLine` | apps/server/src/railway-measurement-match.ts:323-374 | Trying the recorded way first, then the other, gives the specified verdict. |
| `RailwayMatch.MatchRailwayMeasurement` | apps/server/src/railway-measurement-match.ts:295-391 | The loops over maps and sets produce the specified verdicts in the book's order, then the items the book does not measure. |
| `RailwayMatch.JudgedMatched` | apps/server/src/railway-measurement-match.ts:323-374 | A line matches exactly when its remark reduces alike and its figure is either transcription, and the way named is one that fits. |
| `RailwayMatch.JudgedExactlyWhen` | apps/server/src/railway-measurement-match.ts:323-374 | A wrong quantity exactly when neither figure fits, a wrong remark exactly when one fits and the remarks differ, and the way named is the recorded one wherever it fits. |
| `RailwayMatch.VerdictsExactlyWhen` | apps/server/src/railway-measurement-match.ts:295-391 | Each book line is judged against the last entry for its item or answered missing, and then every entry for an item not in the book is answered absent, in order. |
| `RailwayMatch.MatchedExactlyWhen` | apps/server/src/railway-measurement-match.ts:295-391 | The status is matched exactly when both documents carry the same items and every book line agrees with the railway's last entry for its item. |
| `RailwayMatch.DistinctMatchedExactlyWhen` | apps/server/src/railway-measurement-match.ts:295-391 | Where no item is entered twice, matched means that both documents carry the same items and every entry agrees with every line of its item. |
| `RailwayMatch.EarlierEntryIgnored` | apps/server/src/railway-measurement-match.ts:300-303 | Of two entries for one item only the later is compared. |
| `RailwayMatch.WrongEntryReplaced` | apps/server/src/railway-measurement-match.ts:295-391 | A concrete sheet: an entry of 9 where the book bills 5, then one of 5, is answered as matched. |
| `RailwayMatch.RecordedWayOnlyNames` | apps/server/src/railway-measurement-match.ts:190-210 | Swapping the recorded way never changes the status. |
| `RailwayLayout.CellsOf` | apps/server/src/railway-bill-parse.ts:148-172 | The nested scanning loops compute the specified cells. |
| `RailwayLayout.CellsExactlyWhen` | apps/server/src/railway-bill-parse.ts:148-172 | The cells are the one way to lay out all the ink of a line in tight pieces at least two gap characters apart. |
| `RailwayLayout.InkHeldOnce` | apps/server/src/railway-bill-parse.ts:148-172 | Every ink character is in exactly one cell. |
| `RailwayLayout.PlacingRebuilds` | apps/server/src/railway-bill-parse.ts:148-172 | Placing the cells of a space-separated line back at their columns rebuilds it, trailing blanks aside. |
| `RailwayMeasurement.WeldWrappedReasons` | apps/server/src/railway-measurement-parse.ts:178-206 | The welding loop computes the specified weld. |
| `RailwayMeasurement.WeldKeepsHeadings` | apps/server/src/railway-measurement-parse.ts:175-206 | Welding neither loses nor invents a heading. |
| `RailwayMeasurement.WeldExactlyWhen` | apps/server/src/railway-measurement-parse.ts:178-206 | On any reason line the weld adds the first cell of the continuation to the remark exactly when the text before the wide gap is one cell, with no tab beside a blank and no blank at its end, and the whole continuation exactly when that is one cell as well; otherwise the remark read is the unwelded one. |
| `RailwayMeasurement.ContinuationLost` | apps/server/src/railway-measurement-parse.ts:190-201 | A concrete reason line ending in a space or in a tab whose continuation is no part of the remark read. |
| `RailwayMeasurement.ParseRailwayMeasurement` | apps/server/src/railway-measurement-parse.ts:267-331 | The line loop with its open item computes the specified block-by-block reading, and refuses the same sheets. |
| `RailwayMeasurement.OneItemPerHeading` | apps/server/src/railway-measurement-parse.ts:267-331 | A sheet that reads yields one item for each item heading, in order, under the latest schedule heading, welding included. |
| `RailwayMeasurement.EveryItemStands` | apps/server/src/railway-measurement-parse.ts:297-321 | The i-th item stands under the i-th item heading: its remark is that of the first reason line behind it, its quantity the figure of the last Total line between the two. |
| `RailwayMeasurement.CollapseWord` | apps/server/src/railway-measurement-parse.ts:313-317 | Collapsing the blanks of a remark leaves its words as they stand. |
| `RailwayMeasurement.CollapseGap` | apps/server/src/railway-measurement-parse.ts:313-317 | Collapsing makes the blanks before a word a single blank. |
| `RailwayMeasurement.SheetReadsExactlyWhen` | apps/server/src/railway-measurement-parse.ts:267-331 | A sheet reads exactly when it has an item heading and behind each one, under some schedule, stand a total and a reason before the next heading. |
| `RailwayMeasurement.ScheduleExactlyWhen` | apps/server/src/railway-measurement-parse.ts:121-122 | A schedule heading is the word at the margin, blanks, and a name without blanks that ends the line. |
| `RailwayMeasurement.ItemExactlyWhen` | apps/server/src/railway-measurement-parse.ts:124-128 | An item heading is the capitalised label at the margin, blanks, and a number, whatever follows it. |
| `RailwayMeasurement.StopsExactlyWhen` | apps/server/src/railway-measurement-parse.ts:175-176 | The lines at the margin that start something of their own, spelled out. |
| `RailwayMeasurement.ContinuesExactlyWhen` | apps/server/src/railway-measurement-parse.ts:181-191 | A line continues a reason line exactly when it begins with ink at the margin and starts nothing of its own. |
| `ExecutedValue.DivideRoundsTo` | apps/server/src/executed-value.ts:96-101 | The doubled division rounds half away from zero. |
| `ExecutedValue.ExclusiveRoundTrip` | apps/server/src/executed-value.ts:131-147 | Adding the tax and taking it off again is the identity, for every amount and rate. |
| `ExecutedValue.InclusiveRoundTrip` | apps/server/src/executed-value.ts:119-147 | Taking the tax off and adding it again moves any figure by at most one paisa, at every rate up to 200%. |
| `ExecutedValue.DriftAboveTwiceTheBase` | apps/server/src/executed-value.ts:131-147 | At every rate above 200% some figure moves two paise or more. |
| `ExecutedValue.InclusiveExactlyWhen` | apps/server/src/executed-value.ts:119-147 | The one-paisa tolerance callers rely on holds for all figures exactly at the rates up to 200%. |
| `ExecutedValue.ConvertMonotone` | apps/server/src/executed-value.ts:131-147 | Conversion respects order. |
| `ExecutedValue.ConvertSymmetric` | apps/server/src/executed-value.ts:131-147 | Conversion of a negated figure is the negated conversion. |
| `ExecutedValue.PortfolioExecutedPercent` | apps/server/src/executed-value.ts:217-242 | The loop computes the ratio of the two restated sums, or nothing over nothing. |
| `ExecutedValue.ExecutedMonotone` | apps/server/src/executed-value.ts:193-208 | More executed never reads as a smaller percentage. |
| `ExecutedValue.FullyExecuted` | apps/server/src/executed-value.ts:22-26 | A contract wholly executed reads 100.0000% on either basis of the executed figure, above 20,000 rupees and at rates up to 200%. |
| `ExecutedValue.PortfolioOrder` | apps/server/src/executed-value.ts:210-242 | The ratio is the same for every permutation of the works. |
| `ExecutedValue.NothingContracted` | apps/server/src/executed-value.ts:212-216 | A work with no contract value changes nothing, wherever it stands. |
| `ExecutedValue.PortfolioError` | apps/server/src/executed-value.ts:217-242 | The percentage is within half of its last printed digit of the exact ratio. |
| `ExecutedValue.PortfolioIsRatio` | apps/server/src/executed-value.ts:217-242 | The portfolio percentage is a million times the executed over the contracted, each work restated without tax from its own basis, to the nearest, and none over nothing. |
| `ExecutedValue.ExecutedIsRatio` | apps/server/src/executed-value.ts:193-208 | One percentage is within half of its last digit of the ratio on the basis of the contract. |
| `AmountInWords.PrintInteger` | apps/server/src/amount-in-words.ts:72-86 | The recursive printer, which terminates on numbers of any size, prints the specified words. |
| `AmountInWords.WordSense` | apps/server/src/amount-in-words.ts:14-50 | Every word the printer uses is the one the independent vocabulary of the reader gives that meaning. |
| `AmountInWords.SentenceWording` | apps/server/src/amount-in-words.ts:98-108 | Every sentence opens with "Rupees" and closes with "Only", with "and Paise" between exactly when there are paise. |
| `AmountInWords.GroupsWording` | apps/server/src/amount-in-words.ts:72-86 | 12345678 in words, as the example of the module spells it. |
| `AmountInWords.ListenThree` | apps/server/src/amount-in-words.ts:58-64 | Reading the words of a number below a thousand gives it back. |
| `AmountInWords.ListenInteger` | apps/server/src/amount-in-words.ts:72-86 | Reading the words of a whole number of any size gives it back, crores of crores included. |
| `AmountInWords.WordsHeard` | apps/server/src/amount-in-words.ts:98-108 | Reading the words of an amount gives back its exact paise. |
| `AmountInWords.InWordsInverts` | apps/server/src/amount-in-words.ts:98-108 | What is printed states exactly the amount text given. |
| `AmountInWords.InWordsInjective` | apps/server/src/amount-in-words.ts:98-108 | Two amounts print alike only if they are one amount. |

## Left out

- `RemarkReduction.ReducedAlikeExactlyWhen`: speaks of remarks without an AMC cadence, whose quantities are printed as such and not as periods.
- `BaselinePropose.RemarkRoundTrip`: stated for non-negative quantities and percentages, which the database guarantees, and without an AMC cadence, which prints periods in place of quantities.
- `MbCompute.ComputeMeasurementBook`: takes the items in the order given; the natural item-number sort is not part of this model, and `OrderDoesNotPrice` shows that no figure depends on it.
- `NumberSeries.DivisionsCollideExactlyWhen`: speaks of the series P{DIV}{FY2}{SEQ:3} and a longer code made of digits; other templates have the sufficient condition of `InjectiveAcrossYears`.
- `NumberSeries.CounterToken`: speaks of widths a template may be stored with; the server reads any other width text through a floating-point conversion, which is not part of this model.
- `RailwayMatch.SameItemExactlyWhen`: numerals are exact at any length, where the server goes through a floating-point number past fifteen digits.
- `RailwayMeasurement.ParseRailwayMeasurement`: takes the sheet's lines; the measurement number searched for in the whole text and returned beside the items is not modelled, nor the refusal of a sheet without one.
- `RateLimit.PgLimiter.Allow`: a transaction is one step on an abstract table with its time read at the decision; hash collisions of keys, SQL and row-level security are not modelled.
- `TallyVouchers.ReadTallyVoucherRecords`: takes decoded lines; UTF-16 decoding, the byte-order mark, the newline search, the line-length ceiling and byte offsets are not modelled.
- Entity decoding and control-character removal are the parameter `clean`; the work-code reader of ledger names is the parameter `readPlCode`.
- Case folding, digits and word characters are ASCII; letters whose case folding leaves that range are not modelled.
- Money columns are whole paise in the records; reading and printing their text is proved separately in `Money`.
- Wording of refusals beyond the kind of refusal, and the free-text detail of verdicts.
- `tally-masters.ts`: the group-ancestry walk and ledger classification; a receipt reads their result as facts about a ledger.
- The railway bill itself, wrapped field reading, printed rupee amounts and the taking apart of measurement numbers: local checks on single cells.
- `mb-coefficient.ts`: products of decimals already covered by `Decimal`.
- HTTP routes, authentication, mail, PDF and templates, and everything decided by SQL.
