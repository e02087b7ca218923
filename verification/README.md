# Loan administration console: schedule generator and dashboard views

This project models the computations of a loan-management admin console, written in Dafny. The console is a React application. The computations are two pure ones that the page components perform while rendering.

- **The loan details page** (`src/app/admin/loans/details/page.tsx`) builds a monthly amortization schedule from a loan. The annual percentage rate becomes a monthly rate `r = rate / 100 / 12`. A fixed instalment (EMI) comes from the annuity formula `P * r * (1 + r)^n / ((1 + r)^n - 1)`. One row is emitted per month, holding:
  - the payment date;
  - the interest on the running balance;
  - the principal part of the EMI;
  - the EMI itself;
  - the balance after payment, clamped at zero.

  The page also colours and capitalises the loan status, labels the tenure, and shows the first twelve rows of the schedule until expanded.
- **The admin dashboard** (`src/app/adminpage.tsx`) receives a record from user name to that user's loans. It flattens the record into one list and filters that list by status. It also lists the user names, filters them by a case-insensitive search term, and shows per-user count badges and an empty-state message.

The schedule is modelled over exact `real` arithmetic (module `Amortization`). It is written as a recursion over the period index that carries the unclamped running balance, exactly as the loop does. It is related to an independent reference definition, `Carried`, of the balance after `k` months. From that relation the model proves:
- the per-entry identities;
- a closed form of the balance;
- that the balance reaches exactly zero after the last payment.

Dates are reduced to a year and a zero-based month (`Calendar`). The dashboard (`Dashboard`) is built from generic, order-preserving filter and flatten operations (`Seqs`). String handling (`Text`) covers ASCII case mapping, substring search and integer rendering.

Files: `options.dfy`, `text.dfy`, `seqs.dfy`, `calendar.dfy`, `loans.dfy`, `amortization.dfy`, `loan_details.dfy`, `dashboard.dfy`.

## Model

| member | source | states |
|---|---|---|
| `Amortization.MonthlyRate` | src/app/admin/loans/details/page.tsx:85 | the monthly rate times 1200 gives back the annual percentage |
| `Amortization.Pow` | src/app/admin/loans/details/page.tsx:89 | `Math.pow` for a natural exponent; its properties are stated by `PowOne` and `PowAboveOne` |
| `Amortization.PowOne` | src/app/admin/loans/details/page.tsx:89 | `Math.pow(1, n)` is 1 for every `n`, which is why a zero rate makes the denominator zero |
| `Amortization.PowAboveOne` | src/app/admin/loans/details/page.tsx:89 | a base above 1 gives a power of at least 1, and above 1 for a positive exponent, so at a positive rate the denominator is positive |
| `Amortization.Emi` | src/app/admin/loans/details/page.tsx:89 | the instalment exists exactly when `(1 + r)^n` differs from 1; when it exists, it satisfies the annuity equation `E * ((1 + r)^n - 1) == P * r * (1 + r)^n` |
| `Amortization.Max0` | src/app/admin/loans/details/page.tsx:107 | the clamped value is non-negative, is at least its input, and is either the input or zero |
| `Amortization.Rows` | src/app/admin/loans/details/page.tsx:94-109 | the loop from iteration `i` emits `months - i` entries; entry `k` is dated `start + (i + k + 1)` months, carries the EMI, and has principal plus interest equal to the EMI and a non-negative balance |
| `Amortization.RowFollowsCarried` | src/app/admin/loans/details/page.tsx:91-108 | started from the carried balance of month `i`, the loop's `k`-th entry has interest `B(i+k) * r` on the unclamped reference balance; its balance is `max(0, B(i+k+1))`, so clamping never feeds back into the carried balance |
| `Amortization.ScheduleWith` | src/app/admin/loans/details/page.tsx:91-111 | the loop from a starting balance yields `months` entries, entry `k` conforming to the reference balance and date |
| `Amortization.GeneratePaymentSchedule` | src/app/admin/loans/details/page.tsx:83-112 | a tenure of zero or less gives no rows; otherwise the schedule is undefined exactly when `(1 + r)^n == 1`. When defined, it has `tenure` entries, each one conforms to the reference (same EMI, interest on the carried balance, date `start + k + 1` months), and the last balance is 0 |
| `Amortization.CarriedClosedForm` | src/app/admin/loans/details/page.tsx:98-100 | closed form of the running balance: `r * B(k) == r * P * (1 + r)^k - E * ((1 + r)^k - 1)` |
| `Amortization.AmortizesToZero` | src/app/admin/loans/details/page.tsx:89-100 | with the formula's instalment, the running balance after the final month is exactly 0 |
| `Amortization.PrincipalPortionGrows` | src/app/admin/loans/details/page.tsx:98-100 | the principal part of month `k` is the first month's principal part times `(1 + r)^k` |
| `Amortization.FirstPrincipalPositive` | src/app/admin/loans/details/page.tsx:89-99 | for a positive principal and rate the instalment exists and exceeds the first month's interest |
| `Amortization.BalanceFalls` | src/app/admin/loans/details/page.tsx:98-100 | for a positive principal and rate the running balance strictly decreases every month |
| `Amortization.CarriedNonNegative` | src/app/admin/loans/details/page.tsx:98-100 | for a positive principal and rate the running balance is non-negative throughout the tenure |
| `Amortization.ScheduleBalancesDecrease` | src/app/admin/loans/details/page.tsx:98-107 | for a positive amount and rate the clamp never alters an emitted balance, and emitted balances strictly decrease |
| `Amortization.SingleMonth` | src/app/admin/loans/details/page.tsx:85-108 | a one-month loan at a non-zero rate has a single entry that repays the whole principal and leaves balance 0 |
| `Amortization.EntryDatesConsecutive` | src/app/admin/loans/details/page.tsx:95-96 | at month granularity (day rollover is left out), consecutive entries are one month apart, although each date is recomputed from the start date |
| `Amortization.WorkedExample` | src/app/admin/loans/details/page.tsx:83-112 | 120000 at 12% for 12 months from January 2024: first entry dated February 2024 with interest exactly 1200, EMI between 10661.85 and 10661.86, principal part between 9461.85 and 9461.86, balance between 110538.14 and 110538.15; twelfth entry dated January 2025 with balance 0 |
| `Amortization.ZeroRateHasNoSchedule` | src/app/admin/loans/details/page.tsx:89 | as written, a zero interest rate with a positive tenure leaves the instalment undefined |
| `Amortization.ZeroRateCarried` | src/app/admin/loans/details/page.tsx:89-100 | at rate zero with instalment `P / n`, the balance after `k` months is `P - k * P / n` |
| `Amortization.EmiCorrected` | src/app/admin/loans/details/page.tsx:89 | the guarded instalment exists exactly when the rate is zero or `(1 + r)^n` differs from 1; wherever it exists, it pays the loan off in exactly `n` months |
| `Amortization.GeneratePaymentScheduleCorrected` | src/app/admin/loans/details/page.tsx:83-112 | with the guarded instalment a zero-rate loan gets `tenure` interest-free entries, each repaying `amount / tenure`; every defined schedule has `tenure` conforming entries and ends at balance 0 |
| `Calendar.AddMonths` | src/app/admin/loans/details/page.tsx:95-96 | advancing by `k` months gives a valid month (0 to 11) whose month index is the original index plus `k`, the year carrying |
| `Calendar.AddMonthsCompose` | src/app/admin/loans/details/page.tsx:95-96 | advancing by `a` and then by `b` months equals advancing by `a + b` months |
| `LoanDetails.StatusColor` | src/app/admin/loans/details/page.tsx:68-80 | the colour is the class the table gives the lower-cased status ("active", "pending", "closed", "defaulted"), and the default blue class for any other status |
| `LoanDetails.ClassesDistinct` | src/app/admin/loans/details/page.tsx:71-79 | the five colour classes are pairwise different |
| `LoanDetails.StatusColorDistinguishes` | src/app/admin/loans/details/page.tsx:68-80 | two statuses with the same colour are either both unknown or the same known status up to case |
| `LoanDetails.StatusColorIgnoresCase` | src/app/admin/loans/details/page.tsx:69 | statuses that differ only in letter case get the same colour |
| `LoanDetails.Capitalize` | src/app/admin/loans/details/page.tsx:222 | the capitalised status has the same length; its first character is upper-cased and the rest is unchanged, and an empty status stays empty |
| `LoanDetails.CapitalizeKeepsColor` | src/app/admin/loans/details/page.tsx:221-222 | the capitalised badge text lower-cases to the same string as the status, so it would get the same colour |
| `LoanDetails.CapitalizeIdempotent` | src/app/admin/loans/details/page.tsx:222 | capitalising twice is capitalising once |
| `LoanDetails.TenureLabel` | src/app/admin/loans/details/page.tsx:273 | the label is the rendered tenure, a space, then "month" exactly when the tenure is 1 and "months" otherwise |
| `LoanDetails.VisibleRows` | src/app/admin/loans/details/page.tsx:307 | expanded, every row is shown; collapsed, the first `min(12, n)` rows are shown |
| `LoanDetails.ShowsToggle` | src/app/admin/loans/details/page.tsx:316 | the toggle is rendered exactly when a table of `tenure` rows (none for a non-positive tenure) has rows the collapsed view leaves out |
| `LoanDetails.ToggleCaption` | src/app/admin/loans/details/page.tsx:325-335 | the caption is "Show Less" exactly when the table is expanded; collapsed, it is "View all ", the rendered tenure, then " payments" |
| `LoanDetails.EveryRowReachable` | src/app/admin/loans/details/page.tsx:307-316 | for a table of `tenure` rows, the collapsed view hides rows exactly when the toggle is shown (tenure above 12); it then shows the first twelve |
| `LoanDetails.GeneratedRowCount` | src/app/admin/loans/details/page.tsx:94-111 | both generators produce `tenure` rows for a positive tenure and none otherwise |
| `Text.UpperChar` | src/app/admin/loans/details/page.tsx:222 | a lower-case ASCII letter becomes an upper-case letter that lower-cases back to it; every other character is kept |
| `Text.Lower` | src/app/admin/loans/details/page.tsx:69 | lower-casing keeps the length, maps each character, and leaves no upper-case letter |
| `Text.LowerIdempotent` | src/app/adminpage.tsx:31 | lower-casing twice is lower-casing once |
| `Text.Contains` | src/app/adminpage.tsx:31 | `includes` can only hold when the needle is no longer than the string |
| `Text.ContainsIff` | src/app/adminpage.tsx:31 | `includes` holds exactly when the needle occurs at some position of the string |
| `Text.ContainsEmpty` | src/app/adminpage.tsx:31 | every string contains the empty string |
| `Text.NatToString` | src/app/admin/loans/details/page.tsx:273 | a number renders as a non-empty string of decimal digits without a leading zero |
| `Text.NatToStringRoundTrip` | src/app/admin/loans/details/page.tsx:273 | reading the rendered digits back gives the number |
| `Text.IntToString` | src/app/admin/loans/details/page.tsx:273 | a template literal renders an integer with a leading "-" exactly when it is negative |
| `Text.IntToStringRoundTrip` | src/app/admin/loans/details/page.tsx:273 | an integer renders as its digits, preceded by "-" exactly when it is negative, and reads back to itself |
| `Seqs.Filter` | src/app/adminpage.tsx:26-27 | the filter result is no longer than its input; every kept element is from the input and satisfies the predicate, and every input element satisfying it is kept |
| `Seqs.FilterIsSubsequence` | src/app/adminpage.tsx:26-27 | a filter result is an order-preserving sub-list of its input |
| `Seqs.FilterMultiplicity` | src/app/adminpage.tsx:26-27 | each element satisfying the predicate is kept as often as it occurs, and no other element is kept |
| `Seqs.FilterAppend` | src/app/adminpage.tsx:26-27 | filtering a concatenation is concatenating the filtered parts |
| `Seqs.DisjointFiltersBound` | src/app/adminpage.tsx:26-27 | two filters with exclusive predicates keep at most as many elements as the input has |
| `Seqs.Flatten` | src/app/adminpage.tsx:25 | `.flat()` of a list of lists has the sum of the inner lengths as its length |
| `Seqs.FlattenMembership` | src/app/adminpage.tsx:25 | an element is in the flattened list exactly when some inner list holds it |
| `Seqs.FilterFlatten` | src/app/adminpage.tsx:25-27 | filtering the flattened list equals flattening the per-part filter results |
| `Dashboard.LoanLists` | src/app/adminpage.tsx:25 | `Object.values` has one list per key, in key order, each the key's loans |
| `Dashboard.AllLoans` | src/app/adminpage.tsx:25 | the flat loan list is as long as all users' lists together |
| `Dashboard.AllLoansContents` | src/app/adminpage.tsx:25 | the flat loan list is as long as all users' lists together; a loan is in it exactly when some user's list holds it |
| `Dashboard.ActiveLoans` | src/app/adminpage.tsx:26 | the active list is no longer than the flat list, and each of its loans is in the flat list with status exactly "active" |
| `Dashboard.ActiveLoansExact` | src/app/adminpage.tsx:26 | the active list is an order-preserving sub-list of all loans, each with status exactly "active", and keeps every such loan with its multiplicity |
| `Dashboard.ClosedLoans` | src/app/adminpage.tsx:27 | the closed list is no longer than the flat list, and each of its loans is in the flat list with status exactly "closed" |
| `Dashboard.ClosedLoansExact` | src/app/adminpage.tsx:27 | the closed list is an order-preserving sub-list of all loans, each with status exactly "closed", and keeps every such loan with its multiplicity |
| `Dashboard.UserNames` | src/app/adminpage.tsx:28 | `Object.keys` lists only keys of the record, and every key of the record |
| `Dashboard.NameSetSize` | src/app/adminpage.tsx:28 | a key list without repetitions is as long as its set of keys |
| `Dashboard.SummaryCounts` | src/app/adminpage.tsx:25-28 | the summary cards show: the sum of all users' list lengths as the total; active plus closed counts no larger than the total; the number of keys of the record as the user count |
| `Dashboard.UserBadge` | src/app/adminpage.tsx:265-271 | a user's loan badge is the length of their list, and their active plus closed badges never exceed it |
| `Dashboard.UserCards` | src/app/adminpage.tsx:249-271 | one card per matching user, in order, each for a key of the record and carrying that user's badges |
| `Dashboard.StatusCountsAddUp` | src/app/adminpage.tsx:265-271 | per-user counts of a status, summed over users, equal the count of that status in the flat list |
| `Dashboard.BadgesAgreeWithSummary` | src/app/adminpage.tsx:25-27 | summed over all users, the loan, active and closed badges equal the dashboard's total, active and closed counts |
| `Dashboard.FilteredUserNames` | src/app/adminpage.tsx:31 | the search result has no more names than the record has keys; each is a key whose lower-cased form contains the lower-cased term |
| `Dashboard.FilteredUserNamesExact` | src/app/adminpage.tsx:31 | the search keeps, in key order, exactly the user names whose lower-cased form contains the lower-cased term |
| `Dashboard.EmptySearchKeepsAll` | src/app/adminpage.tsx:31 | an empty search term keeps every user name |
| `Dashboard.SearchIgnoresTermCase` | src/app/adminpage.tsx:31 | searching for a term and for its lower-cased form gives the same names |
| `Dashboard.EmptyStateMessage` | src/app/adminpage.tsx:242-245 | a placeholder message appears exactly when no user name matches |
| `Dashboard.NoDataMessageIff` | src/app/adminpage.tsx:242-245 | "No user loan data available." appears exactly when the term is empty and the record has no users |
| `Dashboard.NoMatchMessageIff` | src/app/adminpage.tsx:242-245 | "No users match your search." appears exactly when the term is non-empty and no user name contains it, ignoring case |

## Left out

- Fetching and deleting loans over HTTP, the fallback to built-in sample data, redirects and toast notifications (page.tsx:28-65, adminpage.tsx:33-51). These are I/O and asynchronous side effects.
- All layout: cards, tabs, skeleton placeholders, icons, the loan detail cards other than the tenure label, and the loading and error screens.
- The `Amortization` schedule is over exact reals. IEEE-754 rounding of `Math.pow`, multiplication and division is not modelled, so the identities hold exactly here but only approximately in the browser. The model has `None` exactly where the exact formula divides by zero (a zero rate, or a monthly rate of -2, that is -2400 % a year, with an even tenure); JavaScript still renders `tenure` rows there. The EMI, every principal part and every balance are NaN or infinite. The first month's interest is the finite `amount * rate`, which is 0 at rate 0. The later interests are NaN at rate 0; at a monthly rate of -2 the second is infinite and the rest are NaN. Floating-point overflow of `Math.pow` and `1 + rate` rounding to 1 also give NaN or an infinity in JavaScript; the model does not reproduce them.
- `Amortization.Pow` takes a natural exponent. A fractional tenure is not modelled, and a negative tenure only matters through the empty loop.
- `Calendar.AddMonths`: only the year and month of a JavaScript `Date` are modelled. Parsing of `start_date`, time zones, `toLocaleDateString`, and `setMonth`'s day-of-month rollover (the 31st plus one month landing in the next month) are left out.
- `Text.Lower` and `Text.UpperChar` map ASCII letters only. Unicode case mapping of `toLowerCase` / `toUpperCase`, including length-changing cases, is not modelled.
- `Text.IntToString` renders integers only. JavaScript's rendering of non-integer or very large numbers is not modelled.
- `formatCurrency`, the loan table component, the user navigation bar and the sample loan data are not part of this model. The fields shown only through `formatCurrency` (loan amount, monthly payment, total interest, total amount and foreclosure amount, the last with an "N/A" fallback) are likewise not part of this model.
- The "Interest Rate" field (`${loan.interest_rate}%`, page.tsx:263) and the "Foreclosure Date" field (`toLocaleDateString()` with an "N/A" fallback, page.tsx:281) are display formatting and are not part of this model.
- `Dashboard.Record`: the key enumeration order of a JavaScript object is given, not derived. JavaScript lists integer-like keys first, in ascending order, then the others in insertion order. The model takes that order as the `keys` sequence that `Object.keys` and `Object.values` share.
- The message lookup component (`src/components/MessageHandler.tsx`) is a toast side effect driven by a constant lookup table and is not part of this model.
- Input validation is not modelled because the code does none. Rejecting a non-positive amount, a negative rate or a non-positive tenure is a plausible intent for this engine, but the model follows the code. A non-positive tenure gives an empty schedule, as the loop does. Other inputs are computed with as given.
- `Number.parseFloat(loan.amount.toString())` is not modelled: the loan's amount is taken as an already parsed real number.

## Findings

| source | as written | input that shows it | evidently intended | confidence | as-written member | corrected member |
|---|---|---|---|---|---|---|
| src/app/admin/loans/details/page.tsx:89 | the instalment divides by `(1 + r)^n - 1` with no guard for a zero rate | `interest_rate = 0`, `tenure = 12`: the denominator is 0, so the EMI is 0/0 = NaN. Every principal part and balance is NaN. The first month's interest is `amount * 0 = 0`, and every interest from the second month on is `NaN * 0 = NaN` | an interest-free loan repays `amount / tenure` each month with zero interest | medium, not executed | `Amortization.ZeroRateHasNoSchedule` | `Amortization.GeneratePaymentScheduleCorrected` |
