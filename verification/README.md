# GitLab account reconciliation, modelled in Dafny

This project models the data-reconciliation pipeline of the GitLab-accounts
dashboard (`users_data.py`). The pipeline has four stages:

1. **Paginated fetch** (`fetch_data`). It reads the tabular roster API 1000 rows
   at a time. The `offset` advances by 1000 per request. The loop stops at the
   first page shorter than 1000 rows. Any failure gives `[]`.
2. **Reconciler** (`update_users_with_gitlabinfo`). It builds the set of
   stripped, lower-cased GitLab directory e-mails. It labels each roster row
   `"Yes"` or `"No"` in a new `has_gitlab_account` column. It keeps only the
   rows whose `Id` lies in the closed range of the chosen cohort, using one
   range table per roster (AI developers, tech leads). It raises on an unknown
   cohort.
3. **Aggregator** (`aggregate_collegewise_gitlab`). It groups rows by stripped
   affiliation in first-seen order. For each group it counts registrations,
   created accounts and needed accounts. The source repeats the loop for the
   two rosters; here it is one function applied to each.
4. **Missing-account filter** (`filter_no_gitlab_accounts`). It keeps the rows
   whose stripped, lower-cased status is `"no"`, in order.

Files and modules:

- `wrappers.dfy` (`Wrappers`): `Option` and `Result`.
- `text.dfy` (`Text`): `str.strip()` and `str.lower()`.
- `sequences.dfy` (`Sequences`): order-preserving filter, count, subsequence.
- `records.dfy` (`Records`): the directory user, roster row, labelled row and
  error types.
- `fetch.dfy` (`Fetch`): the fetch loop over an abstract page source.
- `reconcile.dfy` (`Reconciliation`): e-mail set, labels, cohort ranges and
  filter.
- `aggregate.dfy` (`Aggregation`): the per-affiliation summary.
- `missing.dfy` (`MissingAccounts`): the missing-account filter, and how its
  size relates to the summary.
- `scenario.dfy` (`Scenario`): a worked example carried end to end.

The HTTP request becomes a page source. This is a function from `offset` to
either the rows under the body's `list` key or a failure. A failure stands for
an HTTP error status, a transport error, or a body that does not decode.
`FetchData` also returns the offsets it requested, which makes the
offset-by-1000 stepping observable.

Three behaviours of the code are easy to miss, and the model keeps them:

- **Empty rosters raise.** `pd.DataFrame([])` has no columns. So
  `update_users_with_gitlabinfo` raises `KeyError` on line 46 or 47 when a
  roster list is empty. Likewise `filter_no_gitlab_accounts([])` raises on
  line 141. `fetch_data` returns `[]` on failure as if callers could carry on,
  but the next stage cannot. The model returns `MissingColumn` errors in these
  cases (`Reconcile`, `FilterNoAccounts`).
- **Blank directory e-mails count.** The test `if user.get('email')` runs
  before `strip()`. A directory e-mail made only of white space therefore puts
  the empty key `""` into the set. Roster rows with a blank e-mail are then
  labelled `"Yes"` (`BlankEmailMatchesBlank`).
- **Affiliation keys are trimmed but not case-folded.** So `"MIT"` and `"mit"`
  form two groups.

## Model

| member | source | states |
|---|---|---|
| Text.TrimStartSpec | users_data.py:39 | the leading half of `strip()`: what remains is a suffix of the input; everything dropped is white space; what remains does not start with white space |
| Text.TrimEndSpec | users_data.py:39 | the trailing half of `strip()`: what remains is a prefix of the input; everything dropped is white space; what remains does not end with white space |
| Text.TrimIsInfix | users_data.py:86 | `strip()` returns an infix of its input, with only white space cut on either side and no white space at either end |
| Text.TrimIdempotent | users_data.py:86 | stripping an affiliation twice is the same as stripping it once |
| Text.LowerSpec | users_data.py:46 | `lower()` keeps the length and lower-cases every character in place |
| Text.NormalizeIdempotent | users_data.py:46 | the strip-then-lower key of a key is the key itself |
| Text.NormalizeIgnoresPadding | users_data.py:39-46 | surrounding an e-mail with white space on either side does not change its key |
| Text.NormalizeIgnoresCase | users_data.py:39-46 | lower-casing an e-mail before keying it does not change its key |
| Sequences.Filter | users_data.py:66-67 | a boolean-mask filter keeps elements in order, keeps only elements that satisfy the mask, and keeps every element that does (as many as satisfy it) |
| Reconciliation.EmailSet | users_data.py:38-42 | a key is in the directory set exactly when some directory user with a present, non-empty e-mail has that stripped, lower-cased e-mail |
| Reconciliation.LabelRoster | users_data.py:46-47 | labelling adds a column: one output row per input row, in order, with the record unchanged and the label its e-mail's membership result |
| Reconciliation.LabelMatchesDirectory | users_data.py:38-47 | a row is labelled `"Yes"` iff some directory user with a non-empty e-mail matches it up to white space and case; otherwise it is labelled `"No"` |
| Reconciliation.BlankEmailMatchesBlank | users_data.py:38-42 | a directory e-mail of one space makes every blank roster e-mail count as having an account |
| Reconciliation.RangeTables | users_data.py:50-58 | both tables define exactly `cohort1` and `cohort2`; within each table the ranges are non-empty, ordered and separated |
| Reconciliation.NoIdInBothCohorts | users_data.py:50-58 | in a separated table, no id lies in both cohorts |
| Reconciliation.ReconcileRoster | users_data.py:63-69 | the records of the result are exactly the in-range rows of the roster, in order and unchanged; each carries its e-mail's label and has an id inside the range |
| Reconciliation.LabelThenFilter | users_data.py:46-67 | labelling then filtering on `Id` selects the same records as filtering the roster, and it keeps each label |
| Reconciliation.Reconcile | users_data.py:33-69 | fails iff a roster is empty or the cohort is neither `cohort1` nor `cohort2`; fails with the invalid-cohort error iff both rosters are non-empty and the cohort is unknown; otherwise returns both rosters reconciled with their own range |
| Reconciliation.ReconciledLabels | users_data.py:46-47 | every label written by the reconciler is `"Yes"` or `"No"` |
| Reconciliation.CohortsShareNoRecord | users_data.py:50-67 | no id reconciled into cohort 1 of a roster appears in cohort 2 of that roster |
| Reconciliation.OutOfRangeExcluded | users_data.py:50-67 | every AI-developer id kept is in 0..44126 and every tech-lead id kept is in 0..2348; any other id is dropped |
| Aggregation.AggregateCollegewise | users_data.py:73-131 | each summary is balanced and lists every stripped affiliation once, in first-seen order; its `total_registrations` add up to the number of rows |
| Aggregation.AddLookup | users_data.py:86-93 | one loop step bumps the counters of the row's group, creating the group if it is new, and leaves every other group unchanged |
| Aggregation.AddKeys | users_data.py:79-89 | one loop step appends the row's affiliation when it is new and otherwise keeps the key order |
| Aggregation.AddInvariants | users_data.py:89-93 | one loop step keeps every entry balanced and the keys distinct; it adds one to the total and one to either the created or the needed sum |
| Aggregation.TallyInvariants | users_data.py:85-93 | after the loop every entry has `total == created + needed`; keys are distinct; the totals sum to the number of rows; created sums to the `"yes"` rows and needed to all other rows |
| Aggregation.TallyCounts | users_data.py:85-103 | the entry for an affiliation counts exactly its rows, its created rows and its other rows; an affiliation no row carries has no entry |
| Aggregation.CountsSplit | users_data.py:90-93 | within one affiliation every row is counted as created or needed, never both |
| Aggregation.TallyKeys | users_data.py:95-103 | the summary's affiliations are the row affiliations with repeats removed, in first-seen order |
| Aggregation.AggregateCounts | users_data.py:85-103 | every entry's counters are the number of rows with that stripped affiliation (at least one), of them the created ones, and the rest |
| Aggregation.FirstSeenMembers | users_data.py:95-103 | removing repeats keeps exactly the elements of the input |
| Aggregation.FirstSeenOrder | users_data.py:95-103 | after removing repeats each element is listed once; any prefix of the input that holds a listed element also holds every element listed before it |
| Aggregation.AggregateKeyOrder | users_data.py:85-103 | the summary's affiliations are pairwise distinct and are exactly the rows' stripped affiliations, in first-occurrence order |
| MissingAccounts.FilterNoAccounts | users_data.py:134-146 | fails iff the input is empty (missing column); otherwise returns, in order, exactly the rows whose stripped, lower-cased status is `"no"`, all of them |
| MissingAccounts.LabelsNormalize | users_data.py:46-47 | the labels `"Yes"` and `"No"` are keyed as `"yes"` and `"no"` by the aggregator and the filter |
| MissingAccounts.MissingComplementsCreated | users_data.py:134-146 | when every label is `"Yes"` or `"No"`, missing rows plus created rows are all the rows |
| MissingAccounts.MissingAtMostNeeded | users_data.py:134-146 | for any labels, the missing rows are at most the summary's `no_of_accounts_needed` |
| MissingAccounts.MissingMatchesSummary | users_data.py:134-146 | for a non-empty roster labelled only `"Yes"`/`"No"`, the missing list has as many rows as the sum of `no_of_accounts_needed`, which is the row count minus the sum of `no_of_accounts_created` |
| MissingAccounts.ReconciledMissingMatchesSummary | app.py:200-202 | on reconciler output, the dashboard's figure `len(updated) - len(missing)` equals the summary's created sum, and `len(missing)` equals its needed sum |
| Fetch.GatheredLength | users_data.py:24-27 | after n pages of at least 1000 rows, at least n*1000 rows are gathered; exactly that many when every page has exactly 1000 rows |
| Fetch.FetchData | users_data.py:6-31 | requests go to offsets 0, 1000, 2000, …; every page before the last had at least 1000 rows; the last is short or failed; a failure yields `[]`; otherwise the result is all pages concatenated in order |
| Fetch.ThreePageExample | users_data.py:12-28 | with pages of 1000, 1000 and 400 rows, the loop makes three requests and returns 2400 rows |
| Scenario.CohortOneScenario | users_data.py:33-103 | directory `x@y.com`; roster ids 5 (`X@Y.com`) and 30000 (`z@w.com`) at ACME; cohort 1: only id 5 is kept, labelled `"Yes"`, and the summary is ACME 1/1/0 |

## Left out

- HTTP, `raise_for_status`, JSON decoding and the `fields` projection in `fetch_data` are folded into the page source. The `print` of the error is not modelled.
- FetchData: requires a page index at which the source returns a short page or fails. A source that keeps returning full pages makes the original loop run forever, and the model does not describe that run.
- `@st.cache_data` memoisation is an optimisation and has no effect on results.
- `gitlab_users.py` is not part of this model. It fetches directory pages concurrently with aiohttp. Page 1 is requested twice there, so its users appear twice; the e-mail set absorbs the duplicates. The model takes the directory users as a given sequence.
- `app.py` is not part of this model (Streamlit UI, login, charts, sorting, widgets and session state). Its use of the missing list's length is covered by `ReconciledMissingMatchesSummary`.
- pandas details are not modelled: missing or NaN e-mails, affiliations or ids; values that are not strings; dtype conversions in `to_dict`. Every roster row is assumed to have all four fields. The only pandas behaviour kept is the `KeyError` on a table built from an empty list.
- `str.lower()` is modelled for the ASCII letters only; Python lower-cases all of Unicode, sometimes to several characters. `str.strip()` uses exactly the characters for which Python's `str.isspace()` is true.
- The reconciler computes labels before it checks the cohort. Nothing is observable in between, so the model checks first.
