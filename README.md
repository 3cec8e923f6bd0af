# HunterAriseRegister dues engine, in Dafny

HunterAriseRegister is a small Streamlit app. A guild uses it to record members' dues
payments and to track how many days of membership each payment buys. This project
models the engine behind its pages, all of it in `app.py`:

- **Quantity**: the quantity codec `parse_quantity` / `format_quantity`.
  - Amounts are counted in qi. One sx is 1000 qi and one sp is 1 000 000 qi.
  - Text such as `"1.5SP "` is parsed by stripping, lower-casing and removing the first matching suffix in SUFFIX_MAP order.
  - Amounts are rendered in the largest denomination whose quotient reaches 1.
- **Coverage**: the expiry walk `compute_expiry`.
  - A payment made after the current expiry starts a new block of `days` days.
  - A payment made inside the current block extends it by `days`.
- **Dashboard**: the member status table of the admin page. It shows the days left and days overdue per roster member, or "Sin pagos".
- **Submission**: the member payment form.
  - The live estimate of days for an amount and a per-day rate.
  - The "Registrar pago" handler, which records a payment when it buys at least one day.
- **Capture**: the storage file name of an uploaded screenshot: date stamp, sanitised member id, random hex id, extension.
- **Ledger**: the payments table (`pagos`) as a class holding rows and an id counter.
  - It supports the single insert of `save_payment` and the delete-then-insert of `delete_all_and_insert`.
  - It models the history view (date range and member filter) and the "Guardar cambios" rebuild. The rebuild keeps the rows the view did not show, plus the shown rows not ticked "Eliminar".
- **Notifier**: the sidebar banners of the admin page, as a class holding the session's `last_count` and pending banners.
  - New ledger positions queue one banner each.
  - Banners are shown for 30 seconds.
- **Seqs**, **Text**, **Wrappers**: an order-preserving filter; the Python `str` operations the engine uses; `Option`.

Amounts and days are exact reals. Dates are integer day numbers. Times are real seconds. The model takes these values as parameters:

- the clock (`now`, `today`);
- the random upload id (`uuid4().hex`);
- the date stamp (`strftime`);
- the member roster loaded from Discord.

Points where the code behaves differently from what one might expect:

- `compute_expiry` walks the payments in the order it is given. It does not sort them; `Coverage.OrderMatters` shows that the order changes the result.
- `last_count` is never lowered after rows are deleted (`Notifier.DeletionHidesArrival`).
- Deleting ledger rows leaves the stored screenshots in place.
- The rebuild drops the old ids and reinserts the rows under fresh ids.

## Model

| member | source | states |
|---|---|---|
| Text.TrimStartSpec | app.py:39 | `strip()` first removes a whitespace-only prefix, stopping at the first non-space character |
| Text.TrimEndSpec | app.py:39 | then removes a whitespace-only suffix, stopping at the last non-space character |
| Text.Lower | app.py:39 | `lower()` keeps the length and maps each letter position-wise to its lower-case form |
| Text.RStripSpec | app.py:53 | `rstrip(c)` removes exactly the trailing run of `c` and stops at the last other character |
| Text.NatToString | app.py:52 | `int(val)` rendered as text is a non-empty digit string whose decimal value is the number, with no leading zero except for "0" itself |
| Quantity.RoundTrip | app.py:38-55 | `parse_quantity(format_quantity(x)) == x` holds exactly when the rendered quotient has at most three fractional digits (both directions) |
| Quantity.RenderRoundTrip | app.py:50-54 | at or above 1, a quotient in its denomination parses back to its qi value exactly when it has at most three decimals |
| Quantity.FallbackRoundTrip | app.py:55 | below 1 qi, the fallback text followed by "qi" parses back exactly when the value has at most three decimals |
| Quantity.Quotient | app.py:47-50 | the chosen denomination and quotient convert back to the original amount |
| Quantity.RoundHalfEven | app.py:53 | `.3f` rounding stays within half a unit, changes nothing exactly on integers, and breaks an exact tie towards the even neighbour |
| Quantity.RoundedExact | app.py:53 | rounding to thousandths leaves a value unchanged exactly when it has at most three decimals |
| Quantity.Fixed3Value | app.py:53 | the stripped three-decimal text is a digit-delimited decimal worth the value rounded to thousandths |
| Quantity.MilliTextValue | app.py:53 | stripping trailing zeros and the point keeps the value `m / 1000` |
| Quantity.ParseSuffixed | app.py:40-42 | the suffix search finds the suffix a rendering carries and scales by its factor |
| Quantity.ParseRendered | app.py:38-43 | a rendered number followed by a suffix parses to the number times the suffix factor |
| Quantity.NormalisedParse | app.py:39 | on text that strip and lower leave alone, parsing is the suffix search alone |
| Quantity.ReprApproxValue | app.py:55 | the fallback text of any amount parses back through `float()` exactly when it has at most three decimals |
| Quantity.ParseDigits | app.py:43 | a bare digit string is parsed as that many qi |
| Quantity.ParseOneSx | app.py:15 | the form default "1sx" is 1000 qi |
| Quantity.ParseZero | app.py:43 | "0" parses to zero |
| Quantity.ParseNegativeSx | app.py:38-42 | a sign carries through the suffix: "-5sx" is -5000 qi |
| Quantity.ParseOneAndAHalfSp | app.py:38-43 | surrounding space and upper case are ignored: "1.5SP " is 1500000 qi |
| Quantity.FormatOneSx | app.py:47-52 | 1000 qi prints as "1sx" |
| Quantity.FormatQi | app.py:47-52 | 999 qi is below one sx and prints as "999qi" |
| Quantity.FormatOneAndAHalfSx | app.py:47-54 | 1500 qi prints as "1.5sx", trailing zeros stripped |
| Quantity.FormatRounds | app.py:47-54 | 1234567 qi prints as "1.235sp", which parses back to 1235000 qi rather than the amount |
| Quantity.FloatShape | app.py:42-43 | text that `float()` accepts is, after stripping, non-empty, has a digit, at most one point, and no sign except a leading one |
| Quantity.NotShaped | app.py:42-43 | text of any other shape is a `ValueError` |
| Quantity.ParseLetters | app.py:38-43 | "abc" is a `ValueError` |
| Quantity.ParseBareSuffix | app.py:40-42 | "sx" with no number before the suffix is a `ValueError` |
| Quantity.ParseTwoPoints | app.py:40-42 | "1.2.3sx" is a `ValueError` |
| Coverage.ExpiryOf | app.py:134-142 | the walk yields no expiry exactly for an empty group |
| Coverage.ComputeExpiry | app.py:134-142 | the accumulator loop computes the expiry of the payments in the order given |
| Coverage.StepCovers | app.py:138-141 | every step reaches at least the end of the block the payment would open alone |
| Coverage.ExpiryCoversLast | app.py:136-142 | the final expiry covers the last payment's own block |
| Coverage.StepAdvances | app.py:140-141 | a payment of at least one day moves the expiry strictly forward |
| Coverage.ExpiryMonotone | app.py:136-141 | with payments of at least one day, the expiry after a prefix never exceeds the final expiry |
| Coverage.ExpiryBoundsAll | app.py:136-142 | the final expiry bounds the block end of every payment walked |
| Coverage.ContiguousExpiry | app.py:136-141 | without gaps the expiry is the first date minus one plus the total days |
| Coverage.OverlapExample | app.py:140-141 | day 0 for 5 days then day 2 for 3 days extends to day 7 |
| Coverage.GapExample | app.py:138-139 | day 0 for 5 days then day 9 for 3 days opens a new block ending on day 11 |
| Coverage.OrderMatters | app.py:136 | the same two payments in reverse order give day 16: the walk depends on the order given |
| Dashboard.DayStatus | app.py:258-259 | days left minus days overdue is the expiry day minus today, and at most one of them is non-zero |
| Dashboard.DueToday | app.py:258-259 | both counts are zero exactly on the expiry day |
| Dashboard.NoPaymentsIff | app.py:247-255 | "Sin pagos" appears exactly for members with no ledger row |
| Dashboard.PaidStatus | app.py:256-260 | a paying member's counts follow the expiry of their own rows |
| Dashboard.StatusRows | app.py:245-260 | one row per roster entry, in roster order, with the nick and that member's status |
| Dashboard.OverdueExample | app.py:257-259 | seven days into a five-day payment from day 0, the member is 3 days overdue |
| Capture.Underscored | app.py:149 | the result has the input's length and only class characters; class characters stay in place, every changed position holds `_`, and a safe string is unchanged |
| Capture.Truncated | app.py:149 | `[:50]` keeps the prefix of length 50, or the whole of a string of at most 50 characters |
| Capture.AsciiDrops | app.py:148 | `encode("ascii", "ignore")` drops a non-ASCII character and keeps the rest in order |
| Capture.AsciiKeeps | app.py:148 | ASCII text passes unchanged |
| Capture.SanitizeSafe | app.py:148-149 | the sanitised name only holds characters of the class and has at most 50 |
| Capture.SanitizeKeepsSafe | app.py:148-149 | a safe name of at most 50 characters is kept unchanged |
| Capture.SanitizeIdempotent | app.py:148-149 | sanitising twice is sanitising once |
| Capture.UnderscoreExample | app.py:149 | "Jos P." becomes "Jos_P_" |
| Capture.SanitizeExample | app.py:148-149 | "José P." becomes "Jos_P_" |
| Capture.Extension | app.py:146 | the extension is empty, or it is a suffix of the name starting with its only dot and holding no `/` |
| Capture.ExtensionNonEmpty | app.py:146 | the extension is non-empty exactly when the last path component has a dot with some non-dot character before it |
| Capture.ExtensionExamples | app.py:146 | the extensions of "comprobante.png", "a.tar.gz", ".bashrc" and "captura" are ".png", ".gz", "" and "" |
| Capture.UploadExtensionShape | app.py:146 | without a name attribute the extension is ".png"; with one it is empty or a tail of the name starting with a dot |
| Capture.FileNameShape | app.py:152-155 | the name is the stamp and `_`, then the sanitised name and `_` when it is non-empty, then uid and extension, and nothing else |
| Capture.FileNameChars | app.py:148-155 | with a safe stamp and uid and an extension of class characters and dots, the whole name is made of class characters and dots |
| Submission.Estimate | app.py:187 | for a positive rate the estimate times the rate is the amount; otherwise it is 0 |
| Submission.CrashIff | app.py:196-197 | as written, the handler raises exactly when the amount parses and the rate parses to zero |
| Submission.ZeroRateCrashes | app.py:196-197 | amount "1sx" with rate "0" raises |
| Submission.CorrectedAgrees | app.py:195-207 | the corrected handler never raises, agrees with the program wherever the program does not raise, and reports a zero rate exactly where it raises |
| Submission.ZeroRateReported | app.py:195-207 | the corrected handler reports "1sx" at "0" as a zero rate |
| Submission.AcceptedMeaning | app.py:196-204 | accepted exactly when both fields parse, the rate is non-zero and the quotient is at least 1; it then saves the parsed amount and days that, times the rate, give the amount |
| Submission.AcceptedSameSign | app.py:197-198 | an accepted amount and its rate have the same sign |
| Submission.NegativePairAccepted | app.py:196-204 | "-5sx" at "-1sx" is accepted as 5 days and -5000 qi |
| Submission.PreviewMatchesSaved | app.py:187 | with a positive rate the saved days equal the estimate shown |
| Submission.PreviewAmountRoundTrip | app.py:185-189 | the amount the estimate re-renders parses back to the parsed amount exactly when its quotient has at most three decimals |
| Submission.PreviewZeroRate | app.py:182-189 | with the amount "1sx" and a rate of "0" the estimate shows "1sx" and 0 days |
| Submission.Register | app.py:194-207 | runs the corrected check (a zero rate is reported where the program raises; the ledger is unchanged either way); on acceptance exactly one row is appended under the next id with the saved columns, otherwise the ledger is unchanged |
| Ledger.Raws | app.py:120-129 | the reinserted records are the rows' RAW_COLS values, one per row, in order |
| Ledger.RawsConcat | app.py:320 | projecting a concatenation is concatenating the projections |
| Ledger.FindMember | app.py:270-271 | the first roster entry with the id, or none exactly when no entry has it |
| Ledger.NickOfFirst | app.py:270 | the nick shown is that of the first matching roster entry |
| Ledger.NickOfMissing | app.py:272 | an id missing from the roster is shown as itself |
| Ledger.ViewMembers | app.py:286-288 | a row is in the history view exactly when it is in the ledger, in the date range, and of the selected nick unless "Todos" |
| Ledger.ViewEverybody | app.py:287 | with "Todos" only the date range filters |
| Ledger.IdsConcat | app.py:316-318 | the ids of two lists of rows together are the union of their ids |
| Ledger.Rebuild | app.py:318-320 | the rebuild has one record per outside row plus one per kept row |
| Ledger.RebuildParts | app.py:318-320 | first the outside rows in ledger order, then the kept rows in ledger order |
| Ledger.RebuiltMembers | app.py:316-320 | a loaded row survives exactly when the view did not show it or the editor kept its id |
| Ledger.MarkedRowsGone | app.py:316-320 | a shown row that is ticked is not in the rebuild |
| Ledger.RebuildIsSelection | app.py:316-320 | when kept ids come from the view, the rebuild is, as a multiset, the loaded rows that survive, each once |
| Ledger.EditsIgnored | app.py:294-320 | edits typed into the grid do not reach the ledger; only ids and ticks matter |
| Ledger.EditorKeepsAll | app.py:290-293 | the grid as first shown, whose amounts are pre-filled with `format_quantity`, keeps exactly the ids of the view |
| Ledger.EditorKeepsOnlyShown | app.py:290-316 | a row the view did not show is never among the ids the untouched grid keeps |
| Ledger.UntouchedSaveKeepsAll | app.py:290-320 | saving an untouched grid keeps the outside rows and every shown row |
| Ledger.StoreAllIds | app.py:130-131 | inserted ids are distinct and in the range handed out |
| Ledger.RawsStoreAll | app.py:130-131 | storing then projecting gives back the records |
| Ledger.PaymentLedger.Insert | app.py:106-115 | one row is appended under the next id, and ids stay distinct and positive |
| Ledger.PaymentLedger.ReplaceAll | app.py:118-131 | afterwards the table holds exactly the records, in order, under fresh ids |
| Ledger.PaymentLedger.SaveHistoryEdits | app.py:315-321 | afterwards the table's records are the rebuild of the loaded rows from the view ids and kept ids |
| Notifier.FreshEmptyIff | app.py:229-239 | nothing is kept exactly when every banner is at least 30 s old |
| Notifier.FreshLater | app.py:231 | keeping at one time and then at a later time is keeping at the later time; in particular keeping twice at one time is keeping once |
| Notifier.JustQueued | app.py:220-231 | banners queued in this run are all kept in this run |
| Notifier.FreshSnoc | app.py:230-238 | one loop step keeps the next banner exactly when it is younger than 30 s |
| Notifier.Notifications.constructor | app.py:29-32 | nothing seen and nothing pending |
| Notifier.Notifications.Observe | app.py:212-227 | a longer ledger queues the new positions and records the length; a shorter or equal one changes nothing |
| Notifier.Notifications.Retain | app.py:228-239 | the queue becomes its banners younger than 30 s, in order, and exactly those are shown |
| Notifier.Notifications.RetainAsWritten | app.py:228-239 | raises exactly when some banner is younger than 30 s, leaving the queue as it was; otherwise the queue is emptied |
| Notifier.Notifications.Show | app.py:211-239 | one run queues, then keeps and shows the fresh banners |
| Notifier.Notifications.ShowAsWritten | app.py:211-239 | one run as written raises exactly when a queued banner is fresh, leaving the first half's update in place |
| Notifier.FirstRunCrashes | app.py:211-239 | the first admin run over a non-empty ledger raises, as written |
| Notifier.FirstRunAnnouncesAll | app.py:211-239 | with the roster lookup, the first run shows one banner per payment, in sorted order |
| Notifier.DeletionHidesArrival | app.py:213-227 | after a deletion, a new payment that brings the ledger back to the seen length is never announced |
| Notifier.BackdatedArrivalMisnamed | app.py:214-216 | a payment dated before the latest one makes the queued banner announce the latest-dated row instead |

## Left out

- Quantity.ParseFloat: `float()` is modelled on sign, digits and an optional point with digits. The exponent form, `inf`/`nan`, underscores and non-ASCII digits are rejected by the model, although Python accepts them.
- Text.Strip and Text.Lower: only ASCII whitespace and ASCII letters are treated. Unicode spaces and case mappings are not modelled.
- Quantity.Format: amounts are exact reals, not binary floats. `.3f` rounds the exact value half-to-even, which can differ from rounding the binary value.
- Quantity.ReprApprox: the below-1 fallback `f"{units}qi"` prints Python's shortest float repr. The model prints integral values as `N.0` and other values with three decimals, so its round trip is stated for that rendering.
- The estimate's display text `days_str` (app.py:188, `int` or `.2f`) is not modelled. `Submission.Previewed` keeps the real estimate.
- Dates are day numbers. Loading (`pd.to_datetime(..., errors="coerce")`, which can produce NaT) and `isoformat` are not modelled. The expiry's `timedelta` of fractional days is exact, with no rounding to nanoseconds.
- Ledger.PaymentLedger.ReplaceAll: it is atomic here. In the program it is two requests, so a failed insert leaves the table empty.
- The database id counter is modelled as "the next id", starting at 1. Rows with id 0, which the delete spares, cannot arise.
- The reload between showing the history view and saving it is one state in the model.
- `pagos_df.sort_values("Fecha")` is not modelled. `Notifier.Notifications.Observe` takes the rows already sorted by date; pandas' order among equal dates is not fixed.
- The two clock reads inside one notifier run count as one instant. The sidebar placeholders are not modelled.
- The upload itself (temporary file, storage bucket), signed URLs, the screenshots page, the password check and every Streamlit widget are I/O and are not modelled. The same goes for the Discord roster request (`load_config`) and `load_payments`.
- `hasattr(captura, "name")` is an `Option` name parameter of `Capture.UploadExtension`.
- The banner's markdown text (app.py:233-235) is not modelled. `Notifier.Banner` holds its nick, amount and days.

## Findings

| source | as written | input that shows it | evidently intended | confidence | as-written member | corrected member |
|---|---|---|---|---|---|---|
| app.py:196-197 | `q / parse_quantity(rate)` raises `ZeroDivisionError` for a zero rate, and `except ValueError` does not catch it, so the page run aborts | amount "1sx", rate "0" | report the zero rate as an input error, like an unparsable field | not executed | Submission.ZeroRateCrashes | Submission.CorrectedAgrees |
| app.py:232 | inside `show_notifications`, `config` is the `logging.config` module imported at app.py:1, because the roster is a local of `main` (app.py:363). `.loc` raises `AttributeError` whenever a banner is younger than 30 s | the first admin page run over a ledger with at least one payment | look up the nick in the roster. The fallback to the id for a member missing from the roster is the model's choice, taken from the history view (app.py:268-273); the line as written has none, and `.iat[0]` would raise `IndexError` for such a member | not executed | Notifier.FirstRunCrashes | Notifier.FirstRunAnnouncesAll |
