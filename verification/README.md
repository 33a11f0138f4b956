# Pincode serviceability checker — Dafny model

This project models the decision and data-shaping core of the quick-commerce
pincode serviceability checker (`pincode_serviceability_check.py`). The
checker reads a CSV file of postal pincodes and keeps the ones that are six
digits. For each valid pincode it drives the Zepto, Blinkit and Swiggy
Instamart web pages to decide whether the provider delivers there. It then
writes a results file and a file of the invalid pincodes.

The model keeps everything that can be stated without a browser:

- **Reading** (`Pincodes`): each row's first field is stripped, then
  classified as valid (`isdigit()` and length 6) or invalid. Both lists keep
  input order. A row with no fields makes `row[0]` raise, which ends the run.
  The model returns this as `Failure(EmptyRow(i))` for the first such row.
- **Provider checks** (`Providers`): each provider is a pure function from
  an observation to a `(status, address)` outcome. The observation records
  what each step of driving that provider's page showed, in the order the
  source takes the steps. A step is a `Probe`: it either `Raised` an
  exception or was `Seen` with a value. A step that raises before
  classification gives `("Error", "N/A")`. For Zepto and Blinkit this is the
  value the check started with, or Zepto's explicit return after a failed
  location step. For Instamart, whose starting value is
  `("Invalid or No Match", "N/A")`, the exception handler sets only the
  status to "Error" and leaves the address "N/A".
- **Merging** (`Orchestrator`): the row's address is the first of the Zepto,
  Blinkit and Instamart addresses that is not `"N/A"`. There is one row per
  valid pincode, in order. What the pages show for the `k`-th valid pincode
  is a parameter (`World`), because the pages are outside the program.
- **Output shaping** (`Report`): both files are modelled as lists of records
  (field lists), header first. Each file has a reader, and the two are proved
  to be inverse.
- **Whole run** (`Checker`): `Run` chains reading, checking and shaping.
- **Strings** (`Text`): Python's `strip()`, `isdigit()` and the `in`
  substring test.

The model follows the code as written in these places:

- A missing address is the string `"N/A"`, not an absent value.
- The merge skips only `"N/A"`. An empty address (an Instamart option whose
  text is all whitespace) counts as known and is chosen.
- Zepto and Blinkit never report `Unconfirmed`. When their "not
  serviceable" marker is absent they report `Serviceable`. Only Instamart
  has a third, unconfirmed outcome.
- An empty suggestion list gives the address `"N/A"`.

## Model

| member | source | states |
|---|---|---|
| Text.Strip | pincode_serviceability_check.py:34 | the result is a contiguous block of the input; everything before and after it is whitespace, and it neither starts nor ends with whitespace |
| Text.StripOfUnique | pincode_serviceability_check.py:34 | only one string meets that description, so `strip()` is fully determined by it |
| Text.StripIdempotent | pincode_serviceability_check.py:34 | stripping an already stripped pincode changes nothing |
| Text.StripUnpadded | pincode_serviceability_check.py:34 | a field without surrounding whitespace is kept as it is |
| Text.StripPadded | pincode_serviceability_check.py:34 | whitespace around a field is dropped, whatever the field holds |
| Text.ContainsIffOccurs | pincode_serviceability_check.py:160-162 | the `in` test on marker texts holds exactly when the needle occurs at some index of the text |
| Pincodes.Candidates | pincode_serviceability_check.py:33-34 | one candidate per row, the row's first field stripped |
| Pincodes.FirstEmptyRow | pincode_serviceability_check.py:33-34 | finds the first row whose `row[0]` would fail, and none exactly when every row has a field |
| Pincodes.Partition | pincode_serviceability_check.py:31-35 | the two list sizes add up to the number of candidates; the valid list holds only valid pincodes and the invalid list only invalid ones (which candidate goes where, and in what order, is stated by `PartitionCharacterised`) |
| Pincodes.PartitionCharacterised | pincode_serviceability_check.py:31-36 | the split is the one order-preserving interleaving of the candidates into all-valid and all-invalid lists, in both directions |
| Pincodes.ReadPincodes | pincode_serviceability_check.py:30-36 | reading fails exactly when some row has no fields, naming an empty row; otherwise the two lists are an order-preserving interleaving of the rows' stripped first fields, the valid list holds only valid pincodes and the invalid list only invalid ones |
| Pincodes.ReadValidPincodes | pincode_serviceability_check.py:30-36 | the row-by-row loop with its appends computes the same result as the split, including stopping at the first empty row |
| Outcomes.ParseLabel | pincode_serviceability_check.py:39-43 | a label is read back to the status whose label it is, and is rejected when no status has it |
| Outcomes.LabelRoundTrip | pincode_serviceability_check.py:39-43 | every status written to the results file reads back as itself, so no two statuses share a label |
| Providers.CheckZepto | pincode_serviceability_check.py:54-100 | no address when the check failed or found no match; never `Unconfirmed`; no match exactly when the list was reached and empty; `Error` exactly when a step before the list raised, or a later step raised after a non-empty list; `Not Serviceable` exactly when "Coming Soon" was seen; the address is the user-address text or the Zepto sentinel |
| Providers.ZeptoFailureDefault | pincode_serviceability_check.py:55-76 | a failure before the suggestion list returns `("Error", "N/A")` (the explicit return after a failed location step, the initial value otherwise) whatever later steps would show |
| Providers.ZeptoNoMatchStops | pincode_serviceability_check.py:76-78 | an empty suggestion list ends the check: nothing observed afterwards changes the outcome |
| Providers.ZeptoStatusIgnoresAddress | pincode_serviceability_check.py:89-94 | whether the address element is readable never changes the Zepto status |
| Providers.CheckBlinkit | pincode_serviceability_check.py:103-134 | never `Unconfirmed`; no match exactly when the option list was reached and empty; `Not Serviceable` exactly when the non-serviceable step is present, and then the address stays "N/A"; otherwise `Serviceable` with the subtitle or the Blinkit sentinel; `Error` exactly when a step raised first |
| Providers.BlinkitFailureDefault | pincode_serviceability_check.py:104-115 | a failure before the option list yields the initial `("Error", "N/A")` |
| Providers.BlinkitMarkerStops | pincode_serviceability_check.py:121-128 | once the non-serviceable marker is seen, the subtitle is not consulted |
| Providers.CheckInstamart | pincode_serviceability_check.py:137-172 | no match exactly when the option list was reached and empty; `Serviceable` exactly when the navbar is present; `Not Serviceable` exactly when the navbar is absent and a banner or note matches; `Unconfirmed` exactly when both probes ran without a match; in these three cases the address is the first option's stripped text |
| Providers.InstamartNavbarFirst | pincode_serviceability_check.py:157-165 | the navbar decides first: whatever the later marker probes show, even a failure, the outcome is `Serviceable` with the option's address |
| Providers.InstamartFailureDefault | pincode_serviceability_check.py:153-169 | a failure after the option text was read (the click, the navbar probe, or a marker probe that is reached) still reports "N/A", because the returned dict never received it |
| Providers.InstamartAddressStripped | pincode_serviceability_check.py:153 | the Instamart address is already stripped |
| Orchestrator.FirstKnown | pincode_serviceability_check.py:194 | the result is "N/A" exactly when every address is "N/A"; otherwise it is the address at the first index that is not "N/A" |
| Orchestrator.MergeAddressPrecedence | pincode_serviceability_check.py:194 | Zepto's address wins when known, then Blinkit's, then Instamart's (which may itself be "N/A") |
| Orchestrator.CheckAll | pincode_serviceability_check.py:184-201 | exactly one row per valid pincode, in order; row `k` carries pincode `k`, the three statuses of its checks, and the merged address |
| Orchestrator.RunChecks | pincode_serviceability_check.py:184-201 | the loop that appends one row per pincode meets the same row-by-row description |
| Orchestrator.ErrorIsRecordedNotFatal | pincode_serviceability_check.py:185-201 | when any one provider's check fails for pincode `k`, the run still produces one row per pincode; row `k` has "Error" in the column of each failing provider, and every other row is the same as if that check had not failed |
| Report.ResultsTable | pincode_serviceability_check.py:39-43 | the header `Pincode, Address, Zepto, Blinkit, Instamart`, then one five-field line per result with the pincode, address and three status labels in that order |
| Report.InvalidTable | pincode_serviceability_check.py:46-51 | the header `Invalid Pincode`, then one single-field line per invalid pincode, in order |
| Report.ParseResultRecord | pincode_serviceability_check.py:39-43 | a results line that reads back is exactly the line written for the row it reads to |
| Report.ResultsRoundTrip | pincode_serviceability_check.py:39-43 | reading the results file back gives every row: pincode, address and statuses |
| Report.RecordsRoundTrip | pincode_serviceability_check.py:43 | the lines after the header read back to the rows, by induction on the rows |
| Report.ResultsTableOnlyParses | pincode_serviceability_check.py:39-43 | any table that reads back is the table written for what it reads to |
| Report.RecordsOnlyParse | pincode_serviceability_check.py:43 | lines that read back are the lines written for their rows, by induction on the lines |
| Report.InvalidRoundTrip | pincode_serviceability_check.py:46-51 | reading the invalid file back gives every invalid pincode, in order |
| Report.InvalidRecordsRoundTrip | pincode_serviceability_check.py:50-51 | the single-field lines read back to the pincodes, by induction |
| Report.InvalidTableOnlyParses | pincode_serviceability_check.py:46-51 | any invalid file that reads back is the file written for what it reads to |
| Report.InvalidRecordsOnlyParse | pincode_serviceability_check.py:50-51 | single-field lines that read back are the lines written for their pincodes |
| Checker.Run | pincode_serviceability_check.py:175-205 | the run fails exactly when a row has no fields; otherwise the two files together have one line per input row plus two headers; the pincodes of the results lines and the values of the invalid lines are an order-preserving interleaving of the stripped first fields; each results line starts with a valid pincode and is the line written for that pincode's checks at its position; each invalid line holds one invalid value |
| Checker.ValidInvalidValid | pincode_serviceability_check.py:181-204 | for rows valid, invalid, valid: the results file holds the first and third pincodes in order, checked as valid pincodes 0 and 1, and the invalid file holds the middle one |
| Checker.ExampleRun | pincode_serviceability_check.py:181-204 | rows `562110`, `11111`, `400001`, with Zepto serving `562110` in Bangalore and the Swiggy option wait timing out: two results lines in input order with the expected labels (Instamart "Error") and merged addresses, and one invalid line `11111` |

## Left out

- Browser automation is not modelled: `setup_driver`, page loads, `WebDriverWait`, element lookups, clicks, typing and `driver.quit`. These are calls into Selenium and third-party pages. Only their outcomes appear, as the `Probe` fields of each observation.
- A failing `setup_driver()` or `driver.quit()` is left out. `setup_driver()` sits outside the `try` block (lines 55, 104 and 138), and `driver.quit()` runs in the `finally` blocks (lines 99, 133 and 171), so either failure would escape the check and end the whole run. The observations start once a driver exists and assume it closes cleanly, so `Run` never fails for this reason.
- The one stale-element retry on Zepto's location button (lines 64-66) is one `selectLocation` step. Both the first failure and a failed retry end in `("Error", "N/A")`, so only the final outcome is kept.
- The script-click fallback for an intercepted click (lines 82-83) is likewise folded into the single `pickFirst` step.
- The settle delays (`time.sleep`) and wait timeouts are left out: they affect timing, not decisions.
- The empty-list branches (lines 77-78 and 150-151) are kept as written. With Selenium's `presence_of_all_elements_located`, a wait that finds nothing times out instead of returning an empty list, and that check then reports "Error". That behaviour belongs to the library, which is not part of this model.
- A marker probe on Instamart (lines 160 and 162) either raises or yields all its texts. The short-circuit of `any`, which can skip a failing element after a match, is not modelled.
- CSV file I/O and quoting are left out. Files are lists of field lists. The round-trip lemmas are stated at the field level, not on the quoted text.
- `print` logging is left out.
- check_zepto_pincode.py is left out. It is a standalone Appium script with a hard-coded pincode that reports only by printing.
- Pincodes.IsValidPincode: digits are ASCII `0`-`9`. Python's `isdigit()` also accepts other Unicode digits, for example Arabic-Indic digits and superscripts. Encoding Python's tables was judged out of scope. Whitespace for `strip()` is Python's full `str.isspace` set, which is small and fixed.
