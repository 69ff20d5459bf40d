# ESCO bid admissibility: a Dafny model

This project models the bid form of the ESCO auction service
(`openprocurement/auction/esco/forms.py`). A bidder submits an offer made of a
bidder id, a yearly payments percentage, and a contract duration in years and
days. The form checks the offer against the auction. The outcome is one of
three things:

- a withdrawal (the percentage is the sentinel -1, and `validate` returns -1);
- an accepted present value (the result of the external `npv` function);
- a failure, with the form's `errors` dictionary: messages per field, or one
  message under the form-level key `'form'`.

`form_handler` then appends a record to the current stage exactly when the
result is truthy.

Modules, one per component of the form:

- `Esco` (`esco.dfy`) holds the data.
  - `Limits` stands for `DAYS_IN_YEAR` and `MAX_CONTRACT_DURATION`.
  - `Auction` is the auction object: features mode, per-bidder coefficients, and its
    in-memory document (percentage lower bound, NBU discount rate, notice date).
  - `Document` is the auction document read from the database for the request:
    current stage, stages, initial bids, minimal step.
  - `Submission` is the bound form data.
  - `Message` lists the form's messages; `Key` lists the keys of `errors`.
- `FieldValidators` (`field_validators.dfy`) holds the four field chains and the
  base form's validation.
- `BidChange` (`bid_change.dfy`) holds the threshold rule in its two modes.
- `Baseline` (`baseline.dfy`) holds the `initial_bids` lookup: a specification
  function, and the loop with `break` proved against it.
- `BidsForms` (`bids_form.dfy`) holds `validate`. `Evaluate` is the specification
  function. The class `BidsForm` mutates `errors` as the source does, and its
  `Validate` is proved equal to `Evaluate`. Lemmas about `Evaluate` state the
  pipeline's properties.
- `FormHandling` (`form_handler.dfy`) holds `form_handler`. The ledger behind
  `add_bid` is a class whose list of calls grows by one record exactly on a truthy
  result.

How the model follows the code:

- Field validation follows the wtforms 2 chain rules that the form relies on.
  - A `ValidationError` adds its message and the chain goes on.
  - A `StopValidation` adds its message and the chain stops.
  - The inline `validate_bidder_id` runs after the declared validators.
  - Every field is validated, so field messages accumulate across fields.
- `validate_bidder_id_on_bidding` appends 'Not valid bidder' to the field. It
  then raises `StopValidation` with the same text, and the chain appends it
  again. The model keeps both copies.
- `current_stage` indexes `stages` with Python semantics, so -1 is the last stage.
- The present-value function `npv` is a parameter of type `Npv`. No property of
  it is assumed.
- Money, percentages and the step are `real`, as the source uses `Fraction`.
- Messages are constructors of `Message`. A message that the source formats from
  a number carries that number (for example the lower bound times 100).

Consequences of the code that are easy to miss:

- The percentage range check (forms.py:33) has no exemption for -1. With a
  lower bound above -1, the withdrawal branch of `validate` (forms.py:103-104)
  cannot be reached. `WithdrawalNeedsLowerBoundAtMostMinusOne` states this.
- The joint duration check (forms.py:40) compares days/DAYS_IN_YEAR + years
  with the maximum, so 14 years and 200 days (14 + 200/365, below 15) pass
  (`FourteenYearsTwoHundredDaysPass`).
- The joint duration check runs only when both the days and the years are
  non-zero (forms.py:39), and the comparison is strict (forms.py:40)
  (`YearsAloneNotJointlyChecked`, `DurationAtMaximumPasses`).
- A present value of exactly 0 that clears the threshold is returned by
  `validate` (forms.py:134), but it is falsy (forms.py:148). `form_handler` then
  answers 'failed' with an empty error dictionary and records nothing
  (`ZeroAmountFailsWithoutErrors`).
- After recording a truthy result, `form_handler` logs a "canceled bids" line
  when the percentage is truthy (forms.py:158-165). Otherwise the "placed bid"
  line reads `form.data['bid']` (forms.py:167-170); the form has no `bid` field,
  so this raises `KeyError` after `add_bid` and no 'ok' answer is sent. Only a
  percentage of 0 reaches that branch. The model answers `Fault` there
  (`ZeroPercentageFaultsAfterRecording`).

## Model

| member | source | states |
|---|---|---|
| Esco.Document.CurrentStage | openprocurement/auction/esco/forms.py:17-18 | `stages[current_stage]` is a stage of the document, with Python's negative indexing |
| FieldValidators.PercentageErrors | openprocurement/auction/esco/forms.py:30-35 | the percentage passes iff lower bound <= p <= 1; otherwise the single message names the lower bound times 100; -1 passes only when the lower bound is at most -1 |
| FieldValidators.YearsErrors | openprocurement/auction/esco/forms.py:82-85 | the years pass iff 0 <= years <= MAX_CONTRACT_DURATION, else the one range message |
| FieldValidators.DurationExceeds | openprocurement/auction/esco/forms.py:39-40 | the joint check fires iff days and years are both non-zero and days + years × DAYS_IN_YEAR exceeds MAX × DAYS_IN_YEAR, the rational comparison taken in whole days |
| FieldValidators.DaysErrors | openprocurement/auction/esco/forms.py:38-41 | the duration message appears iff days and years are both non-zero and days/DAYS_IN_YEAR + years > MAX; the range message appears iff days lies outside [0, DAYS_IN_YEAR-1]; both can appear |
| FieldValidators.ValidateBidderId | openprocurement/auction/esco/forms.py:16-20 | only in a 'bids' stage, a bidder other than the stage's bidder is refused, with 'Not valid bidder' recorded twice |
| FieldValidators.BidderIdErrors | openprocurement/auction/esco/forms.py:94-97 | the bidder id passes iff it is non-empty and, in a 'bids' stage, equals the stage's bidder; an empty id gives only 'No bidder id' |
| FieldValidators.FieldErrors | openprocurement/auction/esco/forms.py:69-92 | a field appears in `errors` exactly when its chain reported, with that chain's messages; there is no form-level key; the dictionary is empty iff every field rule holds |
| FieldValidators.DurationExceedsWithinRanges | openprocurement/auction/esco/forms.py:38-41 | within the field ranges, the joint duration check fires iff the years equal the maximum and the days are positive |
| FieldValidators.DurationAtMaximumPasses | openprocurement/auction/esco/forms.py:40 | the comparison is strict: a total exactly at the maximum passes |
| FieldValidators.YearsAloneNotJointlyChecked | openprocurement/auction/esco/forms.py:39 | with zero days the joint duration check never fires, whatever the years |
| FieldValidators.FourteenYearsTwoHundredDaysPass | openprocurement/auction/esco/forms.py:38-41 | 14 years and 200 days pass with a 365-day year and a 15-year maximum |
| BidChange.Threshold | openprocurement/auction/esco/forms.py:44-61 | standard mode: the threshold is the leading amount × (1 + step); features mode: it is the step above amount_features × coefficient; with non-negative step (and amount) it is never below the baseline |
| BidChange.BidChangeAccepted | openprocurement/auction/esco/forms.py:53-61 | the bid is kept iff its value reaches the threshold; in standard mode with non-negative step and amount, a kept value is at least the leading amount |
| BidChange.StandardModeRule | openprocurement/auction/esco/forms.py:59-66 | standard mode accepts iff amount_npv >= amount × (1 + minimalStepPercentage) |
| BidChange.FeaturesModeRule | openprocurement/auction/esco/forms.py:49-58 | features mode accepts iff amount_npv >= amount_features × coefficient + minimalStepPercentage |
| BidChange.AcceptanceUpwardClosed | openprocurement/auction/esco/forms.py:53-61 | a value at least an accepted value is accepted |
| BidChange.ModesAgreeOnlyInDegenerateCases | openprocurement/auction/esco/forms.py:49-61 | with coefficient 1 and equal baselines, the two modes' thresholds agree iff the step is 0 or the amount is 1 |
| BidChange.StandardThresholdExample | openprocurement/auction/esco/forms.py:59-61 | with a leading amount of 1000 and a 1% step, exactly the values >= 1010 are accepted |
| Baseline.AnnualCostsReduction | openprocurement/auction/esco/forms.py:113-117 | the baseline is `annualCostsReduction` of the first entry with the bidder's id, and 0 when there is none |
| Baseline.FindAnnualCostsReduction | openprocurement/auction/esco/forms.py:113-117 | the loop with `break` returns exactly that baseline |
| BidsForms.BidsForm.constructor | openprocurement/auction/esco/forms.py:143-145 | a new form is bound to the submission, the auction and the document, and has no errors |
| BidsForms.BidsForm.AppendFormError | openprocurement/auction/esco/forms.py:107-110 | the message is appended to the form-level list, and earlier form-level messages are kept |
| BidsForms.BidsForm.ValidateFields | openprocurement/auction/esco/forms.py:100 | `errors` becomes the field errors, and the form passes iff every field rule holds |
| BidsForms.BidsForm.ValidateBidChangeOnBidding | openprocurement/auction/esco/forms.py:44-66 | passes iff the value clears the mode's threshold; otherwise 'Amount NPV: Too low value' is appended after any earlier form-level messages; nothing else changes |
| BidsForms.BidsForm.Validate | openprocurement/auction/esco/forms.py:99-137 | the result and the final `errors` equal those of `Evaluate`, whose properties are the lemmas below |
| BidsForms.NpvAmount | openprocurement/auction/esco/forms.py:112-124 | `npv` is called with the submitted years, days and percentage, the notice date and discount rate, and the first matching initial bid's cost reduction, or 0 when the bidder has none |
| BidsForms.Evaluate | openprocurement/auction/esco/forms.py:99-137 | a failure always carries errors; a withdrawal needs all fields to pass and percentage -1; an amount needs all fields to pass, no withdrawal, a non-zero duration and a 'bids' stage, and is the `npv` value, which clears the threshold |
| BidsForms.FieldFailureStops | openprocurement/auction/esco/forms.py:99-100 | if any field fails, `validate` fails with exactly the field errors and no form-level message, whatever `npv` does |
| BidsForms.WithdrawalIff | openprocurement/auction/esco/forms.py:103-104 | `validate` returns -1 iff every field passes and the percentage is -1 |
| BidsForms.WithdrawalNeedsLowerBoundAtMostMinusOne | openprocurement/auction/esco/forms.py:30-35 | a withdrawal result implies the configured lower bound is at most -1 |
| BidsForms.PercentageOutOfRangeRefused | openprocurement/auction/esco/forms.py:30-35 | a percentage outside [lower bound, 1], -1 included, fails with the lower-bound message under its field |
| BidsForms.NpvNotConsultedEarly | openprocurement/auction/esco/forms.py:100-111 | after a field failure, a withdrawal or a zero duration, the outcome does not depend on `npv` |
| BidsForms.ZeroDurationRefused | openprocurement/auction/esco/forms.py:106-111 | a valid, non-withdrawal bid of 0 years and 0 days fails with only the form-level "You can't bid 0 days and 0 years", whatever the stage type |
| BidsForms.NotValidBidderRefused | openprocurement/auction/esco/forms.py:94-97 | in a 'bids' stage, a non-empty id other than the stage's bidder fails under `bidder_id` with 'Not valid bidder' twice |
| BidsForms.StageNotForBiddingRefused | openprocurement/auction/esco/forms.py:125-133 | outside a 'bids' stage the id is checked only for presence, and a bid that reaches the stage check fails with only 'Stage not for bidding' |
| BidsForms.AcceptedIff | openprocurement/auction/esco/forms.py:99-134 | `validate` returns an amount iff all fields pass, there is no withdrawal, the duration is non-zero, the stage is 'bids' and the present value clears the threshold; that amount is the `npv` value unchanged |
| BidsForms.TooLowRefused | openprocurement/auction/esco/forms.py:126-127 | a bid that passes everything but the threshold fails with only 'Amount NPV: Too low value' |
| BidsForms.ErrorsNeverMixed | openprocurement/auction/esco/forms.py:99-137 | a failure carries either field messages only or exactly one form-level message; the errors are non-empty exactly on failure |
| FormHandling.Truthy | openprocurement/auction/esco/forms.py:148 | a result is truthy iff it is not `False` and not the amount 0; a truthy result carries no errors |
| FormHandling.TotalAmount | openprocurement/auction/esco/forms.py:152 | the recorded amount of a truthy result is non-zero: -1 for a withdrawal, the present value itself for an accepted bid |
| FormHandling.Record | openprocurement/auction/esco/forms.py:150-157 | the record carries the submitted bidder, years, days and percentage, the request's time, and the non-zero total amount (-1 or the present value) |
| FormHandling.Handle | openprocurement/auction/esco/forms.py:147-179 | one record is appended iff `validate`'s result is truthy, and it is exactly `Record` of the submission and that result, for the current stage; the answer is 'ok' with the form data iff a record is appended and the percentage is non-zero, a fault iff a record is appended and the percentage is 0, else 'failed' with the form's errors |
| FormHandling.AmountRecorded | openprocurement/auction/esco/forms.py:148-157 | an accepted non-zero present value is recorded as the amount, with the submitted bidder, durations and percentage |
| FormHandling.ZeroPercentageFaultsAfterRecording | openprocurement/auction/esco/forms.py:148-171 | a truthy result with percentage 0 is an accepted amount; it is recorded, and then the handler faults instead of answering 'ok' |
| FormHandling.BidLedger.AddBid | openprocurement/auction/esco/forms.py:150-157 | `add_bid` appends exactly one record to the history |
| FormHandling.FormHandler | openprocurement/auction/esco/forms.py:140-179 | the response and the ledger's new history are those `Handle` gives |
| FormHandling.WithdrawalRecorded | openprocurement/auction/esco/forms.py:148-157 | a withdrawal that gets through is recorded with amount -1 and the submitted durations and percentage |
| FormHandling.ZeroAmountFailsWithoutErrors | openprocurement/auction/esco/forms.py:147-148 | an accepted present value of 0 is not recorded, and the answer is 'failed' with empty errors |
| FormHandling.RefusalNotRecorded | openprocurement/auction/esco/forms.py:173-179 | a refusal is never recorded and always reports non-empty errors |

## Left out

- The body of `esculator.npv`: it is a foreign library. It is a parameter, and no
  property of it is assumed. So no monotonicity of the present value in the
  percentage is stated.
- `DAYS_IN_YEAR` and `MAX_CONTRACT_DURATION`: `constants.py` is not part of this
  model. They are inputs, and only `DAYS_IN_YEAR > 0` is required. The values
  365 and 15 are used only in the worked example.
- wtforms parsing and `from_json` binding: every field is taken as present and
  already parsed. So these cases are not modelled: InputRequired on a missing
  percentage, a number that fails to parse, and a missing integer field.
  InputRequired on `bidder_id` is modelled as the empty-string case.
  InputRequired on the percentage (forms.py:79) tests the truthiness of the raw
  value, and the model treats it as always passing. If a JSON number 0 were
  passed through as the raw value, the code would report only 'Provide
  yearlyPaymentsPercentage' for that field (the stop clears the range message);
  the model reports the range check's result instead.
- Error text: messages are datatype constructors. Rendering them, and the float
  formatting of the lower bound times 100 in the percentage message, are not
  modelled.
- The minimal step is treated as exact. If the stored
  document held a float, Python would compute the standard-mode product in
  floating point.
- The lock `auction.bids_actions`: it serialises requests, and the model is
  sequential. The race between two requests is therefore not modelled. Neither
  is any update of a stage's leading amount, which happens outside this code.
- The database read and `add_bid` persistence: the document is an input, and
  `add_bid` is an append to the ledger's list.
- The timestamp: it is an input string. The `float(...)` conversion of the
  percentage in the record is not modelled; the exact value is recorded.
- The text of the `app.logger` calls and the session's `client_id`: they are
  logging only. The one log line that changes the outcome, the `KeyError` of the
  placed-bid branch (forms.py:167-170), is modelled as the `Fault` response; the
  HTTP error response that follows it is not modelled.
- `validate_value` (forms.py:23-27): no field of the form uses it.
- Python exceptions other than the validation ones: `WellFormed` excludes them.
  These are an index outside `stages`, a missing coefficient in features mode,
  and a division by a zero `DAYS_IN_YEAR`.
