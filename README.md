# koa-form in Dafny

koa-form is a two-step web form that simulates a term deposit (a CDT). The
first step collects name, e-mail and phone. The second step collects the
amount, the term in months, the payout frequency, and whether an advisor is
helping, with a dialog that asks for the advisor's code. The form then shows
the projected returns. This project models that logic and proves what it
promises.

The logic is split into six modules, one per source file, plus one module
of JavaScript built-ins:

- `JsText` (`JsText.dfy`) holds the JavaScript string built-ins the form
  relies on, defined on `string`:
  - the `\s` and `\d` classes;
  - removing a character class with `replace`;
  - `trim`, `split`, `join` and `padStart`;
  - `String(n)`, and `parseInt` without a radix, where NaN is `None`.
- `SimulationResults` covers the results view:
  - the annual rate, looked up by term;
  - the gross returns, the 4 % retention, the net returns and the total;
  - the month label and the end-month text.

  The arithmetic uses exact `real` values.
- `PersonalInfoStep` covers the first step: the personal record, its
  per-field edits, the e-mail pattern, and the submit guard.
- `SimulationStep` covers the second step:
  - the simulation record and its field edits;
  - the submit guard;
  - the advisor dialog, whose state lives in class `AdvisorDialog`.

  What a handler passes to the parent (`onDataChange`, `onSubmit`) and
  any alert it shows come back as a list of `Effect`s.
- `NumberInput` covers the numeric input: `formatNumber` as a function,
  and the input's `value` state as class `NumberInput`.
- `SimulationForm` covers the wizard:
  - the step machine, in class `Wizard`;
  - the merge of the two records that the optional `onSubmit` receives;
  - the step-to-view dispatch;
  - the runs of handlers that the views make possible.
- `IndexPage` covers the page: the stored record and the results toggle,
  in class `Index`, and what the page renders.

Some behaviours of the code that are easy to miss, and that the model
keeps:

- A 5-month term falls in the 4-6 month band, so its rate is 0.093
  (koa-form/src/components/SimulationResults.tsx:22-27). So 10,000,000
  over 5 months gives:
  - gross 387,500;
  - retention 15,500;
  - net 372,000;
  - total 10,372,000.
- Closing the advisor dialog only sets `showAdvisorModal` to false.
  `hasAdvisor` keeps the value "si".
- `handleAdvisorSubmit` does not re-check amount, term or frequency.
- With `showResults` set and no stored record, the page renders nothing
  (koa-form/src/pages/index.tsx:63). The handlers never reach that state
  (`Index.Valid`).

## Model

| member | source | states |
|---|---|---|
| JsText.Filter | koa-form/src/components/ui/number-input.tsx:16 | Removing a character class keeps only accepted characters. Each keeps its multiplicity, and the result is never longer. |
| JsText.FilterCons | koa-form/src/components/ui/number-input.tsx:16 | The first character is kept or dropped and the rest is filtered after it; with `FilterAppend`, the kept characters stay in their order. |
| JsText.DigitsOnly | koa-form/src/components/ui/number-input.tsx:34 | Stripping non-digits leaves only digits, each digit as often as in the input. |
| JsText.DigitsOnlyIdempotent | koa-form/src/components/steps/SimulationStep.tsx:93 | Stripping non-digits twice equals stripping once, and leaves a digit string unchanged. |
| JsText.TrimStart | koa-form/src/components/steps/SimulationStep.tsx:45 | The result is a suffix of the input. Only whitespace was dropped, and it does not start with whitespace. |
| JsText.TrimEnd | koa-form/src/components/steps/SimulationStep.tsx:45 | The result is a prefix of the input. Only whitespace was dropped, and it does not end with whitespace. |
| JsText.Trim | koa-form/src/components/steps/SimulationStep.tsx:45 | `trim()` never lengthens the text, and a non-empty result neither starts nor ends with whitespace. `TrimStart`, `TrimEnd` and `TrimEmptyIffBlank` characterise it. |
| JsText.TrimEmptyIffBlank | koa-form/src/components/steps/SimulationStep.tsx:45 | A trimmed text is empty exactly when every character is whitespace. |
| JsText.Split | koa-form/src/components/ui/number-input.tsx:19 | There is at least one piece, no piece holds the separator, and joining the pieces gives the text back. |
| JsText.SplitJoin | koa-form/src/components/ui/number-input.tsx:19 | Splitting undoes a join of separator-free pieces. |
| JsText.FilterJoin | koa-form/src/components/ui/number-input.tsx:22 | Deleting the separators from a join leaves the pieces concatenated. |
| JsText.JoinEnds | koa-form/src/components/ui/number-input.tsx:22 | A join of non-empty pieces starts and ends with a character of a piece. |
| JsText.PadStart | koa-form/src/components/SimulationResults.tsx:87 | The result has the target length or more and ends with the input. Everything before the input is fill. |
| JsText.NatToString | koa-form/src/components/SimulationResults.tsx:87 | `String(n)` is a non-empty digit string with no leading zero unless n is 0. |
| JsText.IntToString | koa-form/src/components/SimulationResults.tsx:87 | `String(n)` is never empty: a `-` before the digits of a negative number, else the digits. `ParseIntOfIntToString` reads it back. |
| JsText.ValueOfNatToString | koa-form/src/components/SimulationResults.tsx:87 | The decimal value of `String(n)` is n. |
| JsText.DigitPrefix | koa-form/src/pages/index.tsx:65-66 | The result is the longest prefix of digits of the radix. |
| JsText.ParseInt | koa-form/src/pages/index.tsx:65-66 | `parseInt` without a radix: leading whitespace skipped, an optional sign, a `0x` prefix switching to radix 16, then the longest digit prefix, NaN when it is empty. `ParseIntOfIntToString` and `ParseIntOfDigits` characterise it. |
| JsText.ParseIntOfIntToString | koa-form/src/pages/index.tsx:65-66 | `parseInt` reads back `String(n)` when a non-digit (other than x) follows it. |
| JsText.ParseIntOfDigits | koa-form/src/pages/index.tsx:65-67 | `parseInt` of a non-empty digit string is its decimal value. For the empty string it is NaN. |
| SimulationResults.AnnualRate | koa-form/src/components/SimulationResults.tsx:22-27 | `getAnnualRate`: the rate lies between 0.085 and 0.098. `AnnualRateBands`, `AnnualRateTabulated` and `AnnualRateMonotonic` characterise it. |
| SimulationResults.AnnualRateBands | koa-form/src/components/SimulationResults.tsx:22-27 | The bands are ≤3 → 0.085, 4-6 → 0.093, 7-12 → 0.096, ≥13 → 0.098. Upper bounds are inclusive. |
| SimulationResults.AnnualRateTabulated | koa-form/src/components/SimulationResults.tsx:22-27 | The rate is one of the four constants, between 0.085 and 0.098. |
| SimulationResults.AnnualRateMonotonic | koa-form/src/components/SimulationResults.tsx:22-27 | A longer term never gets a lower rate. |
| SimulationResults.Project | koa-form/src/components/SimulationResults.tsx:29-33 | gross·12 = investment·rate·term, retention = 0.04·gross, net = 0.96·gross, and total = investment + net. |
| SimulationResults.TotalCoversInvestment | koa-form/src/components/SimulationResults.tsx:30-33 | With a non-negative investment and term, gross ≥ 0, net ≤ gross and total ≥ investment. With both positive, total > investment. |
| SimulationResults.DefaultSimulation | koa-form/src/components/SimulationResults.tsx:22-33 | 10,000,000 over 5 months gives rate 0.093, gross 387,500, retention 15,500, net 372,000 and total 10,372,000. |
| SimulationResults.SmallestOneMonthSimulation | koa-form/src/components/SimulationResults.tsx:22-33 | 500,000 over 1 month gives gross 42,500/12, net 3,400 and total 503,400. |
| SimulationResults.MonthLabel | koa-form/src/components/SimulationResults.tsx:84 | The label is "Mes" exactly when the term is 1 and "Meses" exactly when it is not. |
| SimulationResults.TermText | koa-form/src/components/SimulationResults.tsx:84 | The term, a space and the month label. `TermTextStartsWithTerm` characterises it. |
| SimulationResults.TermTextStartsWithTerm | koa-form/src/components/SimulationResults.tsx:84 | The term text reads back, through `parseInt`, as the term. |
| SimulationResults.JsRemainder | koa-form/src/components/SimulationResults.tsx:87 | JS `%` agrees with the Euclidean remainder on non-negative dividends, is never positive for a negative dividend, and has magnitude below the divisor. |
| SimulationResults.JsRemainderNegates | koa-form/src/components/SimulationResults.tsx:87 | Negating the dividend negates the remainder, as truncating division does. |
| SimulationResults.EndMonth | koa-form/src/components/SimulationResults.tsx:87 | `((getMonth() + term) % 12) + 1` lies in -10..12, and in 1..12 when the sum is non-negative. `EndMonthIsCalendarMonth` and `EndMonthOfNegativeTerm` characterise it. |
| SimulationResults.EndMonthText | koa-form/src/components/SimulationResults.tsx:87 | The month text is padded to at least two characters. `EndMonthIsCalendarMonth` gives its digits. |
| SimulationResults.EndMonthIsCalendarMonth | koa-form/src/components/SimulationResults.tsx:87 | For month 0..11 and term ≥ 0, the end month is the 1-based calendar month `term` months on. Its text is two digits that read back as that month. |
| SimulationResults.EndMonthOfNegativeTerm | koa-form/src/components/SimulationResults.tsx:87 | A negative term can give end month 0, outside 1..12. |
| PersonalInfoStep.Edit | koa-form/src/components/steps/PersonalInfoStep.tsx:58-87 | A field edit sets that field to the typed text and leaves the other two unchanged. |
| PersonalInfoStep.MatchesEmailPattern | koa-form/src/components/steps/PersonalInfoStep.tsx:26 | `emailRegex.test`: a match has at least five characters. `EmailPatternIffShape` characterises it in both directions. |
| PersonalInfoStep.EmailPatternIffShape | koa-form/src/components/steps/PersonalInfoStep.tsx:26 | The e-mail pattern matches exactly these texts: no whitespace, exactly one `@`, a non-empty local part, and a `.` strictly inside the domain. |
| PersonalInfoStep.ShapeOfMatch | koa-form/src/components/steps/PersonalInfoStep.tsx:26 | A text the pattern matches has that shape. |
| PersonalInfoStep.MatchOfShape | koa-form/src/components/steps/PersonalInfoStep.tsx:26 | A text of that shape is matched by the pattern. |
| PersonalInfoStep.EmailCharsOutsideAt | koa-form/src/components/steps/PersonalInfoStep.tsx:26 | In a match, every character other than the chosen `@` is neither whitespace nor `@`. |
| PersonalInfoStep.HandleSubmit | koa-form/src/components/steps/PersonalInfoStep.tsx:20-33 | The step advances exactly when all three fields are non-empty and the e-mail matches. The missing-fields alert appears exactly when a field is empty. Otherwise the e-mail alert appears. |
| PersonalInfoStep.BlankNameIsPresent | koa-form/src/components/steps/PersonalInfoStep.tsx:21 | The presence check is emptiness only: a name of spaces passes. |
| PersonalInfoStep.DomainWithoutInnerDotRejected | koa-form/src/components/steps/PersonalInfoStep.tsx:26-30 | An e-mail whose domain has no `.` strictly inside it is refused. |
| PersonalInfoStep.SecondAtRejected | koa-form/src/components/steps/PersonalInfoStep.tsx:26-30 | An e-mail with two `@` is refused. |
| PersonalInfoStep.WhitespaceRejected | koa-form/src/components/steps/PersonalInfoStep.tsx:26-30 | An e-mail with whitespace anywhere is refused. |
| NumberInput.Clean | koa-form/src/components/ui/number-input.tsx:16 | The cleaned text holds only digits and `.`, each as often as in the input. |
| NumberInput.InsertSeparators | koa-form/src/components/ui/number-input.tsx:22 | Replacing in a digit string leaves only digits and `.`. |
| NumberInput.GroupThousands | koa-form/src/components/ui/number-input.tsx:22 | The integer part's `replace(/\B(?=(\d{3})+(?!\d))/g, ".")`: for digits, only digits and `.`. `SeparatorAtDigits`, `GroupThousandsJoinsChunks` and `GroupThousandsShape` characterise it. |
| NumberInput.SeparatorAtDigits | koa-form/src/components/ui/number-input.tsx:22 | In a digit string, the grouping pattern matches at p exactly when 1 ≤ p < len and (len − p) % 3 = 0. |
| NumberInput.Chunks | koa-form/src/components/ui/number-input.tsx:22 | Groups from the right: the first holds 1-3 digits and every other exactly 3. Together they concatenate to the digits. |
| NumberInput.NoSeparatorsLeft | koa-form/src/components/ui/number-input.tsx:22 | After the last possible separator position, the replacement copies the text. |
| NumberInput.SeparatorsBeforeLastGroup | koa-form/src/components/ui/number-input.tsx:22 | For more than three digits, the replacement is that of the digits before the last three, then `.`, then those three. |
| NumberInput.GroupThousandsJoinsChunks | koa-form/src/components/ui/number-input.tsx:22 | The regex replacement equals joining the groups with `.`. |
| NumberInput.GroupThousandsShape | koa-form/src/components/ui/number-input.tsx:22 | Splitting the grouped text at `.` gives the groups. Deleting the `.` gives the digits back. There is no leading or trailing separator. |
| NumberInput.FormatNumber | koa-form/src/components/ui/number-input.tsx:14-26 | `formatNumber`: clean, split at `.`, group the first piece, and append `,` and the second piece when there is one. `FormatWithoutDot`, `FormatWithDot` and `FormatDigits` characterise it. |
| NumberInput.FormatWithoutDot | koa-form/src/components/ui/number-input.tsx:19-25 | With no `.` after cleaning, the result is the grouped digits and holds no `,`. |
| NumberInput.FormatWithDot | koa-form/src/components/ui/number-input.tsx:19-25 | With a `.` after cleaning: the grouped digits before the first `.`, then `,`, then the text up to the next `.`; the rest is dropped. |
| NumberInput.FormatDigits | koa-form/src/components/ui/number-input.tsx:14-34 | A digit-only text is shown as its groups, and stripping the display to digits gives it back. |
| NumberInput.NumberInput.constructor | koa-form/src/components/ui/number-input.tsx:12 | The shown value starts as the prop's text. |
| NumberInput.NumberInput.HandleChange | koa-form/src/components/ui/number-input.tsx:28-41 | The shown value becomes the formatted typed text. The typed text with non-digits removed, all digits, is forwarded exactly when `onChange` is present. |
| NumberInput.NumberInput.SyncValue | koa-form/src/components/ui/number-input.tsx:43-47 | A non-empty prop replaces the shown value with its formatting; an empty one leaves it. |
| SimulationStep.AmountEdited | koa-form/src/components/steps/SimulationStep.tsx:92-95 | The stored amount is the typed text's digits, every digit kept, and all other fields are unchanged. |
| SimulationStep.AmountEditIdempotent | koa-form/src/components/steps/SimulationStep.tsx:93-94 | Re-entering the stored amount changes nothing. |
| SimulationStep.TermSelected | koa-form/src/components/steps/SimulationStep.tsx:110 | The term is the selected value, and all other fields are unchanged. |
| SimulationStep.FrequencySelected | koa-form/src/components/steps/SimulationStep.tsx:134 | The frequency is the selected value, and all other fields are unchanged. |
| SimulationStep.SubmitEffects | koa-form/src/components/steps/SimulationStep.tsx:30-42 | At most one effect. `onSubmit` fires exactly when the required fields are present and no advisor code is pending. The alert appears exactly when a required field is empty. |
| SimulationStep.AdvisorConfirmEffects | koa-form/src/components/steps/SimulationStep.tsx:44-52 | It submits exactly when the code has a non-whitespace character, emitting first the record with the untrimmed code and all else unchanged, then `onSubmit`. Otherwise only the alert appears. |
| SimulationStep.AdvisorChangeEffects | koa-form/src/components/steps/SimulationStep.tsx:54-59 | The only effect is the record with the new option and all else unchanged. |
| SimulationStep.ConfirmedCodeSubmits | koa-form/src/components/steps/SimulationStep.tsx:36-51 | After a confirmed code, submitting the emitted record goes through when the required fields are present. |
| SimulationStep.DeclinedAdvisorSubmits | koa-form/src/components/steps/SimulationStep.tsx:36-59 | After choosing "no", submitting with the required fields present goes through. |
| SimulationStep.AdvisorDialog.constructor | koa-form/src/components/steps/SimulationStep.tsx:27-28 | The dialog starts closed with an empty code. |
| SimulationStep.AdvisorDialog.HandleSubmit | koa-form/src/components/steps/SimulationStep.tsx:30-42 | The effects are the submit effects. The dialog opens exactly when the code is still needed; otherwise the state is unchanged. |
| SimulationStep.AdvisorDialog.HandleAdvisorSubmit | koa-form/src/components/steps/SimulationStep.tsx:44-52 | The effects are the confirm effects. A non-blank code closes the dialog; a blank one leaves it as it was. |
| SimulationStep.AdvisorDialog.HandleAdvisorChange | koa-form/src/components/steps/SimulationStep.tsx:54-59 | The effects are the change effects. "si" opens the dialog; other options leave it. |
| SimulationStep.AdvisorDialog.SetAdvisorCode | koa-form/src/components/steps/SimulationStep.tsx:207 | The code becomes the typed text; the dialog flag is unchanged. |
| SimulationStep.AdvisorDialog.HandleOpenChange | koa-form/src/components/steps/SimulationStep.tsx:187 | Only the open flag changes. The code and the record (so `hasAdvisor`) are untouched. |
| SimulationForm.Merge | koa-form/src/components/SimulationForm.tsx:48-52 | As objects, the merge is the personal fields overwritten by the simulation fields. Both records read back unchanged. |
| SimulationForm.MergeKeys | koa-form/src/components/SimulationForm.tsx:49-52 | The merge's keys are both records' keys. Simulation values win, and personal values survive where the simulation record lacks the key. |
| SimulationForm.ViewOf | koa-form/src/components/SimulationForm.tsx:84-113 | Step 1 renders the personal step, step 2 the simulation step, and anything else the results. The results get `parseInt` of amount and term. |
| SimulationForm.WiredStep | koa-form/src/components/SimulationForm.tsx:40-113 | Each handler the current view offers moves to a neighbouring step in 1..3. Step 3 is entered only by the final submit from step 2. |
| SimulationForm.WiredRunSteps | koa-form/src/components/SimulationForm.tsx:40-113 | Along any run of offered handlers from a step in 1..3: every step stays in 1..3, moves go to neighbours only (never 1 to 3), and every entry into 3 is a final submit from 2. |
| SimulationForm.ResultsReadDigits | koa-form/src/components/SimulationForm.tsx:105-109 | For digit-only amount and term, the results get their decimal values, or NaN when empty. |
| SimulationForm.InitialResults | koa-form/src/components/SimulationForm.tsx:33-38 | The default record's results read 10,000,000 over 5 months, "mensual", with total 10,372,000. |
| SimulationForm.Wizard.constructor | koa-form/src/components/SimulationForm.tsx:27-38 | It starts at step 1, with empty personal fields, the default simulation record and nothing submitted. |
| SimulationForm.Wizard.HandlePersonalInfoNext | koa-form/src/components/SimulationForm.tsx:40-42 | The step becomes 2; nothing else changes. |
| SimulationForm.Wizard.HandleSimulationBack | koa-form/src/components/SimulationForm.tsx:44-46 | The step becomes 1; both records are unchanged. |
| SimulationForm.Wizard.HandleFinalSubmit | koa-form/src/components/SimulationForm.tsx:48-59 | Exactly one merged record goes to `onSubmit` when it is present, none when absent. The step becomes 3, and the records are unchanged. |
| SimulationForm.Wizard.HandleResultsBack | koa-form/src/components/SimulationForm.tsx:61-63 | The step becomes 2; the records are unchanged. |
| SimulationForm.Wizard.SetPersonalInfo | koa-form/src/components/SimulationForm.tsx:88 | Only the personal record changes. |
| SimulationForm.Wizard.SetSimulationData | koa-form/src/components/SimulationForm.tsx:98 | Only the simulation record changes. |
| IndexPage.PageViewOf | koa-form/src/pages/index.tsx:60-72 | The form shows exactly when results are hidden. The results show exactly when they are requested and a record is stored, with `parseInt` of its amount and term. Otherwise nothing shows. |
| IndexPage.PageResultsMatchWizardResults | koa-form/src/pages/index.tsx:63-67 | The page's results for a merged record equal the wizard's own results for the same two records. |
| IndexPage.Index.constructor | koa-form/src/pages/index.tsx:19-20 | It starts with no record and results hidden. |
| IndexPage.Index.HandleSimulation | koa-form/src/pages/index.tsx:22-24 | It stores the record and shows its results. |
| IndexPage.Index.HandleBack | koa-form/src/pages/index.tsx:33-35 | It hides the results, keeps the record and shows the form. |
| IndexPage.Index.CurrentView | koa-form/src/pages/index.tsx:60-72 | In a reachable state the view is never the empty branch. |

## Left out

- Floating point: amounts and rates are exact rationals. The view's doubles, their rounding and `NaN` arithmetic inside the projection are not modelled. `SimulationResults.Project` takes integers, so a NaN investment is outside it.
- `parseInt` precision: values are unbounded integers. Digit strings longer than doubles hold exactly are read exactly.
- Currency and percentage formatting: the `Intl.NumberFormat` calls and `toFixed` are locale library calls. This covers the amount display of the simulation step (`formatCurrency`, which `parseInt`s the digits before formatting).
- Share, clipboard, `alert` and `toast`: browser I/O. Alerts appear only as the message a handler would show.
- Rendering, widgets and styling.
- React update ordering: effect lists are given in order, but how React applies them is not modelled. That covers batching, and a handler reading a record from before its own `onDataChange`. So no claim is made that the wizard's merged record carries the advisor code confirmed in the same click.
- The page's unmounting and remounting of the wizard, which resets the wizard's state.
- The simulation step's own lifetime. The wizard renders it only at step 2 (koa-form/src/components/SimulationForm.tsx:94-103), so leaving step 2 discards its `showAdvisorModal` and `advisorCode`, and re-entering starts them closed and empty. `SimulationForm.Wizard` owns no `AdvisorDialog`, so the model does not say that after a confirmed code "ABC", going to the results, back and submitting again re-opens the dialog although the record holds "ABC".
- `NumberInput.NumberInput.constructor`: the `value` prop is taken as text. A numeric prop, and the falsy number 0 turning into "", are not modelled.
- `NumberInput.NumberInput.SyncValue`: "truthy prop" is read as "non-empty text". The rerun-only-on-change rule of the effect's dependency list is not modelled; the method is the effect's body.
- The prop spread after `value` and `onChange` in the numeric input. No claim is made about which handler the rendered input uses.
- The current date: the month is a parameter. The fixed date strings around it are display text.
- The 500,000-500,000,000 amount range and the 1-24 month text: display text only, never enforced.
