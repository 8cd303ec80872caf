# Results-Client: semester lookup logic

A model of the client side of the college results page (`src/App.tsx`): the
translator from the form's semester number to the service's semester label,
the submit handler that refuses an incomplete form, and the lookup lifecycle
that clears the page, sends one request, and turns the service's answer into
one of three outcomes (transport failure, results not yet released, a
populated table with SGPA and CGPA).

The page's React state hooks become one immutable record, `Session.State`
(`regdNo`, `semester`, `results`, `cgpa`, `sgpa`, `loading`, `error`), and each
handler becomes a pure function from state to state. The network is not
modelled: what `fetch` and `response.json()` deliver is an input value,
`Session.Response`:

- `Rejected(message)`: `fetch` rejected or the body was not JSON; the page shows the error's message;
- `NotOk`: a non-2xx status; the page shows "Failed to fetch results";
- `Ok(data)`: a parsed body; `None` is a falsy body such as `null`. `Data` has a `subjects` field (`Absent` for missing or `null`, or `Arr(items)`) and optional `cgpa` and `sgpa` strings.

JavaScript's `||` is modelled in `Js.Or`. The empty string is falsy, so
`cgpa: ""` is shown as "N/A". A body with no `subjects` field takes the
populated path, not the "not yet released" one: its table is empty, and a
missing or empty SGPA/CGPA falls back to "N/A". A lookup does not reset SGPA and CGPA when it
starts, so a failed lookup keeps the previous values. The page does not show
them, because there is no table.

Modules:

- `Wrappers`: `Option`.
- `Js`: truthiness and `||`.
- `Semester`: the translator, with an independent Roman-numeral definition to check its table against.
- `Session`: the state, the response, and the steps `Start`, `Settle`, `HandleSubmit` and `Lookup`.
- `Trace`: sessions as sequences of user events, with the invariants every reachable state keeps.

## Model

| member | source | states |
|---|---|---|
| Semester.ConvertSemester | src/App.tsx:18-30 | A code yields a non-empty label exactly when it is one digit from 1 to 8; that label is "Semester-" followed by the code's Roman numeral; every other input, the empty string included, yields "" and never fails |
| Semester.TableKeys | src/App.tsx:19-28 | The lookup table's keys are exactly the eight one-digit codes, and each maps to "Semester-" plus its Roman numeral |
| Semester.ConvertSemesterInjective | src/App.tsx:19-28 | Two codes with the same non-empty label are the same code, so the label the service receives determines the semester |
| Semester.RomanRoundTrip | src/App.tsx:20-27 | The numeral in each label, read back by the subtractive rule, is the semester number of its key; this is what makes the labels distinct |
| Semester.SelectOptionsTranslate | src/App.tsx:118-126 | Of the select's options, only the placeholder "" translates to the empty label |
| Js.Or | src/App.tsx:67-68 | The JavaScript or-operator on a string-or-undefined value gives either the fallback or the value itself, a truthy value is kept, and a non-empty fallback never gives "" |
| Session.Start | src/App.tsx:33-35 | Starting a lookup turns loading on, clears the error and the table to null, and leaves SGPA, CGPA and the form fields untouched |
| Session.Settle | src/App.tsx:51-73 | Every outcome turns loading off. A non-ok status sets "Failed to fetch results" and a rejected promise sets its message, with table and SGPA/CGPA kept. A falsy body or an empty subjects array gives an empty table and "Results Not Yet Released" twice. Otherwise the subjects are copied verbatim, or [] when missing, and a missing or empty SGPA/CGPA becomes "N/A". Any response leaves the error as it was |
| Session.HandleSubmit | src/App.tsx:76-83 | A submission is refused exactly when the registration number or semester is empty; then only the error changes, to "Please fill in all fields", and no request is sent. Otherwise the lookup starts and sends the registration number with the translated semester |
| Session.Lookup | src/App.tsx:32-83 | A whole submission: an incomplete form only sets the validation message. A failed lookup leaves no table (null, not empty) and the previous SGPA/CGPA. A response leaves no error, a table and two non-empty summaries. Loading is off after every lookup |
| Session.LookupForgetsPriorResult | src/App.tsx:33-68 | A lookup that receives a response ends in the same state whatever table, summaries or error were shown before |
| Session.ExampleLookups | src/App.tsx:18-83 | For registration number 21A91A0501 and semester 3, the request names "Semester-III". A populated response is shown verbatim, an empty subjects array gives the not-released sentinels, and a non-ok status leaves only the failure message |
| Trace.StepPreservesConsistent | src/App.tsx:76-83 | Typing, choosing a semester or submitting keeps the session consistent: nothing pending, a table only with non-empty SGPA and CGPA, and a table beside an error only when it is the validation message |
| Trace.RunPreservesConsistent | src/App.tsx:32-83 | Any sequence of events from a consistent state ends in a consistent state |
| Trace.ReachableConsistent | src/App.tsx:9-15 | Every state reached from `Session.Init`, the hooks' initial values, is consistent |
| Trace.RequestsAreWellFormed | src/App.tsx:38-48 | When the semester is only chosen through the select, every request sent has a non-empty registration number and names one of the eight semester labels |

## Left out

- The `fetch` call itself, its URL, method and headers, and JSON parsing: a lookup receives its response as a parameter.
- The superseded-request race. If the form is submitted again while a lookup is pending, the older lookup still writes its outcome when it settles. `Trace` lets each submission settle before the next event.
- React's scheduling and batching of state updates: each update applies in program order.
- The rendering, the CSS classes and the button label. The `onChange` handlers of the two inputs appear only as the `EnterRegdNo` and `ChooseSemester` events.
- Semester.ConvertSemester: treats the lookup table as holding only its own eight keys. In JavaScript, inherited `Object.prototype` names such as "constructor" or "toString" return a non-string value instead of "". The select never offers such a value.
- Session.Settle: response fields are typed as in the source's declarations: `subjects` is an array of subject records or missing, and `cgpa`/`sgpa` are strings or missing. Other JSON shapes, such as a numeric `cgpa` or a non-array `subjects`, are not modelled.
- Browser form validation: both fields are marked `required`, so a browser blocks an incomplete form before the submit handler runs. The refusal branch, and the state with a table beside the validation message, are reachable only when the form is submitted from code. `Trace` covers these states as well.
- Recent-search caching, local persistence, GPA banding, performance trends and the full-history endpoint: `src/App.tsx` has none of them.
