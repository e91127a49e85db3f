# add-calc: the adding calculator, modelled in Dafny

The add-calc page (`AddCalc` in src/Pages/Add.js) is a keypad calculator.
It edits a current input (`input`, with a sign flag `minus`) and an equation
(`inputs`). `+` commits the input as a term, and negative terms are written
as `(-t)`. `=` shows a single term directly. With two or more terms, `=`
opens a menu of three server methods instead:

- a GET with the first two operands as path segments;
- a GET with a query string;
- a POST of form fields.

The query and form methods key each operand by a fresh random two-letter
identifier. The server's answer is shown as `equation=result`. A failure
keeps the equation and shows "Something went wrong".

The model has five modules:

- `JsString` (js_string.dfy): the JavaScript built-ins the code relies on.
  - `split` on one character, with `join` as its inverse.
  - `substring`, with its clamping and swapping of indices.
- `Globals` (globals.dfy): the helpers of src/Globals.js.
  - `trim`, modelled as the regular expression it builds. `[^]` matches every character, so `trim(s, '^')` is `""`.
  - `countOccurrence`.
  - `nextInt` and `nextId`. A draw of `Math.random()` is a real in `[0, 1)`, so these are functions of the draws.
- `AddTerms` (terms.dfy): the pure string logic of the page.
  - The shape of the current input, `trimInput` and `actualInput`.
  - The equation as a sequence of committed terms (`Term`, `EquationOf`), and the string `onPlusPressed` appends (`AppendTerm`).
- `AddRequests` (requests.dfy): the request `onLinkChose` shapes.
  - The operand split, modelled as a method with the in-place rewriting loop of the source.
  - The path of method 1.
  - The identifier loops of methods 2 and 3, modelled as methods over the sequence of identifiers `nextId()` returns. They are proved against `Dedup`, the first occurrence of each identifier drawn.
- `AddPage` (add_page.dfy): the class `AddCalc`.
  - One field per piece of component state. `menuOpen` stands for `anchorEl` being set.
  - One method per handler.
  - The ghost field `terms` holds the terms committed since the last reset.
  - `Valid()` is the invariant every handler keeps:
    - the input is well formed (digits, at most one `.`, no leading `0` before a digit);
    - a shown result has the input `"0"`;
    - outside result state there is no error message and `inputs` is exactly the equation of `terms`.

`AddScenarios` (scenarios.dfy) states what key sequences on a fresh page lead to, by the handlers' contracts.

## Model

| member | source | states |
|---|---|---|
| JsString.Split | src/Globals.js:22 | `split` yields at least one piece, and no piece holds the separator |
| JsString.SplitCount | src/Globals.js:22-23 | `split` yields one more piece than there are separators in the string |
| JsString.JoinSplit | src/Pages/Add.js:273 | joining the pieces of a split with the separator gives back the string |
| JsString.SplitJoin | src/Pages/Add.js:273 | splitting a join of pieces that hold no separator gives back the pieces |
| JsString.SplitAppend | src/Pages/Add.js:273 | splitting at one separator splits the two sides independently |
| JsString.Substring | src/Pages/Add.js:276 | with indices in order and in range, `substring` is the slice between them; the result is never longer than the string |
| Globals.TrimRun | src/Globals.js:10-12 | the result is a prefix of `s`, only `c`s follow it in `s`, and it does not end with `c` |
| Globals.Trim | src/Globals.js:7-13 | `trim(s, c)` strips the maximal trailing run of `c`; for `c = '^'` the class `[^]` matches everything and the result is empty |
| Globals.TrimUnique | src/Globals.js:7-13 | exactly one prefix has that trailing-run description, so the trim result is determined by it |
| Globals.TrimUntrailed | src/Globals.js:7-13 | a string that does not end with `c` is returned unchanged |
| Globals.TrimIdempotent | src/Globals.js:7-13 | trimming twice gives the same as trimming once |
| Globals.TrimDocExample | src/Globals.js:2 | `trim("++c++", '+') == "++c"` |
| Globals.TrimKeepsOtherCharacters | src/Globals.js:8-12 | every character other than `c` keeps its number of occurrences, `]` and `\` included |
| Globals.CountOccurrence | src/Globals.js:21-24 | the split-length count equals the multiplicity of the character in the string |
| Globals.CountOccurrenceIndices | src/Globals.js:21-24 | the count equals the number of indices holding the character |
| Globals.NextInt | src/Globals.js:26-28 | for a draw in `[0, 1)` and `min <= max`, the result lies in `[min, max]` |
| Globals.Base36Digit | src/Globals.js:31 | a digit below 36 is written as a character whose digit value is that number: `0`-`9` below 10, a lower-case letter from 10 on |
| Globals.ToBase36 | src/Globals.js:31 | `toString(36)` writes a nonempty string of digits and lower-case letters; a number in `[10, 35]`, which is what `nextInt()` returns, is one lower-case letter |
| Globals.Base36RoundTrip | src/Globals.js:31 | reading back the base-36 rendering of `n` gives `n` |
| Globals.NextId | src/Globals.js:30-32 | the identifier is two lower-case letters, and each reads back in base 36 as the corresponding `nextInt(10, 35)` |
| AddTerms.TrimInput | src/Pages/Add.js:175-183 | `trimInput` never lengthens its argument, and an argument without `.` comes back unchanged (the full description is `TrimInputPrefix` and `TrimInputKeepsValue`) |
| AddTerms.TrimInputPrefix | src/Pages/Add.js:175-183 | `trimInput` returns a prefix that does not end in `.`; only `0`s and `.`s are cut; an input without `.` comes back unchanged |
| AddTerms.TrimInputKeepsValue | src/Pages/Add.js:175-183 | on a well-formed input, only zeros after a `.` and then that `.` are cut, and nothing is cut without a `.`; the result is canonical, so a remaining `.` is not followed by a final `0` |
| AddTerms.TrimInputFixpoint | src/Pages/Add.js:175-183 | a canonical number is returned unchanged, so trimming twice changes nothing |
| AddTerms.TrimInputExamples | src/Pages/Add.js:175-183 | `"3.50"` gives `"3.5"`, `"3.00"` gives `"3"`, `"3."` gives `"3"`, and `"3"` gives `"3"` |
| AddTerms.ActualInput | src/Pages/Add.js:226-230 | `actualInput` writes exactly the term of the input, `Render(TermOf(input, minus))`, the same term `+` commits |
| AddTerms.ActualInputTerm | src/Pages/Add.js:226-230 | `actualInput` is `(-t)` exactly when `minus` is set and the trimmed `t` is not `"0"`, and `t` otherwise; on a well-formed input the term is valid |
| AddTerms.RenderAlphabet | src/Pages/Add.js:229 | a written term is nonempty and holds neither `+` nor `=` |
| AddTerms.CommittedShape | src/Pages/Add.js:193 | an equation of committed terms holds one `+` per term, ends with `+`, and holds no `=` |
| AddTerms.EquationCount | src/Pages/Add.js:193 | the `+` count of the equation `inputs` equals the number of committed terms, and is 0 for the initial `"0"` |
| AddTerms.AppendTerm | src/Pages/Add.js:193 | the equation written by `+` ends with `+`, and any equation other than the initial `"0"` is kept in front of the new term |
| AddTerms.AppendTermCommits | src/Pages/Add.js:188-197 | appending to the equation of some terms (dropping the initial `"0"`) gives the equation of those terms plus the input's term |
| AddTerms.AppendTermValid | src/Pages/Add.js:190-193 | the term `+` commits from a well-formed input is valid |
| AddTerms.AppendTermCounts | src/Pages/Add.js:188-197 | outside result state, after `+` the equation ends with `+` and its `+` count has risen by one |
| AddTerms.AppendTermOnReset | src/Pages/Add.js:189-193 | on a fresh equation with input `"0"`, `+` writes `"0+"` |
| AddTerms.CommitExamples | src/Pages/Add.js:188-197 | `5` with minus commits `(-5)+`, `0` with minus commits `0+` without sign, and `2` commits `2+` |
| AddRequests.OperandsOf | src/Pages/Add.js:273-278 | there is one operand per piece of the split equation |
| AddRequests.SplitOperands | src/Pages/Add.js:273-278 | the in-place loop leaves each piece with its parentheses stripped, that is, the operands |
| AddRequests.CommittedJoin | src/Pages/Add.js:272 | the equation followed by the current term is the written terms joined by `+` |
| AddRequests.SplitEquation | src/Pages/Add.js:272-273 | splitting that string on `+` gives back each written term, in order |
| AddRequests.EquationPieces | src/Pages/Add.js:272-273 | the pieces of `inputs + actualInput(input)` are the committed terms and the input's term, all valid |
| AddRequests.Unwrap | src/Pages/Add.js:275-277 | a piece without `(` is kept; a piece with `(` loses its first and last characters; the operand is never longer than the piece |
| AddRequests.UnwrapRender | src/Pages/Add.js:275-277 | stripping the parentheses of a written term leaves its signed value, `-t` for `(-t)` |
| AddRequests.EquationOperands | src/Pages/Add.js:272-278 | the operands are the committed signed values in order and then the input's, and there are `countOccurrence(inputs, '+') + 1` of them |
| AddRequests.PathEnabled | src/Pages/Add.js:456 | the path entry is enabled exactly when `inputs` holds at most one `+`; the `' '` the source counts in for an empty `inputs` holds none |
| AddRequests.PathEnabledIffTwoOperands | src/Pages/Add.js:456 | the path entry is enabled (at most one `+` in `inputs`) exactly when the request has two operands |
| AddRequests.PathUrl | src/Pages/Add.js:282 | with two or more operands the path is `/a/b` of the first two; with one, the second segment reads `undefined` (`Nth` past the end) |
| AddRequests.PathUrlOperands | src/Pages/Add.js:282 | with one committed term, the path is `/a/b` with that term's signed value and then the input's |
| AddRequests.DedupDistinct | src/Pages/Add.js:292-300 | the identifiers kept are pairwise distinct, and they are exactly the identifiers drawn |
| AddRequests.DedupPrefix | src/Pages/Add.js:292-300 | drawing more identifiers only adds kept identifiers at the end |
| AddRequests.Candidates | src/Pages/Add.js:293 | each identifier `nextId()` returns is two lower-case letters |
| AddRequests.DrawnIds | src/Pages/Add.js:290-301 | a request with `n` operands uses `n` identifiers, pairwise distinct, each two lower-case letters |
| AddRequests.QueryPairsSnoc | src/Pages/Add.js:296 | one more identifier appends one `id=op&` pair |
| AddRequests.QueryPairsJoined | src/Pages/Add.js:290-301 | the untrimmed query is the `id=op` assignments joined by `&`, followed by `&` |
| AddRequests.QueryUrlOf | src/Pages/Add.js:290-301 | the query string always starts with `?`, which the trim of `&` never removes, and is just `?` without identifiers |
| AddRequests.QueryUrlJoined | src/Pages/Add.js:301 | after the trim, the query string is `?` and the assignments joined by `&`, with no trailing `&`, when the last operand does not end in `&` |
| AddRequests.QueryOfEquation | src/Pages/Add.js:272-301 | for the page's equation, the query string carries the committed signed values and the input's, one identifier each, joined by `&` with no trailing `&` |
| AddRequests.QueryUrl | src/Pages/Add.js:290-301 | the retry loop keeps the first distinct identifier for each operand, in order, and builds the query string for them |
| AddRequests.FormFieldsOf | src/Pages/Add.js:309-319 | there is one form field per identifier, named by it and holding the operand at the same position |
| AddRequests.FormFields | src/Pages/Add.js:309-319 | the retry loop pairs each operand, in order, with the first distinct identifiers drawn |
| AddRequests.ShapeRequest | src/Pages/Add.js:272-327 | the `switch` on the method number: method 1 requests the path of the operands, 2 the query string and 3 the form fields of the operands keyed by the first distinct identifiers drawn; any other number sends nothing |
| AddRequests.TwoOperandsExample | src/Pages/Add.js:272-282 | `2+3` splits into `2` and `3`, and method 1 requests `/2/3` |
| AddPage.FormatResult | src/Pages/Add.js:238 | the shown result is the server's result, or it wrapped in parentheses when it starts with `-`; it is never shorter |
| AddPage.FormatResultWraps | src/Pages/Add.js:238 | the shown result is wrapped in parentheses exactly when it starts with `-`, and is shown as it is otherwise |
| AddPage.AddCalc.constructor | src/Pages/Add.js:24-54 | the initial state is `input = inputs = "0"`, with no sign, result, request, error or menu; it is valid with no terms |
| AddPage.AddCalc.ResetInputs | src/Pages/Add.js:59-68 | in result state, the equation becomes `"0"` and sign, error and terms are cleared; otherwise nothing changes |
| AddPage.AddCalc.OnNumPressed | src/Pages/Add.js:74-85 | after the reset, the digit replaces an input of `"0"` and is appended otherwise; the input stays well formed |
| AddPage.AddCalc.OnZeroPressed | src/Pages/Add.js:92-97 | after the reset, a `0` is appended unless the input is `"0"` |
| AddPage.AddCalc.OnDecimalPointPressed | src/Pages/Add.js:103-110 | after the reset, a `.` is appended unless the input already holds one, so there is never a second `.` |
| AddPage.AddCalc.OnBackspacePressed | src/Pages/Add.js:118-131 | after the reset, a longer input loses exactly its last character and a one-character input becomes `"0"`; it is never empty |
| AddPage.AddCalc.ClearState | src/Pages/Add.js:139-149 | everything returns to the initial values, and the long-press flag is set |
| AddPage.AddCalc.BackspaceRelease | src/Pages/Add.js:161-167 | after a long press, releasing changes nothing but the flag; otherwise it is a short backspace; the flag is cleared either way |
| AddPage.AddCalc.OnPlusPressed | src/Pages/Add.js:188-197 | the equation becomes the old one without its initial `"0"`, followed by `actualInput(input)` and `+`; exactly the input's term is committed; the result ends with `+` and is `"0+"` after a shown result; the input is `"0"` and the sign cleared; outside result state it agrees field for field with `PlusAsWritten` |
| AddPage.AddCalc.OnEqualsPressed | src/Pages/Add.js:204-219 | with committed terms, only the menu opens; in result state, only the reset happens; otherwise the equation becomes `actualInput(input)` and is shown as the result, with no request |
| AddPage.AddCalc.ToggleMinus | src/Pages/Add.js:335-339 | the sign flips in any state, and nothing else changes |
| AddPage.AddCalc.CloseMenu | src/Pages/Add.js:345-349 | the menu closes, and nothing else changes |
| AddPage.AddCalc.ShowResponse | src/Pages/Add.js:237-246 | the equation becomes `equation=r`, with `r` wrapped when negative; result shown, not loading, input `"0"`, sign cleared; the error message is left as it is |
| AddPage.AddCalc.ShowError | src/Pages/Add.js:252-261 | the equation is kept unresolved and the error message is shown, in result state; not loading, input `"0"`, sign cleared |
| AddPage.AddCalc.OnLinkChose | src/Pages/Add.js:267-330 | a request is in flight and the menu is closed; the equation sent is `inputs + actualInput(input)`; method 1 requests the path of its first two operands, method 2 the query string and method 3 the form fields for the first distinct identifiers drawn, and any other number sends nothing |
| AddPage.PlusAsWritten | src/Pages/Add.js:188-197 | as written, `+` clears the result flag, the input and the sign, clears the error message only in result state, and keeps whatever equation is shown in front of the new term |
| AddPage.PlusAfterResponseAsWritten | src/Pages/Add.js:188-197 | as written, `+` after the shown result `2+3=5` yields `2+3=50+`, the equation of no committed terms; after the failure of `2+3` it yields `2+30+`, where `3` has become `30`; after `7` is shown by `=` it yields `70+`; the corrected reading gives `0+` |
| AddScenarios.CommitNegativeFive | src/Pages/Add.js:188-197 | `5`, sign, `+` leaves the equation `(-5)+` |
| AddScenarios.CommitNegativeZero | src/Pages/Add.js:188-197 | sign, `+` on the untouched input leaves `0+`, without the sign |
| AddScenarios.DecimalPointOnce | src/Pages/Add.js:103-110 | `3`, `.`, `.` leaves the input `3.` |
| AddScenarios.FinalizeSingleTerm | src/Pages/Add.js:204-219 | `7`, `=` shows `7` as the result, with the menu closed |
| AddScenarios.EnterTwoPlusThree | src/Pages/Add.js:188-219 | `2`, `+`, `3`, `=` leaves the equation `2+`, the input `3` and the menu open |
| AddScenarios.TwoTermsByPath | src/Pages/Add.js:267-282 | the path method then sends the equation `2+3` and requests `/2/3` |
| AddScenarios.AnswerShown | src/Pages/Add.js:237-246 | `2+3` sent by the path method and answered `5`: a request is in flight, then `2+3=5` is shown in result state and nothing is loading |
| AddScenarios.FailureShown | src/Pages/Add.js:252-261 | `2+3` sent by the path method and failing: a request is in flight, then `2+3` is kept with the error message shown, in result state, and nothing is loading |
| AddScenarios.PlusAfterResponse | src/Pages/Add.js:188-197 | with the corrected handler, `+` after `2+3` is answered and shown as `2+3=5` starts the new equation `0+` |

## Left out

- `render()` is not modelled: the JSX layout, tooltips, the menu's position, the progress indicator and the read-only display (src/Pages/Add.js:351-498). Only the menu's path-entry condition (line 456) is modelled, as `PathEnabled`.
- The menu disables the path entry but the request itself never checks the operand count. `OnLinkChose` therefore has no requirement on the count for method 1. With fewer than two operands the path reads `undefined`, which is what `Nth` returns.
- The transport is not modelled: axios, the base URL and `FormData` (src/Pages/Add.js:271, 283-325). `OnLinkChose` returns the shaped request and the equation. The callbacks are the separate methods `ShowResponse` and `ShowError`.
- The server's result is an opaque string. No arithmetic on it is modelled.
- `Math.random()` is a parameter. Each request takes the sequence of draws its `nextId()` calls consume, and draws are exact reals in `[0, 1)`. Floating-point rounding in `nextInt` is not modelled.
- `AddRequests.QueryUrl` and `AddRequests.FormFields` do not model non-termination. They require that the identifiers drawn hold at least as many distinct values as there are operands. The source's loops run until they find that many and never end if they cannot, for example with more than 676 operands.
- `OnLinkChose` requires the same for methods 2 and 3, for the same reason.
- `backspacePress` is not modelled, because its timer (`setTimeout`, `clearTimeout`) is timing. The timer firing is a call of `ClearState` between press and release, and only the `longPressed` flag logic is kept.
- `input` is always a digit string. The source stores a JS number when `onNumPressed` replaces `"0"`. That number prints the same, and backspace on it gives `"0"` either way.
- `AddPage.AddCalc.ShowResponse` leaves the error message as it is, as src/Pages/Add.js:239-245 does. A success does not clear `wrong`, so an earlier error message stays shown; the model follows the code.
- `Globals.Trim` takes one character. The source accepts any string as `c`, and a longer one would build a different character class. The page only calls `trim` with `0`, `.` and `&`.
- `AddPage.AddCalc.OnPlusPressed` states the corrected behaviour in result state (see Findings). The source's reading is `AddPage.PlusAsWritten`.

## Findings

| source | as written | input that shows it | evidently intended | confidence | as-written member | corrected member |
|---|---|---|---|---|---|---|
| src/Pages/Add.js:188-197 | `onPlusPressed` calls `resetInputs()` and then builds the new equation from `this.state.inputs`. In a React event handler the `setState` calls are batched, so that read still sees the shown result, and the handler's patch overrides the reset of `inputs`. | after a success shows `2+3=5`, press `+` with the input `0`: the equation becomes `2+3=50+`. The next request then sends the operand `3=50`. After the failure of `2+3` the equation becomes `2+30+`, and after `7` is shown by `=` it becomes `70+`. | `+` after a shown result starts a new equation, like every other key after `resetInputs`: the equation becomes `0+` | not executed | AddPage.PlusAfterResponseAsWritten | AddPage.AddCalc.OnPlusPressed |
