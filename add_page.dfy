/**
 * The `AddCalc` component of src/Pages/Add.js: its state and the handlers that
 * change it. Each handler is one method, one transition from the state before
 * the event; `menuOpen` stands for `anchorEl` being set. The ghost field
 * `terms` records the terms committed since the last reset, so that the
 * invariant can say what `inputs` holds outside result state.
 */
module AddPage {
  import opened JsString
  import opened Globals
  import opened AddTerms
  import opened AddRequests

  /** The message shown when the server does not answer as expected (the component's `wrong` member). */
  const WrongMessage := "Something went wrong"

  /** How `showResponse` writes the server's result: in parentheses when it starts with `-`. */
  function FormatResult(r: string): (shown: string)
    ensures shown == r || (|r| > 0 && r[0] == '-' && shown == "(" + r + ")")
    ensures |shown| >= |r|
  {
    if |r| > 0 && r[0] == '-' then "(" + r + ")" else r
  }

  /** The result is wrapped exactly when it starts with `-`, and is otherwise shown as it is. */
  lemma FormatResultWraps(r: string)
    ensures FormatResult(r) == "(" + r + ")" <==> |r| > 0 && r[0] == '-'
    ensures !(|r| > 0 && r[0] == '-') ==> FormatResult(r) == r
  {
    if !(|r| > 0 && r[0] == '-') {
      assert |"(" + r + ")"| != |r|;
    }
  }

  class AddCalc {
    /** Whether the current input is shown, and will be committed, as negative. */
    var minus: bool
    /** The current input. */
    var input: string
    /** The equation: committed terms each followed by `+`, or a shown result. */
    var inputs: string
    /** Whether a result is shown. */
    var result: bool
    /** Whether a request is in flight. */
    var loading: bool
    /** The error message under the equation; empty when there is none. */
    var wrong: string
    /** Whether the menu of server links is open. */
    var menuOpen: bool
    /** Set when the long press of backspace cleared everything. */
    var longPressed: bool
    ghost var terms: seq<Term>

    ghost predicate Valid()
      reads this
    {
      WellFormedInput(input) &&
      (result ==> input == "0") &&
      (!result ==> wrong == "" && ValidTerms(terms) && inputs == EquationOf(terms))
    }

    /**
     * What a handler's call of `resetInputs` leaves behind, given the state
     * before the event: a shown result is cleared, anything else is kept.
     */
    ghost predicate ResetFrom(wasResult: bool, oldInputs: string, oldMinus: bool, oldWrong: string, oldTerms: seq<Term>)
      reads this
    {
      !result &&
      if wasResult then inputs == "0" && !minus && wrong == "" && terms == []
      else inputs == oldInputs && minus == oldMinus && wrong == oldWrong && terms == oldTerms
    }

    constructor ()
      ensures Valid() && terms == []
      ensures !minus && input == "0" && inputs == "0" && !result && !loading && wrong == ""
      ensures !menuOpen && !longPressed
    {
      minus, input, inputs, result := false, "0", "0", false;
      loading, wrong, menuOpen, longPressed := false, "", false, false;
      terms := [];
    }

    /** `resetInputs`: in result state, starts a new equation. */
    method ResetInputs()
      requires Valid()
      modifies this
      ensures Valid()
      ensures ResetFrom(old(result), old(inputs), old(minus), old(wrong), old(terms))
      ensures input == old(input) && loading == old(loading)
      ensures menuOpen == old(menuOpen) && longPressed == old(longPressed)
    {
      if result {
        result, inputs, minus, wrong := false, "0", false, "";
        terms := [];
      }
    }

    /**
     * `onNumPressed(d)`: the digit replaces an input of `"0"` and is appended
     * otherwise. The source stores the digit itself as a number when it
     * replaces `"0"`; the model keeps the one-character string it prints as.
     */
    method OnNumPressed(d: char)
      requires Valid()
      requires IsDigit(d)
      modifies this
      ensures Valid()
      ensures ResetFrom(old(result), old(inputs), old(minus), old(wrong), old(terms))
      ensures input == if old(input) == "0" then [d] else old(input) + [d]
      ensures loading == old(loading) && menuOpen == old(menuOpen) && longPressed == old(longPressed)
    {
      ResetInputs();
      if input == "0" {
        input := [d];
      } else {
        input := input + [d];
      }
    }

    /** `onZeroPressed`: a zero is appended unless the input is `"0"`. */
    method OnZeroPressed()
      requires Valid()
      modifies this
      ensures Valid()
      ensures ResetFrom(old(result), old(inputs), old(minus), old(wrong), old(terms))
      ensures input == if old(input) == "0" then "0" else old(input) + "0"
      ensures loading == old(loading) && menuOpen == old(menuOpen) && longPressed == old(longPressed)
    {
      ResetInputs();
      if input != "0" {
        OnNumPressed('0');
      }
    }

    /** `onDecimalPointPressed`: a `.` is appended unless the input already holds one. */
    method OnDecimalPointPressed()
      requires Valid()
      modifies this
      ensures Valid()
      ensures ResetFrom(old(result), old(inputs), old(minus), old(wrong), old(terms))
      ensures input == if '.' in old(input) then old(input) else old(input) + "."
      ensures loading == old(loading) && menuOpen == old(menuOpen) && longPressed == old(longPressed)
    {
      ResetInputs();
      if '.' !in input {
        input := input + ".";
      }
    }

    /**
     * `onBackspacePressed`: drops the last character of a longer input, and
     * turns a one-character input into `"0"`; the input is never left empty.
     */
    method OnBackspacePressed()
      requires Valid()
      modifies this
      ensures Valid()
      ensures ResetFrom(old(result), old(inputs), old(minus), old(wrong), old(terms))
      ensures input == if |old(input)| > 1 then old(input)[..|old(input)| - 1] else "0"
      ensures loading == old(loading) && menuOpen == old(menuOpen) && longPressed == old(longPressed)
    {
      ResetInputs();
      if |input| > 1 {
        input := input[..|input| - 1];
      } else if input != "0" {
        input := "0";
      }
    }

    /** `clearState`, run when backspace has been held for a second: everything back to the start. */
    method ClearState()
      requires Valid()
      modifies this
      ensures Valid()
      ensures inputs == "0" && input == "0" && !result && !loading && !minus && wrong == "" && terms == []
      ensures longPressed && menuOpen == old(menuOpen)
    {
      inputs, input, result, loading, minus, wrong := "0", "0", false, false, false, "";
      terms := [];
      longPressed := true;
    }

    /**
     * `backspaceRelease`: a short press deletes one character; after a long
     * press, which has already cleared everything, releasing does nothing more.
     */
    method BackspaceRelease()
      requires Valid()
      modifies this
      ensures Valid()
      ensures !longPressed
      ensures old(longPressed) ==>
        input == old(input) && inputs == old(inputs) && minus == old(minus) &&
        result == old(result) && wrong == old(wrong) && terms == old(terms)
      ensures !old(longPressed) ==>
        ResetFrom(old(result), old(inputs), old(minus), old(wrong), old(terms)) &&
        input == if |old(input)| > 1 then old(input)[..|old(input)| - 1] else "0"
      ensures loading == old(loading) && menuOpen == old(menuOpen)
    {
      if !longPressed {
        OnBackspacePressed();
      }
      longPressed := false;
    }

    /**
     * `onPlusPressed`, with the reset of a shown result taking effect before the
     * equation is read (see `PlusAsWritten` for the source's reading):
     * the current term and a `+` are appended to the equation, dropping its
     * initial `"0"`; the term is `(-t)` exactly when `minus` is set and the
     * trimmed input `t` is not `"0"`.
     */
    method OnPlusPressed()
      requires Valid()
      modifies this
      ensures Valid()
      ensures !result && wrong == "" && input == "0" && !minus
      ensures inputs == AppendTerm(if old(result) then "0" else old(inputs), old(input), !old(result) && old(minus))
      ensures terms == (if old(result) then [] else old(terms)) + [TermOf(old(input), !old(result) && old(minus))]
      ensures inputs[|inputs| - 1] == '+' && (old(result) ==> inputs == "0+")
      ensures loading == old(loading) && menuOpen == old(menuOpen) && longPressed == old(longPressed)
      ensures !old(result) ==>
        PlusOutcome(inputs, input, minus, result, wrong) ==
        PlusAsWritten(old(result), old(inputs), old(input), old(minus), old(wrong))
    {
      ResetInputs();
      var equation := AppendTerm(inputs, input, minus);
      ghost var committed := terms + [TermOf(input, minus)];
      assert equation == EquationOf(committed) && ValidTerms(committed) by {
        AppendTermCommits(terms, input, minus);
        AppendTermValid(terms, input, minus);
      }
      assert old(result) ==> equation == "0+" by {
        AppendTermOnReset();
      }
      terms := committed;
      inputs, input, minus := equation, "0", false;
    }

    /**
     * `onEqualsPressed`: with committed terms, opens the menu of server links;
     * in result state, starts a new equation; with none, shows the current term
     * itself as the result, without a request.
     */
    method OnEqualsPressed()
      requires Valid()
      modifies this
      ensures Valid()
      ensures !old(result) && old(inputs) != "0" ==>
        menuOpen && inputs == old(inputs) && input == old(input) && minus == old(minus) &&
        !result && wrong == old(wrong) && terms == old(terms)
      ensures old(result) ==>
        ResetFrom(old(result), old(inputs), old(minus), old(wrong), old(terms)) &&
        input == old(input) && menuOpen == old(menuOpen)
      ensures !old(result) && old(inputs) == "0" ==>
        inputs == ActualInput(old(input), old(minus)) && result && input == "0" && !minus &&
        wrong == old(wrong) && menuOpen == old(menuOpen) && terms == old(terms)
      ensures loading == old(loading) && longPressed == old(longPressed)
    {
      if inputs != "0" && !result {
        menuOpen := true;
      } else if result {
        ResetInputs();
      } else {
        inputs, input, minus, result := ActualInput(input, minus), "0", false, true;
      }
    }

    /** `toggleMinus`: flips the sign of the current input, in any state. */
    method ToggleMinus()
      requires Valid()
      modifies this
      ensures Valid()
      ensures minus == !old(minus)
      ensures input == old(input) && inputs == old(inputs) && result == old(result) && wrong == old(wrong)
      ensures loading == old(loading) && menuOpen == old(menuOpen) && longPressed == old(longPressed)
      ensures terms == old(terms)
    {
      minus := !minus;
    }

    /** `closeMenu`. */
    method CloseMenu()
      requires Valid()
      modifies this
      ensures Valid()
      ensures !menuOpen
      ensures minus == old(minus) && input == old(input) && inputs == old(inputs) && result == old(result)
      ensures wrong == old(wrong) && loading == old(loading) && longPressed == old(longPressed)
      ensures terms == old(terms)
    {
      menuOpen := false;
    }

    /**
     * `showResponse(equation, response)`, with the response's `result` field as
     * text: shows `equation=result`; the error message is left as it is.
     */
    method ShowResponse(equation: string, r: string)
      requires Valid()
      modifies this
      ensures Valid()
      ensures inputs == equation + "=" + FormatResult(r)
      ensures result && !loading && input == "0" && !minus
      ensures wrong == old(wrong) && menuOpen == old(menuOpen) && longPressed == old(longPressed)
      ensures terms == old(terms)
    {
      loading, inputs, result, input, minus := false, equation + "=" + FormatResult(r), true, "0", false;
    }

    /** `showError(equation)`: keeps the unresolved equation and shows the error message. */
    method ShowError(equation: string)
      requires Valid()
      modifies this
      ensures Valid()
      ensures inputs == equation && wrong == WrongMessage
      ensures result && !loading && input == "0" && !minus
      ensures menuOpen == old(menuOpen) && longPressed == old(longPressed)
      ensures terms == old(terms)
    {
      loading, wrong, result, inputs, input, minus := false, WrongMessage, true, equation, "0", false;
    }

    /**
     * `onLinkChose(method)`, with `choice` for its argument: marks a request in flight, closes the menu, and
     * shapes the request from `inputs + actualInput(input)`. `draws` are the
     * successive pairs of `Math.random()` values the identifier loops consume;
     * for methods 2 and 3 they must hold a distinct identifier per operand.
     * The equation is returned for the callbacks `showResponse` and `showError`.
     */
    method OnLinkChose(choice: int, draws: seq<(real, real)>) returns (equation: string, req: Request)
      requires Valid() && Draws(draws)
      requires choice == 2 || choice == 3 ==>
        |OperandsOf(inputs + ActualInput(input, minus))| <= |Dedup(Candidates(draws))|
      modifies this
      ensures Valid()
      ensures loading && !menuOpen
      ensures minus == old(minus) && input == old(input) && inputs == old(inputs) && result == old(result)
      ensures wrong == old(wrong) && longPressed == old(longPressed) && terms == old(terms)
      ensures equation == inputs + ActualInput(input, minus)
      ensures var ops, ids := OperandsOf(equation), Dedup(Candidates(draws));
        req == if choice == 1 then PathGet(PathUrl(ops))
               else if choice == 2 then QueryGet(QueryUrlOf(ids[..|ops|], ops))
               else if choice == 3 then FormPost(FormFieldsOf(ids[..|ops|], ops))
               else NoRequest
    {
      loading := true;
      equation := inputs + ActualInput(input, minus);
      req := ShapeRequest(choice, equation, Candidates(draws));
      CloseMenu();
    }
  }

  /** The fields `onPlusPressed` sets, all others being left as they are. */
  datatype PlusOutcome = PlusOutcome(inputs: string, input: string, minus: bool, result: bool, wrong: string)

  /**
   * `onPlusPressed` as the source has it. React batches the `setState` calls of
   * an event handler: the reset `resetInputs` queues in result state is merged
   * first, and the handler's own patch, computed from the `inputs` and `minus`
   * of the state before the event, overrides its `inputs`. So the result flag and
   * the error message are cleared, but the equation shown stays in front of the
   * new term.
   */
  function PlusAsWritten(result: bool, inputs: string, input: string, minus: bool, wrong: string): (after: PlusOutcome)
    ensures !after.result && after.input == "0" && !after.minus
    ensures after.wrong == if result then "" else wrong
    ensures inputs != "0" ==> |after.inputs| > |inputs| && after.inputs[..|inputs|] == inputs
  {
    PlusOutcome(AppendTerm(inputs, input, minus), "0", false, false, if result then "" else wrong)
  }

  /**
   * Pressing `+` as written after each way of reaching result state:
   *  - after the response `2+3=5`, the equation becomes `2+3=50+`, which no
   *    sequence of committed terms gives, and the next request would send `3=50`
   *    as an operand;
   *  - after the failure of `2+3`, the equation becomes `2+30+`: the committed
   *    `3` has silently turned into `30`;
   *  - after `7` is shown by `=`, the equation becomes `70+`.
   * The corrected `AddCalc.OnPlusPressed` yields `0+` in all three.
   */
  lemma PlusAfterResponseAsWritten()
    ensures PlusAsWritten(true, "2+3=5", "0", false, "").inputs == "2+3=50+"
    ensures forall ts :: ValidTerms(ts) ==> EquationOf(ts) != "2+3=50+"
    ensures PlusAsWritten(true, "2+3", "0", false, WrongMessage).inputs == "2+30+"
    ensures EquationOf([Term(false, "2"), Term(false, "30")]) == "2+30+"
    ensures PlusAsWritten(true, "7", "0", false, "").inputs == "70+" == EquationOf([Term(false, "70")])
    ensures AppendTerm("0", "0", false) == "0+"
  {
    assert TrimInput("0") == "0";
    forall ts | ValidTerms(ts)
      ensures EquationOf(ts) != "2+3=50+"
    {
      if ts != [] {
        CommittedShape(ts);
      }
      assert ("2+3=50+")[3] == '=';
    }
    var two := [Term(false, "2"), Term(false, "30")];
    assert two[..1] == [Term(false, "2")] && two[..1][..0] == [];
    assert Committed(two[..1]) == "2+";
  }
}
