/**
 * Key sequences on a fresh calculator: what the `AddCalc` handlers' contracts
 * say each sequence leads to, from the first key to the shown result.
 */
module AddScenarios {
  import opened AddTerms
  import opened AddRequests
  import opened AddPage

  /** `5`, `±`, `+`: the negative term is committed in parentheses. */
  method CommitNegativeFive() returns (equation: string)
    ensures equation == "(-5)+"
  {
    CommitExamples();
    var page := new AddCalc();
    page.OnNumPressed('5');
    page.ToggleMinus();
    page.OnPlusPressed();
    equation := page.inputs;
  }

  /** `±`, `+` on the untouched input: the sign of zero is dropped. */
  method CommitNegativeZero() returns (equation: string)
    ensures equation == "0+"
  {
    CommitExamples();
    var page := new AddCalc();
    page.ToggleMinus();
    page.OnPlusPressed();
    equation := page.inputs;
  }

  /** `3`, `.`, `.`: the second point is not inserted. */
  method DecimalPointOnce() returns (input: string)
    ensures input == "3."
  {
    var page := new AddCalc();
    page.OnNumPressed('3');
    page.OnDecimalPointPressed();
    page.OnDecimalPointPressed();
    input := page.input;
  }

  /** `7`, `=`: a single term is shown as the result without a request. */
  method FinalizeSingleTerm() returns (equation: string, shown: bool, menu: bool)
    ensures equation == "7" && shown && !menu
  {
    CommitExamples();
    var page := new AddCalc();
    page.OnNumPressed('7');
    page.OnEqualsPressed();
    equation, shown, menu := page.inputs, page.result, page.menuOpen;
  }

  /** `2`, `+`, `3`, `=`: the equation `2+` waits for the method chosen in the open menu. */
  method EnterTwoPlusThree() returns (page: AddCalc)
    ensures fresh(page) && page.Valid()
    ensures page.inputs == "2+" && page.input == "3" && !page.minus && !page.result && page.menuOpen
    ensures page.terms == [Term(false, "2")]
  {
    CommitExamples();
    page := new AddCalc();
    page.OnNumPressed('2');
    page.OnPlusPressed();
    page.OnNumPressed('3');
    page.OnEqualsPressed();
  }

  /** `2+3` by the path method: the equation sent is `2+3` and the request path `/2/3`. */
  method TwoTermsByPath() returns (equation: string, req: Request)
    ensures equation == "2+3" && req == PathGet("/2/3")
  {
    CommitExamples();
    TwoOperandsExample();
    var page := EnterTwoPlusThree();
    equation, req := page.OnLinkChose(1, []);
    assert equation == "2+3";
    assert req == PathGet(PathUrl(["2", "3"]));
  }

  /**
   * `2+3` by the path method, answered `5`: a request is in flight until the
   * answer is shown as `2+3=5`, in result state.
   */
  method AnswerShown() returns (answered: string, shown: bool, sentLoading: bool, doneLoading: bool)
    ensures answered == "2+3=5" && shown && sentLoading && !doneLoading
  {
    CommitExamples();
    var page := EnterTwoPlusThree();
    var equation, req := page.OnLinkChose(1, []);
    assert equation == "2+3";
    sentLoading := page.loading;
    page.ShowResponse(equation, "5");
    assert FormatResult("5") == "5";
    answered, shown, doneLoading := page.inputs, page.result, page.loading;
  }

  /**
   * `2+3` by the path method, failing: the request is in flight, then the
   * equation `2+3` is kept and the error message is shown, in result state.
   */
  method FailureShown() returns (failed: string, message: string, shown: bool, sentLoading: bool, doneLoading: bool)
    ensures failed == "2+3" && message == WrongMessage && shown && sentLoading && !doneLoading
  {
    CommitExamples();
    var page := EnterTwoPlusThree();
    var equation, req := page.OnLinkChose(1, []);
    assert equation == "2+3";
    sentLoading := page.loading;
    page.ShowError(equation);
    failed, message, shown, doneLoading := page.inputs, page.wrong, page.result, page.loading;
  }

  /** After `2+3` is answered and shown as `2+3=5`, `+` starts a new equation from `0+`. */
  method PlusAfterResponse() returns (equation: string)
    ensures equation == "0+"
  {
    CommitExamples();
    var page := EnterTwoPlusThree();
    var sent, req := page.OnLinkChose(1, []);
    page.ShowResponse(sent, "5");
    page.OnPlusPressed();
    equation := page.inputs;
  }
}
