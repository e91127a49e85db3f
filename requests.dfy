/**
 * The request shaping of `onLinkChose` in src/Pages/Add.js: the equation is
 * split on `+` into operands, the parentheses of negative terms are stripped,
 * and the operands go out either as two path segments, as a query string, or
 * as form fields, the last two keyed by fresh random two-letter identifiers.
 */
module AddRequests {
  import opened JsString
  import opened Globals
  import opened AddTerms

  /** What `onLinkChose(method)` sends; the transport itself is not modelled. */
  datatype Request =
    | PathGet(path: string)                     // method 1: GET on the base URL followed by `path`
    | QueryGet(query: string)                   // method 2: GET on the base URL followed by `query`
    | FormPost(fields: seq<(string, string)>)   // method 3: POST of these form fields to the base URL + "/"
    | NoRequest                                 // any other number: nothing is sent

  /** An operand as the loop leaves it: a piece holding `(` loses its first and last characters. */
  function Unwrap(part: string): (op: string)
    ensures '(' !in part ==> op == part
    ensures '(' in part && |part| >= 2 ==> op == part[1..|part| - 1]
    ensures |op| <= |part|
  {
    if '(' in part then Substring(part, 1, |part| - 1) else part
  }

  /** The operands of an equation, in order. */
  function OperandsOf(equation: string): (ops: seq<string>)
    ensures |ops| == |Split(equation, '+')|
  {
    var parts := Split(equation, '+');
    seq(|parts|, i requires 0 <= i < |parts| => Unwrap(parts[i]))
  }

  /** Splits the equation and rewrites each piece in place, as the loop of `onLinkChose` does. */
  method SplitOperands(equation: string) returns (ops: seq<string>)
    ensures ops == OperandsOf(equation)
  {
    ghost var parts := Split(equation, '+');
    ops := Split(equation, '+');
    var i := 0;
    while i < |ops|
      invariant 0 <= i <= |ops| == |parts|
      invariant forall k :: 0 <= k < i ==> ops[k] == Unwrap(parts[k])
      invariant forall k :: i <= k < |ops| ==> ops[k] == parts[k]
    {
      if '(' in ops[i] {
        ops := ops[i := Substring(ops[i], 1, |ops[i]| - 1)];
      }
      i := i + 1;
    }
  }

  function Renders(ts: seq<Term>): seq<string>
  {
    seq(|ts|, i requires 0 <= i < |ts| => Render(ts[i]))
  }

  /** The signed values of the terms, as the server receives them. */
  function Signeds(ts: seq<Term>): seq<string>
  {
    seq(|ts|, i requires 0 <= i < |ts| => Signed(ts[i]))
  }

  /** Committed terms followed by one more term are the written terms joined by `+`. */
  lemma {:induction false} CommittedJoin(ts: seq<Term>, cur: Term)
    ensures Committed(ts) + Render(cur) == Join(Renders(ts + [cur]), '+')
  {
    if ts != [] {
      var init, last := ts[..|ts| - 1], ts[|ts| - 1];
      CommittedJoin(init, last);
      var r := Renders(ts + [cur]);
      assert init + [last] == ts;
      assert r[..|r| - 1] == Renders(init + [last]);
    }
  }

  /** Splitting committed terms followed by one more term gives back each term as written. */
  lemma SplitEquation(ts: seq<Term>, cur: Term)
    requires ValidTerms(ts) && ValidTerm(cur)
    ensures Split(Committed(ts) + Render(cur), '+') == Renders(ts + [cur])
  {
    var all := ts + [cur];
    CommittedJoin(ts, cur);
    forall i | 0 <= i < |all|
      ensures '+' !in Renders(all)[i]
    {
      RenderAlphabet(all[i]);
    }
    SplitJoin(Renders(all), '+');
  }

  /** The pieces of the equation and the current input are the written terms, all valid. */
  lemma EquationPieces(ts: seq<Term>, input: string, minus: bool)
    requires ValidTerms(ts) && ts != [] && WellFormedInput(input)
    ensures var all := ts + [TermOf(input, minus)];
      Split(EquationOf(ts) + ActualInput(input, minus), '+') == Renders(all) && ValidTerms(all)
  {
    var cur := TermOf(input, minus);
    ActualInputTerm(input, minus);
    assert EquationOf(ts) + ActualInput(input, minus) == Committed(ts) + Render(cur);
    SplitEquation(ts, cur);
  }

  /** Stripping the parentheses of a written term leaves its signed value. */
  lemma UnwrapRender(t: Term)
    requires ValidTerm(t)
    ensures Unwrap(Render(t)) == Signed(t)
  {
    if !t.negative {
      assert forall i :: 0 <= i < |t.digits| ==> t.digits[i] != '(';
    }
  }

  /**
   * The operands `onLinkChose` sends for `inputs + actualInput(input)`, outside
   * result state after at least one `+`: the committed signed values in order,
   * then the current input's, one more than `inputs` holds `+` signs.
   */
  lemma EquationOperands(ts: seq<Term>, input: string, minus: bool)
    requires ValidTerms(ts) && ts != [] && WellFormedInput(input)
    ensures var ops := OperandsOf(EquationOf(ts) + ActualInput(input, minus));
      ops == Signeds(ts + [TermOf(input, minus)]) &&
      |ops| == CountOccurrence(EquationOf(ts), '+') + 1
  {
    var cur := TermOf(input, minus);
    var all := ts + [cur];
    EquationPieces(ts, input, minus);
    forall i | 0 <= i < |all|
      ensures Unwrap(Renders(all)[i]) == Signed(all[i])
    {
      UnwrapRender(all[i]);
    }
    assert CountOccurrence(EquationOf(ts), '+') == |ts| by {
      EquationCount(ts);
    }
  }

  /**
   * Whether the path-parameter entry of the menu is enabled. The source counts
   * in `" "` when `inputs` is empty; either way the entry is enabled exactly when
   * `inputs` holds at most one `+`.
   */
  function PathEnabled(inputs: string): (enabled: bool)
    ensures enabled <==> multiset(inputs)['+'] <= 1
  {
    !(CountOccurrence(if inputs != "" then inputs else " ", '+') > 1)
  }

  /** The path entry is enabled exactly when the request has two operands. */
  lemma PathEnabledIffTwoOperands(ts: seq<Term>, input: string, minus: bool)
    requires ValidTerms(ts) && ts != [] && WellFormedInput(input)
    ensures PathEnabled(EquationOf(ts)) <==> |OperandsOf(EquationOf(ts) + ActualInput(input, minus))| == 2
  {
    EquationOperands(ts, input, minus);
  }

  /** `inputs[i]` in a template string: past the end of the array it reads `undefined`. */
  function Nth(ops: seq<string>, i: nat): string
  {
    if i < |ops| then ops[i] else "undefined"
  }

  /** The path of method 1: the first two operands as segments. */
  function PathUrl(ops: seq<string>): (path: string)
    ensures |ops| >= 2 ==> path == "/" + ops[0] + "/" + ops[1]
    ensures |ops| == 1 ==> path == "/" + ops[0] + "/undefined"
  {
    "/" + Nth(ops, 0) + "/" + Nth(ops, 1)
  }

  /** With one committed term, the path carries that term's value and the current input's, in order. */
  lemma PathUrlOperands(t: Term, input: string, minus: bool)
    requires ValidTerm(t) && WellFormedInput(input)
    ensures PathUrl(OperandsOf(EquationOf([t]) + ActualInput(input, minus))) ==
            "/" + Signed(t) + "/" + Signed(TermOf(input, minus))
  {
    EquationOperands([t], input, minus);
  }

  /** The first occurrence of each identifier, in order of drawing. */
  function Dedup(s: seq<string>): seq<string>
  {
    if s == [] then []
    else
      var d := Dedup(s[..|s| - 1]);
      if s[|s| - 1] in d then d else d + [s[|s| - 1]]
  }

  predicate Distinct(s: seq<string>)
  {
    forall i, j :: 0 <= i < j < |s| ==> s[i] != s[j]
  }

  /** Every identifier drawn appears, exactly once, and nothing else does. */
  lemma {:induction false} DedupDistinct(s: seq<string>)
    ensures Distinct(Dedup(s))
    ensures forall x :: x in Dedup(s) <==> x in s
  {
    if s != [] {
      var init := s[..|s| - 1];
      DedupDistinct(init);
      assert s == init + [s[|s| - 1]];
    }
  }

  /** Drawing further only adds identifiers at the end. */
  lemma {:induction false} DedupPrefix(s: seq<string>, k: nat)
    requires k <= |s|
    ensures Dedup(s[..k]) <= Dedup(s)
    decreases |s| - k
  {
    if k < |s| {
      var init := s[..|s| - 1];
      DedupPrefix(init, k);
      assert init[..k] == s[..k];
    } else {
      assert s[..k] == s;
    }
  }

  /** Every draw is a value `Math.random()` can return. */
  predicate Draws(draws: seq<(real, real)>)
  {
    forall i :: 0 <= i < |draws| ==> IsUnit(draws[i].0) && IsUnit(draws[i].1)
  }

  /** The identifiers successive `nextId()` calls return for the given draws. */
  function Candidates(draws: seq<(real, real)>): (ids: seq<string>)
    requires Draws(draws)
    ensures |ids| == |draws|
    ensures forall i :: 0 <= i < |ids| ==> |ids[i]| == 2 && IsLower(ids[i][0]) && IsLower(ids[i][1])
  {
    seq(|draws|, i requires 0 <= i < |draws| => NextId(draws[i].0, draws[i].1))
  }

  /**
   * The identifiers a request uses, the first `n` distinct draws: there are `n`
   * of them, no two alike, each two lower-case letters.
   */
  lemma DrawnIds(draws: seq<(real, real)>, n: nat)
    requires Draws(draws) && n <= |Dedup(Candidates(draws))|
    ensures var ids := Dedup(Candidates(draws))[..n];
      |ids| == n && Distinct(ids) &&
      forall i :: 0 <= i < n ==> |ids[i]| == 2 && IsLower(ids[i][0]) && IsLower(ids[i][1])
  {
    var cands := Candidates(draws);
    DedupDistinct(cands);
    var ids := Dedup(cands)[..n];
    forall i | 0 <= i < n
      ensures |ids[i]| == 2 && IsLower(ids[i][0]) && IsLower(ids[i][1])
    {
      assert ids[i] in cands;
    }
  }

  /** The query string before trimming: `id=op&` for each identifier and its operand. */
  function QueryPairs(ids: seq<string>, ops: seq<string>): string
    requires |ids| <= |ops|
  {
    if ids == [] then ""
    else QueryPairs(ids[..|ids| - 1], ops) + ids[|ids| - 1] + "=" + ops[|ids| - 1] + "&"
  }

  lemma QueryPairsSnoc(ids: seq<string>, id: string, ops: seq<string>)
    requires |ids| < |ops|
    ensures QueryPairs(ids + [id], ops) == QueryPairs(ids, ops) + id + "=" + ops[|ids|] + "&"
  {
    assert (ids + [id])[..|ids|] == ids;
  }

  /** The query string of method 2: `?`, the pairs, and `trim(url, '&')`. */
  function QueryUrlOf(ids: seq<string>, ops: seq<string>): (query: string)
    requires |ids| <= |ops|
    ensures |query| > 0 && query[0] == '?'
    ensures ids == [] ==> query == "?"
  {
    var url := "?" + QueryPairs(ids, ops);
    assert url[0] == '?';
    Trim(url, '&')
  }

  function Assignments(ids: seq<string>, ops: seq<string>): seq<string>
    requires |ids| <= |ops|
  {
    seq(|ids|, i requires 0 <= i < |ids| => ids[i] + "=" + ops[i])
  }

  lemma {:induction false} QueryPairsJoined(ids: seq<string>, ops: seq<string>)
    requires 1 <= |ids| <= |ops|
    ensures QueryPairs(ids, ops) == Join(Assignments(ids, ops), '&') + "&"
  {
    var n := |ids|;
    var init := ids[..n - 1];
    var a := Assignments(ids, ops);
    assert a[..n - 1] == Assignments(init, ops);
    if n > 1 {
      QueryPairsJoined(init, ops);
    }
  }

  /**
   * The query string is `?` followed by the `id=op` pairs joined by `&`, with no
   * trailing `&`, whenever the last operand does not itself end in `&`.
   */
  lemma QueryUrlJoined(ids: seq<string>, ops: seq<string>)
    requires 1 <= |ids| == |ops|
    requires |ops[|ops| - 1]| == 0 || ops[|ops| - 1][|ops[|ops| - 1]| - 1] != '&'
    ensures QueryUrlOf(ids, ops) == "?" + Join(Assignments(ids, ops), '&')
  {
    QueryPairsJoined(ids, ops);
    var a := Assignments(ids, ops);
    var n := |ids|;
    assert a[n - 1] == ids[n - 1] + "=" + ops[n - 1];
    JoinLastCharacter(a, '&');
    var body := "?" + Join(a, '&');
    assert body[|body| - 1] != '&';
    assert "?" + QueryPairs(ids, ops) == body + "&";
    TrimUnique("?" + QueryPairs(ids, ops), '&', body);
  }

  /**
   * The query string `onLinkChose` builds outside result state after at least
   * one `+`: one `id=value` pair per committed term and one for the current
   * input, joined by `&`, with no trailing `&`.
   */
  lemma QueryOfEquation(ts: seq<Term>, input: string, minus: bool, ids: seq<string>)
    requires ValidTerms(ts) && ts != [] && WellFormedInput(input)
    requires |ids| == |ts| + 1
    ensures var ops := OperandsOf(EquationOf(ts) + ActualInput(input, minus));
      ops == Signeds(ts + [TermOf(input, minus)]) && |ops| == |ids| &&
      QueryUrlOf(ids, ops) == "?" + Join(Assignments(ids, ops), '&')
  {
    var ops := OperandsOf(EquationOf(ts) + ActualInput(input, minus));
    EquationOperands(ts, input, minus);
    EquationCount(ts);
    ActualInputTerm(input, minus);
    SignedEndsWithDigit(TermOf(input, minus));
    QueryUrlJoined(ids, ops);
  }

  /**
   * The loop of method 2: a fresh `nextId()` per operand, drawn again while it
   * collides with one already used, each appended as `id=op&`; then the trailing
   * `&` is trimmed. `cands` holds the successive identifiers `nextId()` returns.
   */
  method QueryUrl(ops: seq<string>, cands: seq<string>) returns (url: string, ids: seq<string>)
    requires |ops| <= |Dedup(cands)|
    ensures ids == Dedup(cands)[..|ops|]
    ensures url == QueryUrlOf(ids, ops)
  {
    url := "?";
    ids := [];
    var i, k := 0, 0;
    while i < |ops|
      invariant 0 <= i <= |ops| && k <= |cands|
      invariant ids == Dedup(cands[..k]) && |ids| == i
      invariant url == "?" + QueryPairs(ids, ops)
      decreases |cands| - k
    {
      assert cands[..|cands|] == cands;
      var id := cands[k];
      assert cands[..k + 1] == cands[..k] + [id];
      k := k + 1;
      if id !in ids {
        QueryPairsSnoc(ids, id, ops);
        ids := ids + [id];
        url := url + id + "=" + ops[i] + "&";
        i := i + 1;
      }
    }
    DedupPrefix(cands, k);
    url := Trim(url, '&');
  }

  /** The form fields of method 3: each identifier with its operand. */
  function FormFieldsOf(ids: seq<string>, ops: seq<string>): (fields: seq<(string, string)>)
    requires |ids| <= |ops|
    ensures |fields| == |ids|
    ensures forall i :: 0 <= i < |ids| ==> fields[i].0 == ids[i] && fields[i].1 == ops[i]
  {
    seq(|ids|, i requires 0 <= i < |ids| => (ids[i], ops[i]))
  }

  /** The loop of method 3: the same identifier drawing, each operand appended to the form. */
  method FormFields(ops: seq<string>, cands: seq<string>) returns (fields: seq<(string, string)>)
    requires |ops| <= |Dedup(cands)|
    ensures fields == FormFieldsOf(Dedup(cands)[..|ops|], ops)
  {
    fields := [];
    var ids: seq<string> := [];
    var i, k := 0, 0;
    while i < |ops|
      invariant 0 <= i <= |ops| && k <= |cands|
      invariant ids == Dedup(cands[..k]) && |ids| == i
      invariant fields == FormFieldsOf(ids, ops)
      decreases |cands| - k
    {
      assert cands[..|cands|] == cands;
      var id := cands[k];
      assert cands[..k + 1] == cands[..k] + [id];
      k := k + 1;
      if id !in ids {
        ids := ids + [id];
        fields := fields + [(id, ops[i])];
        i := i + 1;
      }
    }
    DedupPrefix(cands, k);
  }

  /**
   * The `switch` of `onLinkChose` on the method number, for the equation sent
   * and the identifiers the `nextId()` calls return: method 1 puts the first two
   * operands in the path, methods 2 and 3 key every operand, in order, by the
   * first distinct identifiers, and any other number sends nothing.
   */
  method ShapeRequest(choice: int, equation: string, cands: seq<string>) returns (req: Request)
    requires choice == 2 || choice == 3 ==> |OperandsOf(equation)| <= |Dedup(cands)|
    ensures var ops, ids := OperandsOf(equation), Dedup(cands);
      req == if choice == 1 then PathGet(PathUrl(ops))
             else if choice == 2 then QueryGet(QueryUrlOf(ids[..|ops|], ops))
             else if choice == 3 then FormPost(FormFieldsOf(ids[..|ops|], ops))
             else NoRequest
  {
    var ops := SplitOperands(equation);
    if choice == 1 {
      req := PathGet(PathUrl(ops));
    } else if choice == 2 {
      var url, ids := QueryUrl(ops, cands);
      req := QueryGet(url);
    } else if choice == 3 {
      var fields := FormFields(ops, cands);
      req := FormPost(fields);
    } else {
      req := NoRequest;
    }
  }

  /** The equation `2+3` splits into the operands `2` and `3`, and method 1 requests `/2/3`. */
  lemma TwoOperandsExample()
    ensures OperandsOf("2+3") == ["2", "3"]
    ensures PathUrl(["2", "3"]) == "/2/3"
  {
    SplitAppend("2", '+', "3");
    SplitWithoutSeparator("2", '+');
    SplitWithoutSeparator("3", '+');
    assert "2+3" == "2" + ['+'] + "3";
  }
}
