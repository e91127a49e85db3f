/**
 * The pure string logic of src/Pages/Add.js: the shape of the current input,
 * `trimInput`, `actualInput`, and the equation that `onPlusPressed` grows one
 * term at a time ("3+(-5)+").
 */
module AddTerms {
  import opened Globals

  predicate IsDigit(c: char)
  {
    '0' <= c <= '9'
  }

  /**
   * The strings the current input takes: digits and at most one `.`, a digit
   * first, and never a `0` directly followed by another digit.
   */
  predicate WellFormedInput(s: string)
  {
    |s| > 0 && IsDigit(s[0]) &&
    (forall i :: 0 <= i < |s| ==> IsDigit(s[i]) || s[i] == '.') &&
    (forall i, j :: 0 <= i < j < |s| && s[i] == '.' ==> s[j] != '.') &&
    (|s| > 1 && s[0] == '0' ==> s[1] == '.')
  }

  /** A well-formed input with nothing left to trim: no trailing `.`, and no trailing `0` after a `.`. */
  predicate CanonicalNumber(s: string)
  {
    WellFormedInput(s) && s[|s| - 1] != '.' && ('.' in s ==> s[|s| - 1] != '0')
  }

  /**
   * `trimInput(input)`: trailing zeros go when there is a `.`, then a trailing `.` goes.
   * The result is never longer than the input, and an input without `.` is kept whole.
   */
  function TrimInput(input: string): (r: string)
    ensures |r| <= |input|
    ensures '.' !in input ==> r == input
  {
    var t := if '.' in input then Trim(input, '0') else input;
    if |t| > 0 && t[|t| - 1] == '.' then Trim(t, '.') else t
  }

  /**
   * For every argument, the result is a prefix that does not end in `.`, only
   * `0`s and `.`s are cut, and an argument without `.` comes back unchanged.
   */
  lemma TrimInputPrefix(input: string)
    ensures var r := TrimInput(input);
      |r| <= |input| && r == input[..|r|] &&
      (forall i :: |r| <= i < |input| ==> input[i] == '0' || input[i] == '.') &&
      (|r| == 0 || r[|r| - 1] != '.') &&
      ('.' !in input ==> r == input)
  {
  }

  /**
   * On a well-formed input, trimming keeps the number: what is cut is an optional
   * `.` right after the result followed only by `0`s, and nothing is cut without a `.`.
   * The result is canonical, so if it still holds a `.` it does not end in `0`.
   */
  lemma TrimInputKeepsValue(input: string)
    requires WellFormedInput(input)
    ensures var r := TrimInput(input);
      r == input[..|r|] &&
      (forall i :: |r| <= i < |input| ==> input[i] == '0' || (i == |r| && input[i] == '.')) &&
      (|r| < |input| ==> '.' in input) &&
      CanonicalNumber(r)
  {
    var r := TrimInput(input);
    TrimInputPrefix(input);
    if '.' in input {
      var k :| 0 <= k < |input| && input[k] == '.';
      var t := Trim(input, '0');
      assert k < |t|;
      if |t| > 0 && t[|t| - 1] == '.' {
        assert k == |t| - 1 && k > 0;
        assert t[|t| - 2] == input[|t| - 2] != '.';
      } else {
        assert r == t;
      }
    }
  }

  /** A canonical number is what trimming leaves: trimming it changes nothing. */
  lemma TrimInputFixpoint(s: string)
    requires CanonicalNumber(s)
    ensures TrimInput(s) == s
  {
    if '.' in s {
      TrimUntrailed(s, '0');
    }
  }

  /** The examples `"3.50"`, `"3.00"`, `"3."` and `"3"`. */
  lemma TrimInputExamples()
    ensures TrimInput("3.50") == "3.5"
    ensures TrimInput("3.00") == "3"
    ensures TrimInput("3.") == "3"
    ensures TrimInput("3") == "3"
  {
    TrimUnique("3.50", '0', "3.5");
    TrimUnique("3.00", '0', "3.");
    TrimUnique("3.", '.', "3");
  }

  /** A committed term: its trimmed digits and whether it carries a minus. */
  datatype Term = Term(negative: bool, digits: string)

  /** Terms the calculator commits: canonical digits, and never a negative zero. */
  predicate ValidTerm(t: Term)
  {
    CanonicalNumber(t.digits) && (t.negative ==> t.digits != "0")
  }

  predicate ValidTerms(ts: seq<Term>)
  {
    forall i :: 0 <= i < |ts| ==> ValidTerm(ts[i])
  }

  /** The term the current input and sign flag stand for. */
  function TermOf(input: string, minus: bool): Term
  {
    var d := TrimInput(input);
    Term(minus && d != "0", d)
  }

  /** How a term is written in the equation: negative terms in parentheses. */
  function Render(t: Term): string
  {
    if t.negative then "(-" + t.digits + ")" else t.digits
  }

  /** The signed number a term stands for, as the request carries it. */
  function Signed(t: Term): string
  {
    if t.negative then "-" + t.digits else t.digits
  }

  /**
   * `actualInput(input)`, with the component's `minus` flag as a parameter: the
   * input's term as the equation writes it.
   */
  function ActualInput(input: string, minus: bool): (s: string)
    ensures s == Render(TermOf(input, minus))
  {
    var trimmed := TrimInput(input);
    var isZero := trimmed == "0";
    (if minus && !isZero then "(-" else "") + trimmed + (if minus && !isZero then ")" else "")
  }

  /**
   * `actualInput` writes the term of the input: wrapped as `(-t)` exactly when
   * the minus flag is set and the trimmed input is not `"0"`, and on a
   * well-formed input that term is a valid one.
   */
  lemma ActualInputTerm(input: string, minus: bool)
    ensures var d := TrimInput(input);
      (ActualInput(input, minus) == "(-" + d + ")" <==> minus && d != "0") &&
      (ActualInput(input, minus) == d <==> !(minus && d != "0"))
    ensures WellFormedInput(input) ==> ValidTerm(TermOf(input, minus))
  {
    if WellFormedInput(input) {
      TrimInputKeepsValue(input);
    }
  }

  /** The committed terms, each written and followed by `+`. */
  function Committed(ts: seq<Term>): string
  {
    if ts == [] then "" else Committed(ts[..|ts| - 1]) + Render(ts[|ts| - 1]) + "+"
  }

  /** The `inputs` state outside result state: `"0"` before the first `+`, the committed terms after. */
  function EquationOf(ts: seq<Term>): string
  {
    if ts == [] then "0" else Committed(ts)
  }

  /**
   * The equation `onPlusPressed` writes: `inputs` without its initial `"0"`, the
   * current term, a `+`. Any other equation is kept as a prefix.
   */
  function AppendTerm(inputs: string, input: string, minus: bool): (e: string)
    ensures |e| > 0 && e[|e| - 1] == '+'
    ensures inputs != "0" ==> |e| > |inputs| && e[..|inputs|] == inputs
  {
    (if inputs == "0" then "" else inputs) + ActualInput(input, minus) + "+"
  }

  /** A valid term is written with digits, `.`, `(`, `-` and `)` only: no `+` and no `=`. */
  lemma RenderAlphabet(t: Term)
    requires ValidTerm(t)
    ensures '+' !in Render(t) && '=' !in Render(t) && |Render(t)| > 0
  {
    assert forall i :: 0 <= i < |t.digits| ==> t.digits[i] != '+' && t.digits[i] != '=';
  }

  /** The committed equation holds one `+` per term, ends with one, and holds no `=`. */
  lemma {:induction false} CommittedShape(ts: seq<Term>)
    requires ValidTerms(ts)
    ensures CountOccurrence(Committed(ts), '+') == |ts|
    ensures ts != [] ==> Committed(ts)[|Committed(ts)| - 1] == '+'
    ensures '=' !in Committed(ts)
  {
    if ts != [] {
      var init, last := ts[..|ts| - 1], ts[|ts| - 1];
      CommittedShape(init);
      RenderAlphabet(last);
      assert multiset(Render(last))['+'] == 0;
    }
  }

  /**
   * Pressing `+` commits exactly the input's term: the new equation is that of
   * the terms so far followed by `TermOf(input, minus)`.
   */
  lemma AppendTermCommits(ts: seq<Term>, input: string, minus: bool)
    requires ValidTerms(ts)
    ensures AppendTerm(EquationOf(ts), input, minus) == EquationOf(ts + [TermOf(input, minus)])
  {
    var t := TermOf(input, minus);
    ActualInputTerm(input, minus);
    assert (ts + [t])[..|ts|] == ts;
    if ts != [] {
      CommittedShape(ts);
      assert Committed(ts) != "0";
    }
    assert Committed(ts + [t]) == Committed(ts) + Render(t) + "+";
  }

  /** An equation of committed terms holds one `+` per term. */
  lemma EquationCount(ts: seq<Term>)
    requires ValidTerms(ts)
    ensures CountOccurrence(EquationOf(ts), '+') == |ts|
  {
    if ts != [] {
      CommittedShape(ts);
    }
  }

  /** The term `+` commits is a valid one, so the committed terms stay valid. */
  lemma AppendTermValid(ts: seq<Term>, input: string, minus: bool)
    requires ValidTerms(ts) && WellFormedInput(input)
    ensures ValidTerms(ts + [TermOf(input, minus)])
  {
    TrimInputKeepsValue(input);
    assert ValidTerm(TermOf(input, minus));
  }

  /**
   * After `+` the equation ends with `+` and holds one `+` more than before, and
   * the committed terms stay valid.
   */
  lemma AppendTermCounts(ts: seq<Term>, input: string, minus: bool)
    requires ValidTerms(ts) && WellFormedInput(input)
    ensures ValidTerms(ts + [TermOf(input, minus)])
    ensures var e := AppendTerm(EquationOf(ts), input, minus);
      e[|e| - 1] == '+' &&
      CountOccurrence(e, '+') == CountOccurrence(EquationOf(ts), '+') + 1
  {
    var t := TermOf(input, minus);
    AppendTermCommits(ts, input, minus);
    ActualInputTerm(input, minus);
    assert ValidTerms(ts + [t]);
    CommittedShape(ts + [t]);
    CommittedShape(ts);
  }

  /** On a fresh equation, pressing `+` with the input `"0"` writes `"0+"`. */
  lemma AppendTermOnReset()
    ensures AppendTerm("0", "0", false) == "0+"
  {
    assert TrimInput("0") == "0";
  }

  /** Terms committed from a fresh equation: `(-5)+`, the unsigned `0+`, and `2+`. */
  lemma CommitExamples()
    ensures TermOf("5", true) == Term(true, "5") && AppendTerm("0", "5", true) == "(-5)+"
    ensures TermOf("0", true) == Term(false, "0") && AppendTerm("0", "0", true) == "0+"
    ensures TermOf("2", false) == Term(false, "2") && AppendTerm("0", "2", false) == "2+"
    ensures ActualInput("3", false) == "3" && ActualInput("7", false) == "7"
  {
    assert TrimInput("5") == "5" && TrimInput("0") == "0" && TrimInput("2") == "2";
    assert TrimInput("3") == "3" && TrimInput("7") == "7";
  }

  /** A committed term's value ends with a digit, so never with `&`. */
  lemma SignedEndsWithDigit(t: Term)
    requires ValidTerm(t)
    ensures |Signed(t)| > 0 && IsDigit(Signed(t)[|Signed(t)| - 1])
  {
  }
}
