/**
 * The string helpers of src/Globals.js: `trim`, `countOccurrence`, and the
 * random two-letter identifiers `nextId` builds from `nextInt`.
 */
module Globals {
  import JsString

  /** `r` is `s` without its maximal trailing run of `c`. */
  predicate StripsTrailingRun(s: string, c: char, r: string)
  {
    |r| <= |s| && r == s[..|r|] &&
    (forall i :: |r| <= i < |s| ==> s[i] == c) &&
    (|r| == 0 || r[|r| - 1] != c)
  }

  function TrimRun(s: string, c: char): (r: string)
    ensures StripsTrailingRun(s, c, r)
  {
    if |s| > 0 && s[|s| - 1] == c then TrimRun(s[..|s| - 1], c) else s
  }

  /**
   * `trim(s, c)`: the source replaces the regular expression `[c]+$` by nothing.
   * Escaping `]` and `\` keeps those two characters literal; the caret is not
   * escaped, and the class `[^]` matches every character, so the whole string goes.
   */
  function Trim(s: string, c: char): (r: string)
    ensures c != '^' ==> StripsTrailingRun(s, c, r)
    ensures c == '^' ==> r == ""
  {
    if c == '^' then "" else TrimRun(s, c)
  }

  /** The trailing-run description determines the trimmed string: no other prefix has it. */
  lemma TrimUnique(s: string, c: char, p: string)
    requires c != '^'
    requires StripsTrailingRun(s, c, p)
    ensures p == Trim(s, c)
  {
  }

  /** A string that does not end with `c` comes back unchanged. */
  lemma TrimUntrailed(s: string, c: char)
    requires c != '^'
    requires |s| == 0 || s[|s| - 1] != c
    ensures Trim(s, c) == s
  {
  }

  /** Trimming twice trims nothing more. */
  lemma TrimIdempotent(s: string, c: char)
    ensures Trim(Trim(s, c), c) == Trim(s, c)
  {
    if c != '^' {
      TrimUntrailed(Trim(s, c), c);
    }
  }

  /** The example of the doc comment on `trim`. */
  lemma TrimDocExample()
    ensures Trim("++c++", '+') == "++c"
  {
    TrimUnique("++c++", '+', "++c");
  }

  /** Only the trailing run goes: every other character keeps its number of occurrences. */
  lemma {:induction false} TrimKeepsOtherCharacters(s: string, c: char, x: char)
    requires c != '^' && x != c
    ensures multiset(Trim(s, c))[x] == multiset(s)[x]
  {
    var r := Trim(s, c);
    if |r| < |s| {
      var init := s[..|s| - 1];
      assert s == init + [c];
      assert StripsTrailingRun(init, c, r);
      TrimUnique(init, c, r);
      TrimKeepsOtherCharacters(init, c, x);
    }
  }

  /** `countOccurrence(string, char)`: the number of pieces `split` makes, less one. */
  function CountOccurrence(s: string, ch: char): (n: nat)
    ensures n == multiset(s)[ch]
  {
    JsString.SplitCount(s, ch);
    |JsString.Split(s, ch)| - 1
  }

  /** The count is the number of positions holding the character. */
  lemma {:induction false} CountOccurrenceIndices(s: string, ch: char)
    ensures CountOccurrence(s, ch) == |set i | 0 <= i < |s| && s[i] == ch|
  {
    if s != [] {
      var init := s[..|s| - 1];
      assert s == init + [s[|s| - 1]];
      CountOccurrenceIndices(init, ch);
      var before := set i | 0 <= i < |init| && init[i] == ch;
      var after := set i | 0 <= i < |s| && s[i] == ch;
      if s[|s| - 1] == ch {
        assert after == before + {|s| - 1};
      } else {
        assert after == before;
      }
    }
  }

  /** A value `Math.random()` can return. */
  predicate IsUnit(x: real)
  {
    0.0 <= x < 1.0
  }

  /** `nextInt(min, max)` for the draw `x` of `Math.random()`: `Math.floor(x * (max - min + 1)) + min`. */
  function NextInt(x: real, min: int, max: int): (n: int)
    requires IsUnit(x) && min <= max
    ensures min <= n <= max
  {
    var width := (max - min + 1) as real;
    assert x * width < width by {
      assert (1.0 - x) * width > 0.0;
    }
    (x * width).Floor + min
  }

  /** The digit `Number.prototype.toString(36)` writes for a value below 36. */
  function Base36Digit(d: int): (c: char)
    requires 0 <= d < 36
    ensures DigitValue(c) == d
    ensures d < 10 <==> '0' <= c <= '9'
    ensures d >= 10 <==> IsLower(c)
  {
    if d < 10 then ('0' as int + d) as char else ('a' as int + d - 10) as char
  }

  /** `n.toString(36)` for a natural number: base-36 digits, the most significant first. */
  function ToBase36(n: nat): (s: string)
    ensures |s| > 0 && forall i :: 0 <= i < |s| ==> '0' <= s[i] <= '9' || IsLower(s[i])
    ensures 10 <= n < 36 ==> |s| == 1 && IsLower(s[0])
  {
    if n < 36 then [Base36Digit(n)] else ToBase36(n / 36) + [Base36Digit(n % 36)]
  }

  function DigitValue(c: char): int
  {
    if '0' <= c <= '9' then c as int - '0' as int else c as int - 'a' as int + 10
  }

  /** `parseInt(s, 36)` on the digits `toString(36)` writes. */
  function FromBase36(s: string): int
  {
    if s == [] then 0 else FromBase36(s[..|s| - 1]) * 36 + DigitValue(s[|s| - 1])
  }

  /** Reading the base-36 rendering back gives the number. */
  lemma {:induction false} Base36RoundTrip(n: nat)
    ensures FromBase36(ToBase36(n)) == n
  {
    if n >= 36 {
      var s := ToBase36(n / 36);
      Base36RoundTrip(n / 36);
      assert (s + [Base36Digit(n % 36)])[..|s|] == s;
    }
  }

  predicate IsLower(c: char)
  {
    'a' <= c <= 'z'
  }

  /** `nextId()` for the two draws `x`, `y` of `Math.random()` its two `nextInt()` calls consume. */
  function NextId(x: real, y: real): (id: string)
    requires IsUnit(x) && IsUnit(y)
    ensures |id| == 2 && IsLower(id[0]) && IsLower(id[1])
    ensures FromBase36(id[..1]) == NextInt(x, 10, 35) && FromBase36(id[1..]) == NextInt(y, 10, 35)
  {
    var a, b := NextInt(x, 10, 35), NextInt(y, 10, 35);
    Base36RoundTrip(a);
    Base36RoundTrip(b);
    var id := ToBase36(a) + ToBase36(b);
    assert id[..1] == ToBase36(a) && id[1..] == ToBase36(b);
    id
  }
}
