/**
 * The JavaScript string built-ins the calculator relies on, for one-character
 * separators: `String.prototype.split`, its inverse `Array.prototype.join`,
 * and `String.prototype.substring` with its clamping and swapping of indices.
 */
module JsString {

  /** `s.split(sep)`: the pieces of `s` between consecutive occurrences of `sep`. */
  function Split(s: string, sep: char): (parts: seq<string>)
    ensures |parts| >= 1
    ensures forall i :: 0 <= i < |parts| ==> sep !in parts[i]
  {
    if s == [] then [""]
    else
      var init, last := s[..|s| - 1], s[|s| - 1];
      assert s == init + [last];
      var p := Split(init, sep);
      if last == sep then p + [""]
      else p[..|p| - 1] + [p[|p| - 1] + [last]]
  }

  /** `parts.join(sep)`. */
  function Join(parts: seq<string>, sep: char): string
  {
    if |parts| == 0 then ""
    else if |parts| == 1 then parts[0]
    else Join(parts[..|parts| - 1], sep) + [sep] + parts[|parts| - 1]
  }

  /** A join ends with the last character of its last part. */
  lemma JoinLastCharacter(parts: seq<string>, sep: char)
    requires |parts| >= 1 && parts[|parts| - 1] != []
    ensures var j, last := Join(parts, sep), parts[|parts| - 1];
      |j| > 0 && j[|j| - 1] == last[|last| - 1]
  {
  }

  function Clamp(i: int, n: nat): (k: nat)
    ensures k <= n
  {
    if i < 0 then 0 else if i > n then n else i
  }

  /** `s.substring(start, end)`: both indices clamped to `[0, |s|]`, swapped when `start` exceeds `end`. */
  function Substring(s: string, start: int, end: int): (r: string)
    ensures 0 <= start <= end <= |s| ==> r == s[start..end]
    ensures |r| <= |s|
  {
    var a, b := Clamp(start, |s|), Clamp(end, |s|);
    if a <= b then s[a..b] else s[b..a]
  }

  /** `split` yields one more piece than there are separators. */
  lemma {:induction false} SplitCount(s: string, sep: char)
    ensures |Split(s, sep)| == multiset(s)[sep] + 1
  {
    if s != [] {
      var init, last := s[..|s| - 1], s[|s| - 1];
      assert s == init + [last];
      SplitCount(init, sep);
    }
  }

  /** A string without the separator is a single piece. */
  lemma {:induction false} SplitWithoutSeparator(s: string, sep: char)
    requires sep !in s
    ensures Split(s, sep) == [s]
  {
    if s != [] {
      var init := s[..|s| - 1];
      assert s == init + [s[|s| - 1]];
      SplitWithoutSeparator(init, sep);
    }
  }

  /** A separator at the end opens a new, empty piece. */
  lemma SplitSnocSeparator(s: string, sep: char)
    ensures Split(s + [sep], sep) == Split(s, sep) + [""]
  {
    assert (s + [sep])[..|s|] == s;
  }

  /** Any other character at the end extends the last piece. */
  lemma SplitSnocOther(s: string, c: char, sep: char)
    requires c != sep
    ensures var p := Split(s, sep);
      Split(s + [c], sep) == p[..|p| - 1] + [p[|p| - 1] + [c]]
  {
    assert (s + [c])[..|s|] == s;
  }

  /** Extending the last piece of `pa + q` extends the last piece of `q`. */
  lemma ExtendLastPiece(pa: seq<string>, q: seq<string>, c: char)
    requires |q| >= 1
    ensures var x := pa + q;
      x[..|x| - 1] + [x[|x| - 1] + [c]] == pa + (q[..|q| - 1] + [q[|q| - 1] + [c]])
  {
    var x := pa + q;
    assert x[..|x| - 1] == pa + q[..|q| - 1];
  }

  /** Splitting at one occurrence of the separator splits the two sides independently. */
  lemma {:induction false} SplitAppend(a: string, sep: char, b: string)
    ensures Split(a + [sep] + b, sep) == Split(a, sep) + Split(b, sep)
  {
    if b == [] {
      assert a + [sep] + b == a + [sep];
      SplitSnocSeparator(a, sep);
    } else {
      var init, last := b[..|b| - 1], b[|b| - 1];
      var left := a + [sep] + init;
      assert a + [sep] + b == left + [last] && b == init + [last];
      SplitAppend(a, sep, init);
      if last == sep {
        SplitSnocSeparator(left, sep);
        SplitSnocSeparator(init, sep);
      } else {
        SplitSnocOther(left, last, sep);
        SplitSnocOther(init, last, sep);
        ExtendLastPiece(Split(a, sep), Split(init, sep), last);
      }
    }
  }

  /** `join` undoes `split`. */
  lemma {:induction false} JoinSplit(s: string, sep: char)
    ensures Join(Split(s, sep), sep) == s
  {
    if s != [] {
      var init, last := s[..|s| - 1], s[|s| - 1];
      assert s == init + [last];
      JoinSplit(init, sep);
      var p := Split(init, sep);
      if last != sep {
        var q := p[..|p| - 1] + [p[|p| - 1] + [last]];
        assert Split(s, sep) == q;
        if |p| > 1 {
          assert q[..|q| - 1] == p[..|p| - 1];
        }
      } else {
        assert Split(s, sep) == p + [""];
        assert (p + [""])[..|p|] == p;
      }
    }
  }

  /** `split` undoes `join` when no piece holds the separator. */
  lemma {:induction false} SplitJoin(parts: seq<string>, sep: char)
    requires |parts| >= 1
    requires forall i :: 0 <= i < |parts| ==> sep !in parts[i]
    ensures Split(Join(parts, sep), sep) == parts
  {
    var last := parts[|parts| - 1];
    SplitWithoutSeparator(last, sep);
    if |parts| > 1 {
      var init := parts[..|parts| - 1];
      assert forall i :: 0 <= i < |init| ==> sep !in init[i];
      SplitJoin(init, sep);
      assert Join(parts, sep) == Join(init, sep) + [sep] + last;
      SplitAppend(Join(init, sep), sep, last);
      assert parts == init + [last];
    }
  }
}
