/** String operations the source takes from Python's `str` type, over ASCII. */
module Text {

  predicate IsDigit(c: char) {
    '0' <= c <= '9'
  }

  /** `s.isdigit()`: non-empty and made of decimal digits only. */
  predicate IsAllDigits(s: string) {
    |s| > 0 && forall i :: 0 <= i < |s| ==> IsDigit(s[i])
  }

  /** `s.endswith(suffix)`. */
  predicate EndsWith(s: string, suffix: string) {
    |suffix| <= |s| && s[|s| - |suffix|..] == suffix
  }

  /** `needle` occurs in `s` starting at index `i`. */
  predicate OccursAt(s: string, needle: string, i: int) {
    0 <= i <= |s| - |needle| && s[i..i + |needle|] == needle
  }

  /** `needle in s` for strings: `needle` occurs as a contiguous infix. */
  predicate Contains(s: string, needle: string) {
    exists i :: 0 <= i <= |s| - |needle| && OccursAt(s, needle, i)
  }

  function LowerChar(c: char): char {
    if 'A' <= c <= 'Z' then (c as int + 32) as char else c
  }

  /** `s.lower()` on ASCII letters. */
  function Lower(s: string): (r: string)
    ensures |r| == |s|
    ensures forall i :: 0 <= i < |s| ==> r[i] == LowerChar(s[i])
  {
    seq(|s|, i requires 0 <= i < |s| => LowerChar(s[i]))
  }

  /** Case-insensitive equality as the source writes it: `a.lower() == b.lower()`. */
  predicate EqualsIgnoringCase(a: string, b: string) {
    Lower(a) == Lower(b)
  }

  /** The longest prefix of `s` holding none of `stops`. */
  function TakeUntil(s: string, stops: set<char>): (r: string)
    ensures |r| <= |s| && r == s[..|r|]
    ensures forall i :: 0 <= i < |r| ==> r[i] !in stops
    ensures |r| < |s| ==> s[|r|] in stops
  {
    if |s| == 0 || s[0] in stops then "" else [s[0]] + TakeUntil(s[1..], stops)
  }

  /** `TakeUntil` stops exactly where a stop-free prefix meets a stop character. */
  lemma {:induction false} TakeUntilStopsAtBoundary(a: string, b: string, stops: set<char>)
    requires forall i :: 0 <= i < |a| ==> a[i] !in stops
    requires b == [] || b[0] in stops
    ensures TakeUntil(a + b, stops) == a
  {
    if |a| > 0 {
      assert (a + b)[1..] == a[1..] + b;
      TakeUntilStopsAtBoundary(a[1..], b, stops);
    }
  }

  /** What follows `TakeUntil(s, stops)`: empty, or starting with a stop character. */
  function DropUntil(s: string, stops: set<char>): (r: string)
    ensures TakeUntil(s, stops) + r == s
    ensures r == [] || r[0] in stops
  {
    s[|TakeUntil(s, stops)|..]
  }

  /** `s.lstrip(c)`: the leading run of `c` removed. */
  function StripStart(s: string, c: char): string
  {
    if |s| > 0 && s[0] == c then StripStart(s[1..], c) else s
  }

  /** `lstrip` removes exactly the leading run of `c`: what it drops is all
      `c`, and what it keeps is a suffix that does not start with `c`. */
  lemma {:induction false} StripStartShape(s: string, c: char)
    ensures var r := StripStart(s, c);
            && |r| <= |s| && r == s[|s| - |r|..]
            && (forall i :: 0 <= i < |s| - |r| ==> s[i] == c)
            && (r == [] || r[0] != c)
  {
    if |s| > 0 && s[0] == c {
      StripStartShape(s[1..], c);
    }
  }

  /** `s.rstrip(c)`: the trailing run of `c` removed. */
  function StripEnd(s: string, c: char): string
  {
    if |s| > 0 && s[|s| - 1] == c then StripEnd(s[..|s| - 1], c) else s
  }

  /** `rstrip` removes exactly the trailing run of `c`. */
  lemma {:induction false} StripEndShape(s: string, c: char)
    ensures var r := StripEnd(s, c);
            && |r| <= |s| && r == s[..|r|]
            && (forall i :: |r| <= i < |s| ==> s[i] == c)
            && (r == [] || r[|r| - 1] != c)
  {
    if |s| > 0 && s[|s| - 1] == c {
      StripEndShape(s[..|s| - 1], c);
    }
  }

  /** `s.strip(c)`: both runs removed. */
  function Strip(s: string, c: char): string
  {
    StripEnd(StripStart(s, c), c)
  }

  /** The stripped text is an infix of `s` that neither starts nor ends with
      `c`, and everything around it is `c`. */
  lemma StripShape(s: string, c: char)
    ensures var r := Strip(s, c);
            && (r == [] || (r[0] != c && r[|r| - 1] != c))
            && exists i :: OccursAt(s, r, i)
                 && (forall k :: 0 <= k < i ==> s[k] == c)
                 && (forall k :: i + |r| <= k < |s| ==> s[k] == c)
  {
    var left := StripStart(s, c);
    StripStartShape(s, c);
    StripEndShape(left, c);
    var r := StripEnd(left, c);
    var i := |s| - |left|;
    assert s[i..i + |r|] == r;
    forall k | i + |r| <= k < |s| ensures s[k] == c {
      assert s[k] == left[k - i];
    }
    assert OccursAt(s, r, i)
           && (forall k :: 0 <= k < i ==> s[k] == c)
           && (forall k :: i + |r| <= k < |s| ==> s[k] == c);
  }

  /** `s.split(sep)[-1]`: the text after the last `sep`, or all of `s` when there is none. */
  function LastSegment(s: string, sep: char): string
  {
    if |s| == 0 || s[|s| - 1] == sep then "" else LastSegment(s[..|s| - 1], sep) + [s[|s| - 1]]
  }

  /** The last segment holds no separator and ends `s`, right after a
      separator unless it is all of `s`. */
  lemma {:induction false} LastSegmentShape(s: string, sep: char)
    ensures var r := LastSegment(s, sep);
            && sep !in r
            && |r| <= |s| && r == s[|s| - |r|..]
            && (|r| < |s| ==> s[|s| - |r| - 1] == sep)
  {
    if |s| > 0 && s[|s| - 1] != sep {
      LastSegmentShape(s[..|s| - 1], sep);
    }
  }

  /** `sep.join(parts)`. */
  function Join(parts: seq<string>, sep: string): string
  {
    if |parts| == 0 then ""
    else if |parts| == 1 then parts[0]
    else Join(parts[..|parts| - 1], sep) + sep + parts[|parts| - 1]
  }

  /** Every part occurs in the joined string, right after a separator unless
      it is the first part. */
  lemma {:induction false} JoinHoldsParts(parts: seq<string>, sep: string, i: int) returns (k: int)
    requires 0 <= i < |parts|
    ensures OccursAt(Join(parts, sep), parts[i], k)
    ensures i > 0 ==> OccursAt(Join(parts, sep), sep, k - |sep|)
  {
    if |parts| == 1 {
      k := 0;
    } else {
      var front := Join(parts[..|parts| - 1], sep);
      var joined := Join(parts, sep);
      assert joined == front + sep + parts[|parts| - 1];
      if i == |parts| - 1 {
        k := |front| + |sep|;
        assert joined[k..k + |parts[i]|] == parts[i];
        assert joined[k - |sep|..k] == sep;
      } else {
        k := JoinHoldsParts(parts[..|parts| - 1], sep, i);
        assert parts[..|parts| - 1][i] == parts[i];
        OccursInPrefix(front, sep + parts[|parts| - 1], parts[i], k);
        if i > 0 {
          OccursInPrefix(front, sep + parts[|parts| - 1], sep, k - |sep|);
        }
        assert joined == front + (sep + parts[|parts| - 1]);
      }
    }
  }

  /** An occurrence in `s` is an occurrence in `s + t` at the same place. */
  lemma OccursInPrefix(s: string, t: string, needle: string, k: int)
    requires OccursAt(s, needle, k)
    ensures OccursAt(s + t, needle, k)
  {
    assert (s + t)[k..k + |needle|] == s[k..k + |needle|];
  }
}
