/**
 * The string operations the tracker relies on: Python's `str.strip()` with
 * no arguments and `str.split(sep)` with an explicit separator.
 */
module Text {

  /** Python's `str.isspace` restricted to ASCII: space, \t \n \v \f \r and \x1c-\x1f. */
  predicate IsSpace(c: char) {
    c == ' ' || ('\t' <= c <= '\r') || ('\U{1C}' <= c <= '\U{1F}')
  }

  predicate AllSpace(s: string) {
    forall i :: 0 <= i < |s| ==> IsSpace(s[i])
  }

  /** Neither the first nor the last character is whitespace. */
  predicate IsTrimmed(s: string) {
    s == [] || (!IsSpace(s[0]) && !IsSpace(s[|s| - 1]))
  }

  /** The first index at or after `i` that does not hold whitespace, or `|s|`. */
  function SkipSpace(s: string, i: nat): (j: nat)
    requires i <= |s|
    ensures i <= j <= |s|
    ensures j == |s| || !IsSpace(s[j])
    decreases |s| - i
  {
    if i < |s| && IsSpace(s[i]) then SkipSpace(s, i + 1) else i
  }

  /** Moving back from `j` towards `lo` over whitespace: the end of the last visible character. */
  function BackSpace(s: string, lo: nat, j: nat): (k: nat)
    requires lo <= j <= |s|
    ensures lo <= k <= j
    ensures k == lo || !IsSpace(s[k - 1])
    decreases j
  {
    if j > lo && IsSpace(s[j - 1]) then BackSpace(s, lo, j - 1) else j
  }

  lemma {:induction false} SkipSpaceSkips(s: string, i: nat)
    requires i <= |s|
    ensures forall k :: i <= k < SkipSpace(s, i) ==> IsSpace(s[k])
    decreases |s| - i
  {
    if i < |s| && IsSpace(s[i]) {
      SkipSpaceSkips(s, i + 1);
    }
  }

  lemma {:induction false} BackSpaceSkips(s: string, lo: nat, j: nat)
    requires lo <= j <= |s|
    ensures forall k :: BackSpace(s, lo, j) <= k < j ==> IsSpace(s[k])
    decreases j
  {
    if j > lo && IsSpace(s[j - 1]) {
      BackSpaceSkips(s, lo, j - 1);
    }
  }

  /** `s.strip()`: no whitespace is left at either end. */
  function Strip(s: string): (r: string)
    ensures IsTrimmed(r)
  {
    var i := SkipSpace(s, 0);
    var j := BackSpace(s, i, |s|);
    s[i..j]
  }

  /**
   * What `strip` removes: the result is the slice `s[i..j]`, and everything
   * before `i` and after `j` is whitespace.
   */
  lemma StripSlice(s: string) returns (i: nat, j: nat)
    ensures i <= j <= |s| && Strip(s) == s[i..j]
    ensures AllSpace(s[..i]) && AllSpace(s[j..])
  {
    i := SkipSpace(s, 0);
    j := BackSpace(s, i, |s|);
    SkipSpaceSkips(s, 0);
    BackSpaceSkips(s, i, |s|);
    assert forall k :: 0 <= k < |s[j..]| ==> s[j..][k] == s[j + k];
  }

  /** `strip()` leaves nothing exactly when everything is whitespace. */
  lemma StripEmptyIff(s: string)
    ensures Strip(s) == [] <==> AllSpace(s)
  {
    var i := SkipSpace(s, 0);
    var j := BackSpace(s, i, |s|);
    SkipSpaceSkips(s, 0);
    BackSpaceSkips(s, i, |s|);
  }

  /** Text with no whitespace at either end is left as it is. */
  lemma StripTrimmed(t: string)
    requires IsTrimmed(t)
    ensures Strip(t) == t
  {
    assert SkipSpace(t, 0) == 0;
    assert BackSpace(t, 0, |t|) == |t|;
    assert t[0..|t|] == t;
  }

  lemma StripIdempotent(s: string)
    ensures Strip(Strip(s)) == Strip(s)
  {
    StripTrimmed(Strip(s));
  }

  /** `s.split(sep)`: the pieces between occurrences of `sep`, always at least one. */
  function SplitOn(s: string, sep: char): (parts: seq<string>)
    ensures |parts| >= 1
    ensures forall k :: 0 <= k < |parts| ==> sep !in parts[k]
  {
    if |s| == 0 then [""]
    else
      var rest := SplitOn(s[1..], sep);
      if s[0] == sep then [""] + rest
      else [[s[0]] + rest[0]] + rest[1..]
  }

  /** `sep.join(parts)`. */
  function Join(parts: seq<string>, sep: char): string {
    if |parts| == 0 then ""
    else if |parts| == 1 then parts[0]
    else parts[0] + [sep] + Join(parts[1..], sep)
  }

  /** Splitting loses nothing: joining the pieces back gives the original text. */
  lemma {:induction false} JoinSplit(s: string, sep: char)
    ensures Join(SplitOn(s, sep), sep) == s
    decreases |s|
  {
    if |s| > 0 {
      var rest := SplitOn(s[1..], sep);
      JoinSplit(s[1..], sep);
      if s[0] == sep {
        assert s == [sep] + s[1..];
      } else {
        if |rest| == 1 {
          assert s == [s[0]] + s[1..];
        } else {
          assert Join(rest, sep) == rest[0] + [sep] + Join(rest[1..], sep);
          assert s == [s[0]] + s[1..];
        }
      }
    }
  }

  /** Pieces that do not contain the separator come back unchanged from a join. */
  lemma {:induction false} SplitJoin(parts: seq<string>, sep: char)
    requires |parts| >= 1
    requires forall k :: 0 <= k < |parts| ==> sep !in parts[k]
    ensures SplitOn(Join(parts, sep), sep) == parts
    decreases |parts|, |parts[0]|
  {
    var p := parts[0];
    if |p| == 0 {
      if |parts| > 1 {
        SplitJoin(parts[1..], sep);
        var s := Join(parts, sep);
        assert s == [sep] + Join(parts[1..], sep);
        assert s[1..] == Join(parts[1..], sep);
        assert parts == [""] + parts[1..];
      }
    } else {
      var tail := [p[1..]] + parts[1..];
      SplitJoin(tail, sep);
      var s := Join(parts, sep);
      if |parts| == 1 {
        assert s == p && s[1..] == Join(tail, sep);
      } else {
        assert Join(tail, sep) == p[1..] + [sep] + Join(parts[1..], sep);
        assert s[1..] == Join(tail, sep);
      }
      assert s[0] == p[0] && p[0] != sep;
      assert [p[0]] + p[1..] == p;
      assert tail[1..] == parts[1..];
    }
  }
}
