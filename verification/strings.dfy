/** Character-sequence helpers shared by the normaliser, the tokeniser and the
    intent matcher: substring search, maximal runs of a character class, and
    joining words with single spaces. */
module Strings {

  /** p is an initial piece of s. */
  predicate IsPrefix(p: string, s: string) {
    |p| <= |s| && s[..|p|] == p
  }

  /** p occurs somewhere in t as a contiguous piece; the empty string occurs everywhere. */
  ghost predicate IsSubstring(p: string, t: string) {
    exists i :: 0 <= i <= |t| && IsPrefix(p, t[i..])
  }

  /** Python's `p in t` on strings: try every start position, left to right. */
  function Contains(t: string, p: string): bool
    decreases |t|
  {
    if IsPrefix(p, t) then true
    else if t == [] then false
    else Contains(t[1..], p)
  }

  /** The scan finds p exactly when p occurs in t. */
  lemma {:induction false} ContainsIsSubstring(t: string, p: string)
    ensures Contains(t, p) <==> IsSubstring(p, t)
    decreases |t|
  {
    if IsPrefix(p, t) {
      assert t[0..] == t;
    } else if t == [] {
    } else {
      ContainsIsSubstring(t[1..], p);
      if IsSubstring(p, t[1..]) {
        var i :| 0 <= i <= |t[1..]| && IsPrefix(p, t[1..][i..]);
        assert t[1..][i..] == t[i + 1..];
      }
      if IsSubstring(p, t) {
        var i :| 0 <= i <= |t| && IsPrefix(p, t[i..]);
        assert i != 0 by { assert t[0..] == t; }
        assert t[1..][i - 1..] == t[i..];
      }
    }
  }

  /** Length of the longest prefix of s whose characters all satisfy inRun. */
  function RunLength(s: string, inRun: char -> bool): (n: nat)
    ensures n <= |s|
    ensures forall i :: 0 <= i < n ==> inRun(s[i])
    ensures n < |s| ==> !inRun(s[n])
    decreases |s|
  {
    if s == [] || !inRun(s[0]) then 0 else 1 + RunLength(s[1..], inRun)
  }

  /** The maximal runs of characters satisfying inRun, left to right: what a
      regular-expression scan for `[class]+` reports. */
  function Runs(s: string, inRun: char -> bool): (rs: seq<string>)
    ensures forall k :: 0 <= k < |rs| ==> rs[k] != []
    ensures forall k, j :: 0 <= k < |rs| && 0 <= j < |rs[k]| ==> inRun(rs[k][j])
    decreases |s|
  {
    if s == [] then []
    else if !inRun(s[0]) then Runs(s[1..], inRun)
    else
      var n := RunLength(s, inRun);
      [s[..n]] + Runs(s[n..], inRun)
  }

  /** A prefix of characters outside the class contributes no run. */
  lemma {:induction false} RunsSkipOutside(pre: string, s: string, inRun: char -> bool)
    requires forall i :: 0 <= i < |pre| ==> !inRun(pre[i])
    ensures Runs(pre + s, inRun) == Runs(s, inRun)
    decreases |pre|
  {
    if pre != [] {
      var t := pre + s;
      assert t[0] == pre[0] && !inRun(t[0]);
      assert t[1..] == pre[1..] + s;
      RunsSkipOutside(pre[1..], s, inRun);
    } else {
      assert pre + s == s;
    }
  }

  /** A string with no character of the class has no runs. */
  lemma RunsNone(s: string, inRun: char -> bool)
    requires forall i :: 0 <= i < |s| ==> !inRun(s[i])
    ensures Runs(s, inRun) == []
  {
    RunsSkipOutside(s, [], inRun);
    assert s + [] == s;
  }

  /** A suffix of characters outside the class contributes no run. */
  lemma RunsDropOutsideSuffix(s: string, suf: string, inRun: char -> bool)
    requires forall i :: 0 <= i < |suf| ==> !inRun(suf[i])
    ensures Runs(s + suf, inRun) == Runs(s, inRun)
  {
    if suf == [] {
      assert s + suf == s;
    } else {
      assert s + suf == s + [suf[0]] + suf[1..];
      RunsSplit(s, suf[0], suf[1..], inRun);
      RunsNone(suf[1..], inRun);
    }
  }

  /** A non-empty string made only of class characters is a single run. */
  lemma RunsWhole(w: string, inRun: char -> bool)
    requires w != []
    requires forall i :: 0 <= i < |w| ==> inRun(w[i])
    ensures Runs(w, inRun) == [w]
  {
    var n := RunLength(w, inRun);
    assert n == |w|;
    assert w[..n] == w;
  }

  /** A run cannot extend past a character outside the class. */
  lemma {:induction false} RunLengthStopsAt(a: string, c: char, b: string, inRun: char -> bool)
    requires !inRun(c)
    ensures RunLength(a + [c] + b, inRun) == RunLength(a, inRun)
    decreases |a|
  {
    if a != [] && inRun(a[0]) {
      assert (a + [c] + b)[1..] == a[1..] + [c] + b;
      RunLengthStopsAt(a[1..], c, b, inRun);
    }
  }

  /** A character outside the class separates: the runs of `a c b` are the runs
      of a followed by the runs of b. */
  lemma {:induction false} RunsSplit(a: string, c: char, b: string, inRun: char -> bool)
    requires !inRun(c)
    ensures Runs(a + [c] + b, inRun) == Runs(a, inRun) + Runs(b, inRun)
    decreases |a|
  {
    var s := a + [c] + b;
    if a == [] {
      assert s[1..] == b;
    } else if !inRun(a[0]) {
      assert s[1..] == a[1..] + [c] + b;
      RunsSplit(a[1..], c, b, inRun);
    } else {
      var n := RunLength(a, inRun);
      RunLengthStopsAt(a, c, b, inRun);
      assert s[..n] == a[..n];
      assert s[n..] == a[n..] + [c] + b;
      RunsSplit(a[n..], c, b, inRun);
    }
  }

  /** Every run is a piece of the string it was taken from. */
  lemma {:induction false} RunsAreSubstrings(s: string, inRun: char -> bool, k: nat)
    requires k < |Runs(s, inRun)|
    ensures IsSubstring(Runs(s, inRun)[k], s)
    decreases |s|
  {
    var w := Runs(s, inRun)[k];
    if !inRun(s[0]) {
      RunsAreSubstrings(s[1..], inRun, k);
      var i :| 0 <= i <= |s[1..]| && IsPrefix(w, s[1..][i..]);
      assert s[1..][i..] == s[i + 1..];
    } else {
      var n := RunLength(s, inRun);
      if k == 0 {
        assert s[0..] == s;
      } else {
        RunsAreSubstrings(s[n..], inRun, k - 1);
        var i :| 0 <= i <= |s[n..]| && IsPrefix(w, s[n..][i..]);
        assert s[n..][i..] == s[n + i..];
      }
    }
  }

  /** The words joined with one space between neighbours: Python's `" ".join(ws)`. */
  function JoinWords(ws: seq<string>): string
    decreases |ws|
  {
    if ws == [] then []
    else if |ws| == 1 then ws[0]
    else ws[0] + " " + JoinWords(ws[1..])
  }
}
