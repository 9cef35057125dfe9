/** Whitespace normalisation of recogniser text (`normalize_space` in
    interrupt_filter.py): strip, lowercase, collapse whitespace runs. */
module Normalize {
  import opened Strings

  /** Python's whitespace: the characters `str.isspace()` accepts. Both
      `str.strip()` and the `\s` class of a str pattern use this set. */
  predicate IsSpace(c: char) {
    || c == ' '
    || '\t' <= c <= '\r'
    || '\U{1c}' <= c <= '\U{1f}'
    || c == '\U{85}' || c == '\U{a0}' || c == '\U{1680}'
    || '\U{2000}' <= c <= '\U{200a}'
    || c == '\U{2028}' || c == '\U{2029}' || c == '\U{202f}' || c == '\U{205f}'
    || c == '\U{3000}'
  }

  predicate NotSpace(c: char) {
    !IsSpace(c)
  }

  predicate IsUpper(c: char) {
    'A' <= c <= 'Z'
  }

  /** Lowercasing, restricted to the ASCII letters. */
  function LowerChar(c: char): char {
    if IsUpper(c) then (c as int + 32) as char else c
  }

  function Lower(s: string): string {
    seq(|s|, i requires 0 <= i < |s| => LowerChar(s[i]))
  }

  ghost predicate AllSpace(s: string) {
    forall i :: 0 <= i < |s| ==> IsSpace(s[i])
  }

  /** Drops the leading whitespace: Python's `str.lstrip()`. What is dropped
      is all whitespace and what is kept does not start with whitespace. */
  function TrimStart(s: string): (r: string)
    ensures |r| <= |s|
    decreases |s|
  {
    if s != [] && IsSpace(s[0]) then TrimStart(s[1..]) else s
  }

  lemma {:induction false} TrimStartSpec(s: string)
    ensures TrimStart(s) == s[|s| - |TrimStart(s)|..]
    ensures forall i :: 0 <= i < |s| - |TrimStart(s)| ==> IsSpace(s[i])
    ensures TrimStart(s) != [] ==> !IsSpace(TrimStart(s)[0])
    decreases |s|
  {
    if s != [] && IsSpace(s[0]) {
      TrimStartSpec(s[1..]);
    }
  }

  /** Drops the trailing whitespace: Python's `str.rstrip()`. */
  function TrimEnd(s: string): (r: string)
    ensures |r| <= |s|
    decreases |s|
  {
    if s != [] && IsSpace(s[|s| - 1]) then TrimEnd(s[..|s| - 1]) else s
  }

  lemma {:induction false} TrimEndSpec(s: string)
    ensures TrimEnd(s) == s[..|TrimEnd(s)|]
    ensures forall i :: |TrimEnd(s)| <= i < |s| ==> IsSpace(s[i])
    ensures TrimEnd(s) != [] ==> !IsSpace(TrimEnd(s)[|TrimEnd(s)| - 1])
    decreases |s|
  {
    if s != [] && IsSpace(s[|s| - 1]) {
      TrimEndSpec(s[..|s| - 1]);
    }
  }

  /** Python's `str.strip()`. */
  function Strip(s: string): string {
    TrimEnd(TrimStart(s))
  }

  /** No whitespace at either end. */
  ghost predicate NoEdgeSpace(s: string) {
    s == [] || (!IsSpace(s[0]) && !IsSpace(s[|s| - 1]))
  }

  ghost predicate NoUpper(s: string) {
    forall i :: 0 <= i < |s| ==> !IsUpper(s[i])
  }

  /** The only whitespace is the plain space, and never two in a row. */
  ghost predicate SingleSpaced(s: string) {
    && (forall i :: 0 <= i < |s| && IsSpace(s[i]) ==> s[i] == ' ')
    && (forall i :: 0 <= i < |s| - 1 ==> !(s[i] == ' ' && s[i + 1] == ' '))
  }

  /** The shape every normalised text has. */
  ghost predicate IsNormalized(s: string) {
    NoEdgeSpace(s) && NoUpper(s) && SingleSpaced(s)
  }

  /** Replaces every maximal run of whitespace by one space, as
      `re.sub(r"\s+", " ", s)` does. */
  function Collapse(s: string): (r: string)
    ensures |r| <= |s|
    decreases |s|
  {
    if s == [] then []
    else if IsSpace(s[0]) then [' '] + Collapse(TrimStart(s))
    else [s[0]] + Collapse(s[1..])
  }

  /** Collapsing leaves single spaces only, keeps the text empty exactly when
      it was, keeps whether each end is whitespace, and adds no upper case. */
  lemma {:induction false} CollapseShape(s: string)
    ensures Collapse(s) == [] <==> s == []
    ensures SingleSpaced(Collapse(s))
    ensures s != [] ==> (IsSpace(Collapse(s)[0]) <==> IsSpace(s[0]))
    ensures s != [] ==> (IsSpace(Collapse(s)[|Collapse(s)| - 1]) <==> IsSpace(s[|s| - 1]))
    ensures NoUpper(s) ==> NoUpper(Collapse(s))
    decreases |s|
  {
    if s != [] {
      var r := Collapse(s);
      if IsSpace(s[0]) {
        var t := TrimStart(s);
        TrimStartSpec(s);
        var c := Collapse(t);
        assert r == [' '] + c;
        CollapseShape(t);
        if t != [] {
          assert t[|t| - 1] == s[|s| - 1];
        }
      } else {
        var c := Collapse(s[1..]);
        assert r == [s[0]] + c;
        CollapseShape(s[1..]);
      }
    }
  }

  /** Stripped text has no whitespace at either end, and is empty exactly
      when the text is all whitespace. */
  lemma StripShape(s: string)
    ensures NoEdgeSpace(Strip(s))
    ensures Strip(s) == [] <==> AllSpace(s)
  {
    TrimStartSpec(s);
    TrimEndSpec(TrimStart(s));
  }

  /** `normalize_space`: strip, lowercase, then collapse whitespace runs. */
  function NormalizeSpace(text: string): string {
    Collapse(Lower(Strip(text)))
  }

  /** Normalised text is in normal form. */
  lemma NormalizeShape(text: string)
    ensures IsNormalized(NormalizeSpace(text))
  {
    StripShape(text);
    CollapseShape(Lower(Strip(text)));
  }

  /** Collapsing text that is already single-spaced changes nothing. */
  lemma {:induction false} CollapseFixpoint(s: string)
    requires SingleSpaced(s)
    ensures Collapse(s) == s
    decreases |s|
  {
    if s != [] {
      assert SingleSpaced(s[1..]);
      if IsSpace(s[0]) {
        TrimStartSpec(s[1..]);
        assert TrimStart(s) == s[1..];
      }
      CollapseFixpoint(s[1..]);
    }
  }

  /** Text already in normal form is its own normalisation. */
  lemma NormalizeFixpoint(s: string)
    requires IsNormalized(s)
    ensures NormalizeSpace(s) == s
  {
    assert TrimStart(s) == s;
    assert TrimEnd(s) == s;
    assert Lower(s) == s;
    CollapseFixpoint(s);
  }

  /** Normalising twice is normalising once; the filter relies on this when it
      normalises text that is already normalised. */
  lemma NormalizeIdempotent(s: string)
    ensures NormalizeSpace(NormalizeSpace(s)) == NormalizeSpace(s)
  {
    NormalizeShape(s);
    NormalizeFixpoint(NormalizeSpace(s));
  }

  /** Normalisation yields the empty string exactly for all-whitespace text. */
  lemma NormalizeEmpty(s: string)
    ensures NormalizeSpace(s) == [] <==> AllSpace(s)
  {
    StripShape(s);
    CollapseShape(Lower(Strip(s)));
  }

  /** A leading word (no whitespace) passes through collapsing untouched. */
  lemma {:induction false} CollapseKeepsWord(w: string, rest: string)
    requires forall i :: 0 <= i < |w| ==> !IsSpace(w[i])
    ensures Collapse(w + rest) == w + Collapse(rest)
    decreases |w|
  {
    if w == [] {
      assert w + rest == rest;
    } else {
      var s := w + rest;
      assert s[0] == w[0];
      assert s[1..] == w[1..] + rest;
      CollapseKeepsWord(w[1..], rest);
      assert [w[0]] + w[1..] == w;
    }
  }

  /** Joining a word in front of a non-empty list puts one space after it. */
  lemma JoinWordsCons(w: string, ws: seq<string>)
    requires ws != []
    ensures JoinWords([w] + ws) == w + " " + JoinWords(ws)
  {
    assert ([w] + ws)[1..] == ws;
  }

  /** Collapsing text that starts with whitespace and ends without it: one
      space, then the collapse of the rest after the whitespace run. */
  lemma CollapseAfterSpace(rest: string) returns (z: string)
    requires rest != [] && IsSpace(rest[0]) && !IsSpace(rest[|rest| - 1])
    ensures z != [] && |z| < |rest| && NoEdgeSpace(z)
    ensures Collapse(rest) == [' '] + Collapse(z)
    ensures Runs(rest, NotSpace) == Runs(z, NotSpace)
  {
    z := TrimStart(rest);
    TrimStartSpec(rest);
    assert z[|z| - 1] == rest[|rest| - 1];
    assert rest == rest[..|rest| - |z|] + z;
    RunsSkipOutside(rest[..|rest| - |z|], z, NotSpace);
  }

  /** On text with no whitespace at either end, collapsing is joining the
      whitespace-separated words with single spaces. */
  lemma {:induction false} CollapseIsJoin(y: string)
    requires NoEdgeSpace(y)
    ensures Collapse(y) == JoinWords(Runs(y, NotSpace))
    decreases |y|
  {
    if y != [] {
      var n := RunLength(y, NotSpace);
      var w, rest := y[..n], y[n..];
      assert y == w + rest;
      assert Runs(y, NotSpace) == [w] + Runs(rest, NotSpace);
      CollapseKeepsWord(w, rest);
      if n == |y| {
        assert rest == [];
      } else {
        assert rest[|rest| - 1] == y[|y| - 1];
        var z := CollapseAfterSpace(rest);
        CollapseIsJoin(z);
        JoinAfterWord(w, Collapse(rest), Collapse(z), Runs(z, NotSpace));
      }
    }
  }

  /** Sequence bookkeeping for the inductive step of CollapseIsJoin. */
  lemma JoinAfterWord(w: string, c: string, cz: string, zs: seq<string>)
    requires zs != []
    requires c == [' '] + cz
    requires cz == JoinWords(zs)
    ensures w + c == JoinWords([w] + zs)
  {
    JoinWordsCons(w, zs);
  }

  /** What TrimStart drops is a whitespace prefix. */
  lemma TrimStartParts(s: string) returns (pre: string)
    ensures s == pre + TrimStart(s) && AllSpace(pre)
  {
    var t := TrimStart(s);
    TrimStartSpec(s);
    pre := s[..|s| - |t|];
    assert s == pre + t;
    forall i | 0 <= i < |pre|
      ensures IsSpace(pre[i])
    {
      assert pre[i] == s[i];
    }
  }

  /** What TrimEnd drops is a whitespace suffix. */
  lemma TrimEndParts(s: string) returns (suf: string)
    ensures s == TrimEnd(s) + suf && AllSpace(suf)
  {
    var r := TrimEnd(s);
    TrimEndSpec(s);
    suf := s[|r|..];
    assert s == r + suf;
    forall i | 0 <= i < |suf|
      ensures IsSpace(suf[i])
    {
      assert suf[i] == s[|r| + i];
    }
  }

  /** Stripping splits text into whitespace, the stripped text, and whitespace. */
  lemma StripParts(s: string) returns (pre: string, suf: string)
    ensures s == pre + Strip(s) + suf
    ensures AllSpace(pre) && AllSpace(suf)
  {
    pre := TrimStartParts(s);
    suf := TrimEndParts(TrimStart(s));
  }

  /** `normalize_space(t)` equals `" ".join(t.lower().split())`: the lowercased
      whitespace-separated words, joined by single spaces. */
  lemma NormalizeIsJoinedWords(s: string)
    ensures NormalizeSpace(s) == JoinWords(Runs(Lower(s), NotSpace))
  {
    var pre, suf := StripParts(s);
    StripShape(s);
    var r := Strip(s);
    var lp, lr, ls := Lower(pre), Lower(r), Lower(suf);
    LowerAppend3(pre, r, suf);
    LowerKeepsSpace(pre);
    LowerKeepsSpace(suf);
    LowerKeepsSpace(r);
    RunsSkipOutside(lp, lr + ls, NotSpace);
    RunsDropOutsideSuffix(lr, ls, NotSpace);
    CollapseIsJoin(lr);
  }

  /** Lowercasing works character by character. */
  lemma LowerAppend3(a: string, b: string, c: string)
    ensures Lower(a + b + c) == Lower(a) + (Lower(b) + Lower(c))
  {
  }

  /** Lowercasing never creates or removes whitespace. */
  lemma LowerKeepsSpace(s: string)
    ensures AllSpace(s) ==> forall i :: 0 <= i < |Lower(s)| ==> !NotSpace(Lower(s)[i])
    ensures NoEdgeSpace(s) ==> NoEdgeSpace(Lower(s))
  {
  }
}
