/** Word tokens of recogniser text (`tokenize` and `contains_devanagari` in
    interrupt_filter.py). */
module Tokenizer {
  import opened Strings
  import opened Normalize

  /** A code point of the Devanagari block, U+0900 to U+097F. */
  predicate IsDevanagari(c: char) {
    '\U{0900}' <= c <= '\U{097F}'
  }

  /** The word class `[0-9A-Za-z\u0900-\u097F']` of the tokeniser's pattern. */
  predicate IsWordChar(c: char) {
    || '0' <= c <= '9'
    || 'A' <= c <= 'Z'
    || 'a' <= c <= 'z'
    || IsDevanagari(c)
    || c == '\''
  }

  function LowerAll(ws: seq<string>): seq<string> {
    seq(|ws|, k requires 0 <= k < |ws| => Lower(ws[k]))
  }

  /** `tokenize`: the maximal runs of word characters, in order, each
      lowercased. Every token is non-empty, made of word characters only, and
      has no upper-case letter. */
  function Tokenize(text: string): (toks: seq<string>)
    ensures forall k :: 0 <= k < |toks| ==> toks[k] != [] && NoUpper(toks[k])
    ensures forall k, j :: 0 <= k < |toks| && 0 <= j < |toks[k]| ==> IsWordChar(toks[k][j])
  {
    LowerAll(Runs(text, IsWordChar))
  }

  /** Any character outside the word class (a hyphen, a comma, a space) splits
      the text: the tokens of `a c b` are those of a followed by those of b. */
  lemma TokenizeSplit(a: string, c: char, b: string)
    requires !IsWordChar(c)
    ensures Tokenize(a + [c] + b) == Tokenize(a) + Tokenize(b)
  {
    RunsSplit(a, c, b, IsWordChar);
    var ra, rb := Runs(a, IsWordChar), Runs(b, IsWordChar);
    assert LowerAll(ra + rb) == LowerAll(ra) + LowerAll(rb);
  }

  /** A non-empty text made only of word characters is one token, lowercased. */
  lemma TokenizeWord(w: string)
    requires w != []
    requires forall i :: 0 <= i < |w| ==> IsWordChar(w[i])
    ensures Tokenize(w) == [Lower(w)]
  {
    RunsWhole(w, IsWordChar);
  }

  /** A leading run of word characters, ended by a separator, is the first
      token. */
  lemma LeadingWord(text: string, n: int)
    requires 0 < n < |text|
    requires forall i :: 0 <= i < n ==> IsWordChar(text[i])
    requires !IsWordChar(text[n])
    ensures |Tokenize(text)| > 0 && Tokenize(text)[0] == Lower(text[..n])
  {
    var w, rest := text[..n], text[n + 1..];
    assert text == w + [text[n]] + rest;
    TokenizeSplit(w, text[n], rest);
    TokenizeWord(w);
  }

  /** Text without any word character, the empty text included, has no tokens. */
  lemma TokenizeNoWord(s: string)
    requires forall i :: 0 <= i < |s| ==> !IsWordChar(s[i])
    ensures Tokenize(s) == []
  {
    RunsNone(s, IsWordChar);
  }

  /** Every token is a piece of the lowercased text. */
  lemma TokenIsSubstring(s: string, k: nat)
    requires k < |Tokenize(s)|
    ensures IsSubstring(Tokenize(s)[k], Lower(s))
  {
    var w := Runs(s, IsWordChar)[k];
    RunsAreSubstrings(s, IsWordChar, k);
    var i :| 0 <= i <= |s| && IsPrefix(w, s[i..]);
    assert Lower(s)[i..][..|w|] == Lower(w);
  }

  /** `contains_devanagari`: a scan for a Devanagari code point; true exactly
      when one occurs. */
  function ContainsDevanagari(text: string): (r: bool)
    ensures r <==> exists i :: 0 <= i < |text| && IsDevanagari(text[i])
    decreases |text|
  {
    if text == [] then false
    else IsDevanagari(text[0]) || ContainsDevanagari(text[1..])
  }
}
