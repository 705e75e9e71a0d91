/** Tokenisation shared by the BM25 corpus and the keyword query: lower-case the
    text, then split it on runs of whitespace. */
module Tokens {

  /** The characters Python's `str.isspace` accepts, which `str.split()` splits on. */
  predicate IsSpace(c: char)
  {
    c == ' ' || ('\U{0009}' <= c <= '\U{000D}') || ('\U{001C}' <= c <= '\U{001F}')
    || c == '\U{0085}' || c == '\U{00A0}' || c == '\U{1680}'
    || ('\U{2000}' <= c <= '\U{200A}') || c == '\U{2028}' || c == '\U{2029}'
    || c == '\U{202F}' || c == '\U{205F}' || c == '\U{3000}'
  }

  predicate IsUpper(c: char)
  {
    'A' <= c <= 'Z'
  }

  function LowerChar(c: char): (d: char)
    ensures !IsUpper(d)
    ensures IsSpace(d) <==> IsSpace(c)
  {
    if IsUpper(c) then (c as int - 'A' as int + 'a' as int) as char else c
  }

  /** `str.lower()` on the ASCII letters: a character-for-character map. */
  function Lower(s: string): (r: string)
    ensures |r| == |s|
    ensures forall i :: 0 <= i < |s| ==> r[i] == LowerChar(s[i])
  {
    seq(|s|, i requires 0 <= i < |s| => LowerChar(s[i]))
  }

  lemma LowerAppend(a: string, b: string)
    ensures Lower(a + b) == Lower(a) + Lower(b)
  {
    assert forall i :: 0 <= i < |a + b| ==> Lower(a + b)[i] == (Lower(a) + Lower(b))[i];
  }

  /** A run of whitespace ends the current token, if there is one. */
  function Flush(current: string): (r: seq<string>)
  {
    if current == [] then [] else [current]
  }

  /** Scans `s` left to right; `current` holds the characters of the token being read. */
  function Words(s: string, current: string): seq<string>
    decreases |s|
  {
    if s == [] then Flush(current)
    else if IsSpace(s[0]) then Flush(current) + Words(s[1..], [])
    else Words(s[1..], current + [s[0]])
  }

  /** `str.split()` with no separator: the maximal runs of non-whitespace, in order. */
  function Split(s: string): seq<string>
  {
    Words(s, [])
  }

  /** How a document and a query are both turned into tokens. */
  function Tokenize(text: string): seq<string>
  {
    Split(Lower(text))
  }

  /** The BM25 document of one collection: its name and description joined by a space. */
  function DocumentTokens(name: string, description: string): seq<string>
  {
    Tokenize(name + " " + description)
  }

  /** The characters of `s` that are not whitespace, in order. */
  function NonSpace(s: string): string
  {
    if s == [] then [] else (if IsSpace(s[0]) then [] else [s[0]]) + NonSpace(s[1..])
  }

  function Concat(ts: seq<string>): string
  {
    if ts == [] then [] else ts[0] + Concat(ts[1..])
  }

  lemma ConcatFlush(current: string, ts: seq<string>)
    ensures Concat(Flush(current) + ts) == current + Concat(ts)
  {
    if current != [] {
      assert ([current] + ts)[0] == current;
      assert ([current] + ts)[1..] == ts;
    } else {
      assert Flush(current) + ts == ts;
    }
  }

  lemma {:induction false} WordsKeepNonSpace(s: string, current: string)
    ensures Concat(Words(s, current)) == current + NonSpace(s)
    decreases |s|
  {
    if s == [] {
      ConcatFlush(current, []);
    } else if IsSpace(s[0]) {
      WordsKeepNonSpace(s[1..], []);
      ConcatFlush(current, Words(s[1..], []));
    } else {
      WordsKeepNonSpace(s[1..], current + [s[0]]);
    }
  }

  /** Splitting loses exactly the whitespace: the tokens, concatenated, are the
      non-whitespace characters of the text in order. */
  lemma SplitKeepsNonSpace(s: string)
    ensures Concat(Split(s)) == NonSpace(s)
  {
    WordsKeepNonSpace(s, []);
  }

  lemma {:induction false} WordsEmptyIff(s: string, current: string)
    ensures Words(s, current) == [] <==> current == [] && forall i :: 0 <= i < |s| ==> IsSpace(s[i])
    decreases |s|
  {
    if s != [] {
      if IsSpace(s[0]) {
        WordsEmptyIff(s[1..], []);
        assert forall i :: 1 <= i < |s| ==> s[i] == s[1..][i - 1];
      } else {
        WordsEmptyIff(s[1..], current + [s[0]]);
      }
    }
  }

  /** A text yields no token exactly when it is all whitespace (the empty query included). */
  lemma SplitEmptyIff(s: string)
    ensures Split(s) == [] <==> forall i :: 0 <= i < |s| ==> IsSpace(s[i])
  {
    WordsEmptyIff(s, []);
  }

  lemma {:induction false} WordsAroundSpace(a: string, b: string, current: string)
    ensures Words(a + " " + b, current) == Words(a, current) + Words(b, [])
    decreases |a|
  {
    if a == [] {
      assert a + " " + b == [' '] + b;
      assert ([' '] + b)[1..] == b;
    } else {
      assert (a + " " + b)[0] == a[0];
      assert (a + " " + b)[1..] == a[1..] + " " + b;
      if IsSpace(a[0]) {
        WordsAroundSpace(a[1..], b, []);
      } else {
        WordsAroundSpace(a[1..], b, current + [a[0]]);
      }
    }
  }

  /** Joining two texts with a space and splitting gives the tokens of each, in order. */
  lemma SplitAroundSpace(a: string, b: string)
    ensures Split(a + " " + b) == Split(a) + Split(b)
  {
    WordsAroundSpace(a, b, []);
  }

  /** Documents and queries go through the same tokeniser: the tokens of a
      collection are the query-style tokens of its name followed by those of its
      description. */
  lemma DocumentTokensSplit(name: string, description: string)
    ensures DocumentTokens(name, description) == Tokenize(name) + Tokenize(description)
  {
    LowerAppend(name + " ", description);
    LowerAppend(name, " ");
    assert Lower(" ") == " ";
    SplitAroundSpace(Lower(name), Lower(description));
  }

  /** No whitespace and no upper-case ASCII letter. */
  predicate LowerWord(w: string)
  {
    forall i :: 0 <= i < |w| ==> !IsSpace(w[i]) && !IsUpper(w[i])
  }

  lemma {:induction false} WordsAreLowerWords(s: string, current: string)
    requires LowerWord(current)
    requires forall i :: 0 <= i < |s| ==> !IsUpper(s[i])
    ensures forall t :: 0 <= t < |Words(s, current)| ==> Words(s, current)[t] != [] && LowerWord(Words(s, current)[t])
    decreases |s|
  {
    if s != [] {
      if IsSpace(s[0]) {
        WordsAreLowerWords(s[1..], []);
      } else {
        WordsAreLowerWords(s[1..], current + [s[0]]);
      }
    }
  }

  /** Every token is non-empty, has no whitespace and no upper-case ASCII letter. */
  lemma TokensAreLowerWords(text: string)
    ensures forall t :: 0 <= t < |Tokenize(text)| ==> Tokenize(text)[t] != [] && LowerWord(Tokenize(text)[t])
  {
    WordsAreLowerWords(Lower(text), []);
  }
}
