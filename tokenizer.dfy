/** The tokenizer: `raw_text.split()`, Python's split on runs of whitespace with
    empty segments (leading, trailing and repeated whitespace) discarded. */
module Tokenizer {

  /** The characters Python's `str.split()` treats as whitespace. */
  predicate IsSpace(c: char) {
    || '\U{9}' <= c <= '\U{D}'
    || '\U{1C}' <= c <= '\U{20}'
    || c == '\U{85}' || c == '\U{A0}' || c == '\U{1680}'
    || '\U{2000}' <= c <= '\U{200A}'
    || c == '\U{2028}' || c == '\U{2029}' || c == '\U{202F}' || c == '\U{205F}'
    || c == '\U{3000}'
  }

  predicate NoSpace(s: string) {
    forall c :: c in s ==> !IsSpace(c)
  }

  /** A token: non-empty and free of whitespace. */
  predicate IsWord(w: string) {
    w != [] && NoSpace(w)
  }

  predicate AllWords(ws: seq<string>) {
    forall i :: 0 <= i < |ws| ==> IsWord(ws[i])
  }

  /** The characters of `s` that are not whitespace, in order. */
  function NonSpace(s: string): string {
    if s == [] then []
    else (if IsSpace(s[0]) then [] else [s[0]]) + NonSpace(s[1..])
  }

  /** All tokens glued together with nothing between them. */
  function Concat(ws: seq<string>): string {
    if ws == [] then [] else ws[0] + Concat(ws[1..])
  }

  /** `' '.join(ws)`. */
  function Join(ws: seq<string>): string {
    if ws == [] then []
    else if |ws| == 1 then ws[0]
    else ws[0] + " " + Join(ws[1..])
  }

  /** Scans `s` left to right; `cur` is the token being collected so far. */
  function Scan(s: string, cur: string): (ws: seq<string>)
    requires NoSpace(cur)
    ensures AllWords(ws)
    decreases |s|
  {
    if s == [] then
      (if cur == [] then [] else [cur])
    else if IsSpace(s[0]) then
      (if cur == [] then Scan(s[1..], []) else [cur] + Scan(s[1..], []))
    else
      Scan(s[1..], cur + [s[0]])
  }

  /** `raw_text.split()`: every token is non-empty and contains no whitespace. */
  function Tokenize(text: string): (words: seq<string>)
    ensures AllWords(words)
  {
    Scan(text, [])
  }

  lemma {:induction false} ScanContent(s: string, cur: string)
    requires NoSpace(cur)
    ensures Concat(Scan(s, cur)) == cur + NonSpace(s)
    decreases |s|
  {
    if s == [] {
      if cur != [] {
        assert Concat([cur]) == cur + Concat([]);
      }
    } else if IsSpace(s[0]) {
      ScanContent(s[1..], []);
      if cur != [] {
        var rest := Scan(s[1..], []);
        assert ([cur] + rest)[1..] == rest;
      }
    } else {
      ScanContent(s[1..], cur + [s[0]]);
    }
  }

  /** No character is lost, invented or reordered, except the whitespace. */
  lemma TokenizeContent(text: string)
    ensures Concat(Tokenize(text)) == NonSpace(text)
  {
    ScanContent(text, []);
  }

  lemma {:induction false} NonSpaceEmpty(s: string)
    ensures NonSpace(s) == [] <==> forall c :: c in s ==> IsSpace(c)
    decreases |s|
  {
    if s != [] {
      NonSpaceEmpty(s[1..]);
      assert forall c :: c in s <==> c == s[0] || c in s[1..];
    }
  }

  lemma ConcatEmpty(ws: seq<string>)
    requires AllWords(ws)
    ensures Concat(ws) == [] <==> ws == []
  {
    if ws != [] {
      assert IsWord(ws[0]);
    }
  }

  /** The token list is empty exactly when the text is empty or all whitespace. */
  lemma TokenizeEmptyIff(text: string)
    ensures Tokenize(text) == [] <==> forall c :: c in text ==> IsSpace(c)
  {
    TokenizeContent(text);
    NonSpaceEmpty(text);
    ConcatEmpty(Tokenize(text));
  }

  /** A run of non-whitespace characters only extends the token in progress. */
  lemma {:induction false} ScanThroughWord(w: string, t: string, cur: string)
    requires NoSpace(cur) && NoSpace(w)
    ensures NoSpace(cur + w)
    ensures Scan(w + t, cur) == Scan(t, cur + w)
    decreases |w|
  {
    if w == [] {
      assert w + t == t;
      assert cur + w == cur;
    } else {
      assert (w + t)[0] == w[0];
      assert (w + t)[1..] == w[1..] + t;
      assert w[0] in w;
      assert forall c :: c in w[1..] ==> c in w;
      assert NoSpace(cur + [w[0]]) by {
        assert forall c :: c in cur + [w[0]] ==> c in cur || c == w[0];
      }
      ScanThroughWord(w[1..], t, cur + [w[0]]);
      assert cur + [w[0]] + w[1..] == cur + w;
    }
  }

  lemma {:induction false} ScanJoin(ws: seq<string>)
    requires AllWords(ws)
    ensures Scan(Join(ws), []) == ws
    decreases |ws|
  {
    if ws == [] {
    } else if |ws| == 1 {
      ScanThroughWord(ws[0], [], []);
      assert ws[0] + [] == ws[0];
      assert [] + ws[0] == ws[0];
      assert ws == [ws[0]];
    } else {
      assert IsWord(ws[0]);
      var rest := Join(ws[1..]);
      assert AllWords(ws[1..]) by {
        forall i | 0 <= i < |ws[1..]| ensures IsWord(ws[1..][i]) {
          assert ws[1..][i] == ws[i + 1];
        }
      }
      ScanJoin(ws[1..]);
      assert Join(ws) == ws[0] + (" " + rest);
      ScanThroughWord(ws[0], " " + rest, []);
      assert [] + ws[0] == ws[0];
      var t := " " + rest;
      assert t[0] == ' ' && t[1..] == rest;
      assert IsSpace(' ');
      assert Scan(t, ws[0]) == [ws[0]] + Scan(rest, []);
      assert ws == [ws[0]] + ws[1..];
    }
  }

  /** Splitting the single-space join of a token list gives the list back. */
  lemma TokenizeJoin(ws: seq<string>)
    requires AllWords(ws)
    ensures Tokenize(Join(ws)) == ws
  {
    ScanJoin(ws);
  }

  /** Cutting the input just before a whitespace character (or at its end) cuts the
      token list there too: the scan of the first part ends its token at that
      character. */
  lemma {:induction false} ScanSplit(x: string, t: string, cur: string)
    requires NoSpace(cur) && (t == [] || IsSpace(t[0]))
    ensures Scan(x + t, cur) == Scan(x, cur) + Scan(t, [])
    decreases |x|
  {
    if x == [] {
      assert x + t == t;
      if t != [] {
        assert Scan(t, []) == Scan(t[1..], []);
      }
    } else {
      var xt := x + t;
      assert xt[0] == x[0] && xt[1..] == x[1..] + t;
      if IsSpace(x[0]) {
        ScanSplit(x[1..], t, []);
        var flushed: seq<string> := if cur == [] then [] else [cur];
        assert Scan(xt, cur) == flushed + Scan(x[1..] + t, []);
        assert Scan(x, cur) == flushed + Scan(x[1..], []);
      } else {
        var next := cur + [x[0]];
        assert NoSpace(next) by {
          assert forall c :: c in next ==> c in cur || c == x[0];
        }
        assert Scan(xt, cur) == Scan(x[1..] + t, next);
        assert Scan(x, cur) == Scan(x[1..], next);
        ScanSplit(x[1..], t, next);
      }
    }
  }

  /** Leading whitespace produces no token. */
  lemma {:induction false} ScanSkipSpaces(sp: string, y: string)
    requires forall c :: c in sp ==> IsSpace(c)
    ensures Scan(sp + y, []) == Scan(y, [])
    decreases |sp|
  {
    if sp == [] {
      assert sp + y == y;
    } else {
      assert (sp + y)[0] == sp[0] && sp[0] in sp;
      assert (sp + y)[1..] == sp[1..] + y;
      assert forall c :: c in sp[1..] ==> c in sp;
      ScanSkipSpaces(sp[1..], y);
    }
  }

  /** Every run of whitespace separates tokens, whatever it is made of (spaces, tabs,
      newlines, any number of them): the split of `x + sp + y` is the split of `x`
      followed by the split of `y`. With `TokenizeWord` and `TokenizeEmptyIff` this
      determines the split of every text. */
  lemma TokenizeSplitsAt(x: string, sp: string, y: string)
    requires sp != [] && forall c :: c in sp ==> IsSpace(c)
    ensures Tokenize(x + sp + y) == Tokenize(x) + Tokenize(y)
  {
    assert x + sp + y == x + (sp + y);
    assert (sp + y)[0] == sp[0] && sp[0] in sp;
    ScanSplit(x, sp + y, []);
    ScanSkipSpaces(sp, y);
  }

  /** A text that is a single word is a single token. */
  lemma TokenizeWord(w: string)
    requires IsWord(w)
    ensures Tokenize(w) == [w]
  {
    TokenizeJoin([w]);
  }

  /** A text box holding "Hello,", a newline, two spaces, "world." and a tab. */
  lemma TokenizeExample()
    ensures Tokenize("Hello,\n  world.\t") == ["Hello,", "world."]
  {
    var a, b := "Hello,", "world.";
    ExampleParts();
    TokenizeSplitsAt(a, "\n  ", b + "\t");
    TokenizeSplitsAt(b, "\t", []);
    TokenizeWord(a);
    TokenizeWord(b);
  }

  lemma ExampleParts()
    ensures "Hello,\n  world.\t" == "Hello," + "\n  " + ("world." + "\t")
    ensures "world." + "\t" == "world." + "\t" + []
    ensures forall c :: c in "\n  " ==> IsSpace(c)
    ensures forall c :: c in "\t" ==> IsSpace(c)
    ensures IsWord("Hello,") && IsWord("world.")
  {
    assert forall c :: c in "\n  " ==> c == '\n' || c == ' ';
  }

  /** Re-tokenizing the tokens joined by single spaces changes nothing. */
  lemma TokenizeIdempotent(text: string)
    ensures Tokenize(Join(Tokenize(text))) == Tokenize(text)
  {
    TokenizeJoin(Tokenize(text));
  }

}
