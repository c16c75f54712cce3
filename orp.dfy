/** The optical recognition point: which character of a word is highlighted, and the
    three pieces the word is drawn in around it (`get_orp_index` and the slicing at
    the top of `draw_word_on_canvas`). */
module Orp {

  import opened Options

  /** `get_orp_index`: a table over the word's length. A word of length 0 falls
      through every bucket and gets 4, as in the source. */
  function OrpIndex(word: string): (k: nat)
    ensures k <= 4
    ensures word != [] ==> k < |word|
  {
    var n := |word|;
    if n == 1 then 0
    else if 2 <= n <= 5 then 1
    else if 6 <= n <= 9 then 2
    else if 10 <= n <= 13 then 3
    else 4
  }

  /** A longer (non-empty) word never has its pivot further to the left. */
  lemma OrpIndexMonotone(u: string, w: string)
    requires 1 <= |u| <= |w|
    ensures OrpIndex(u) <= OrpIndex(w)
  {
  }

  /** The pivot moves right by at most one position per added character. */
  lemma OrpIndexStep(u: string, w: string)
    requires 1 <= |u| && |w| == |u| + 1
    ensures OrpIndex(u) <= OrpIndex(w) <= OrpIndex(u) + 1
  {
  }

  /** The word as drawn: left part, highlighted pivot character, right part. */
  datatype OrpSplit = OrpSplit(left: string, pivot: char, right: string)

  /** The split in `draw_word_on_canvas`; an empty word returns before any slicing. */
  function Split(word: string): (r: Option<OrpSplit>)
    ensures r.None? <==> word == []
    ensures r.Some? ==> r.value.left + [r.value.pivot] + r.value.right == word
    ensures r.Some? ==> |r.value.left| == OrpIndex(word)
  {
    if word == [] then None
    else
      var k := OrpIndex(word);
      assert word == word[..k] + [word[k]] + word[k + 1..];
      Some(OrpSplit(word[..k], word[k], word[k + 1..]))
  }

  /** The split is the only way to cut the word into a left part of length
      `OrpIndex(word)`, one pivot character and a right part. */
  lemma SplitUnique(word: string, left: string, pivot: char, right: string)
    requires left + [pivot] + right == word
    requires |left| == OrpIndex(word)
    ensures Split(word) == Some(OrpSplit(left, pivot, right))
  {
    var k := |left|;
    assert word[..k] == left;
    assert word[k] == pivot;
    assert word[k + 1..] == right;
  }

}
