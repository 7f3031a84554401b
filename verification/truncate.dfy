/**
 * `truncateText(text, length)` of the call table: keep the first `length`
 * space-separated words and mark the cut with `...`.  The summary column
 * calls it with 20.
 */
module Truncation {
  import opened JsString
  import opened JsArray

  const Ellipsis: string := "..."

  /** The summary column keeps at most this many words. */
  const SummaryWords: int := 20

  function Words(text: string): seq<string> {
    Split(text, ' ')
  }

  function TruncateText(text: string, length: int): (r: string)
    ensures |Words(text)| <= length ==> r == text
    ensures 0 <= length < |Words(text)| ==> r == Join(Words(text)[..length], ' ') + Ellipsis
    ensures length < 0 ==>
              r == Join(Words(text)[..ResolveIndex(length, |Words(text)|)], ' ') + Ellipsis
  {
    var words := Words(text);
    if |words| <= length then text
    else Join(Slice(words, 0, length), ' ') + Ellipsis
  }

  /**
   * When the text is cut, what precedes the ellipsis is a prefix of the
   * text that splits back into exactly the first `length` words.
   */
  lemma TruncatedIsPrefix(text: string, length: int)
    requires 1 <= length < |Words(text)|
    ensures var r := TruncateText(text, length);
            && |r| >= |Ellipsis|
            && r[|r| - |Ellipsis|..] == Ellipsis
            && StartsWith(text, r[..|r| - |Ellipsis|])
            && Words(r[..|r| - |Ellipsis|]) == Words(text)[..length]
  {
    var words := Words(text);
    var kept := Join(words[..length], ' ');
    var r := TruncateText(text, length);
    assert r == kept + Ellipsis;
    assert r[..|r| - |Ellipsis|] == kept;
    assert StartsWith(text, kept) by {
      JoinPrefix(words, length, ' ');
      JoinOfSplit(text, ' ');
    }
    assert Words(kept) == words[..length] by {
      assert forall i :: 0 <= i < |words[..length]| ==> words[..length][i] == words[i];
      SplitOfJoin(words[..length], ' ');
    }
  }

  /** A single word is never cut, however long it is. */
  lemma OneWordUntouched(text: string, length: int)
    requires ' ' !in text && length >= 1
    ensures TruncateText(text, length) == text
  {
    SplitWithoutSeparator(text, ' ');
  }

  /**
   * The summary cell: a summary of at most 20 words is shown whole; a longer
   * one shows a prefix that splits into exactly its first 20 words, then
   * the ellipsis.
   */
  lemma SummaryCell(summary: string)
    ensures |Words(summary)| <= SummaryWords ==> TruncateText(summary, SummaryWords) == summary
    ensures |Words(summary)| > SummaryWords ==>
              var r := TruncateText(summary, SummaryWords);
              && r[|r| - |Ellipsis|..] == Ellipsis
              && StartsWith(summary, r[..|r| - |Ellipsis|])
              && Words(r[..|r| - |Ellipsis|]) == Words(summary)[..SummaryWords]
  {
    if |Words(summary)| > SummaryWords {
      TruncatedIsPrefix(summary, SummaryWords);
    }
  }
}
