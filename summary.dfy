/** The naive summarizer applied to text extracted from an uploaded PDF (server.py:262-265):
    cut the text into sentences at each ". " and keep the first five. */
module Summary {
  import opened Text

  const SentenceSep: string := ". "
  const MaxSentences: nat := 5

  /** `summarize_text`: the first five sentences rejoined with ". " when there are more than
      five, otherwise the text itself. Either way the result is a prefix of the text. */
  function SummarizeText(text: string): (r: string)
    ensures |Split(text, SentenceSep)| <= MaxSentences ==> r == text
    ensures r <= text
  {
    var sentences := Split(text, SentenceSep);
    var kept := if |sentences| <= MaxSentences then sentences else sentences[..MaxSentences];
    var summary := Join(kept, SentenceSep);
    if |sentences| > MaxSentences then
      JoinSplit(text, SentenceSep);
      JoinPrefix(sentences, MaxSentences, SentenceSep);
      summary
    else text
  }

  /** A long text is cut down to exactly its first five sentences. */
  lemma SummaryKeepsFirstSentences(text: string)
    requires |Split(text, SentenceSep)| > MaxSentences
    ensures Split(SummarizeText(text), SentenceSep) == Split(text, SentenceSep)[..MaxSentences]
    ensures |SummarizeText(text)| < |text|
  {
    var sentences := Split(text, SentenceSep);
    var kept := sentences[..MaxSentences];
    SplitPiecesFree(text, SentenceSep);
    forall i | 0 <= i < |kept|
      ensures !Contains(kept[i], SentenceSep)
    {
      assert kept[i] in sentences;
    }
    SplitJoin(kept, SentenceSep);
    assert SummarizeText(text) != text by {
      assert |Split(SummarizeText(text), SentenceSep)| != |sentences|;
    }
  }

  /** Summarizing a summary changes nothing. */
  lemma SummarizeIdempotent(text: string)
    ensures SummarizeText(SummarizeText(text)) == SummarizeText(text)
  {
    if |Split(text, SentenceSep)| > MaxSentences {
      SummaryKeepsFirstSentences(text);
    }
  }
}
