/**
 * The back end's path from a model reply to the PDF story: the résumé tailor
 * escapes the reply and turns its newlines into `<br>`, and the PDF
 * generator converts that markup. Because escaping removes every `<` but
 * those of the inserted breaks, none of the four patterns can match, and the
 * story is always the single fallback paragraph holding the reply itself,
 * trimmed, with its newlines back in place and its entities decoded.
 */
module Pipeline {
  import opened PyStr
  import opened HtmlText
  import opened TagScan
  import opened Styles
  import opened PdfStory

  /** Text free of `<` gives no match for any of the four patterns. */
  lemma NoTagsNoElements(text: string, sheet: StyleSheet)
    ensures '<' !in text ==> Elements(text, sheet) == []
  {
    MatchesNeedAngle(text, "h1", 0);
    MatchesNeedAngle(text, "h2", 0);
    MatchesNeedAngle(text, "p", 0);
    MatchesNeedAngle(text, "ul", 0);
    NothingMatched(text, sheet);
  }

  /** The tailored reply reaches ReportLab as a story of one normal paragraph
      carrying the trimmed reply verbatim. */
  lemma TailoredReplyIsOneParagraph(reply: string, template: string)
    ensures Convert(EscapeAndBreak(reply), template)
         == [Para(Strip(reply), Normal, TemplateStyles(template).normal)]
  {
    var sheet := TemplateStyles(template);
    var text := BreaksToNewlines(EscapeAndBreak(reply));
    assert text == Escape(reply);
    NoTagsNoElements(text, sheet);
    ConvertTexts(EscapeAndBreak(reply), template);
    EscapeStrip(reply);
    UnescapeEscape(Strip(reply));
  }
}
