/** The control characters the text strategy recognises. `PdfCharacters`
    (scrapdf/extraction/pdf_chars.py) is not part of this model; its
    FORM_FEED is the single character U+000C that pdfminer's text converter
    emits at the end of every page, so a page converted to exactly this
    string carried no text. */
module PdfChars {

  const FORM_FEED: string := "\U{000C}"
}
