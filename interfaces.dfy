/** The record produced for each page (scrapdf/extraction/interfaces.py). */
module Interfaces {

  /** One page of extracted text. `page` is the 1-based page number. The
      source allows the text to be bytes or str; the model keeps characters. */
  datatype PageText = PageText(page: int, text: string)
}
