/** The exceptions the extractors raise. `FileNotSupportedError` and
    `ParsingFailedError` come from `scrapdf.exceptions`, `FileNotFoundError`
    is Python's own and `PDFPasswordIncorrect` is raised by pdfminer's
    `PDFDocument`; only their kinds and the parsing message matter here. */
module Exceptions {

  datatype Error =
    | FileNotSupported
    | FileNotFound
    | PasswordIncorrect
    | ParsingFailed(message: string)
}
