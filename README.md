# scrapdf page extraction, modelled in Dafny

This project models the page-extraction protocol of scrapdf
(`scrapdf/extraction/text.py`). Two strategies extract the text of a PDF page
by page:

- `TextPdfExtractor` converts each page's embedded text with pdfminer. It
  gives up with `ParsingFailedError` at the first page whose converted text
  is a bare form feed, since such a page looks scanned.
- `OcrPdfExtractor` rasterises the pages and runs OCR on each image. It never
  applies that test.

Both strategies share the same constructor checks, in this order:

1. The path's suffix must contain "pdf", or `FileNotSupportedError` is raised.
2. The file must exist, or `FileNotFoundError` is raised.
3. pdfminer must accept the password, or `PDFPasswordIncorrect` is raised.

Both expose the document's metadata. It is the single info block, or `None`
when the document has zero blocks or more than one.

The model is organised as follows:

- `Paths` gives pathlib's `name` and `suffix` for POSIX paths, and Python's
  substring test.
- `Decimal` renders the page number in the error message.
- `Interfaces` holds the `PageText` record.
- `Exceptions` lists the four kinds of error.
- `PdfChars` holds the form-feed constant.
- `PageIteration` is the pure specification of one full traversal: the
  records yielded and the exception that ended it.
- `Text` holds the validation function and the metadata selector. It also
  holds the two extractor classes and one class per generator. Each
  generator class has the loop position (`index`) and a `done` flag, and its
  `Next` is one `next()` call. Each extractor's `List` method drains its
  generator the way a `for page in extractor:` loop does, keeping the
  records yielded and the exception that ended the loop, and is proved equal
  to the specification.

The external collaborators are parameters:

- The filesystem is a predicate `fileExists`.
- pdfminer's decryption outcome is a flag `passwordAccepted`.
- The document's info blocks are `info`.
- The texts pdfminer renders for the pages, or those pytesseract recognises
  in the pdf2image pages, are a `seq<string>` handed to the iteration.
- The random UUID of the OCR output directory is a parameter `id`.

## Model

| member | source | states |
|---|---|---|
| `Paths.RFind` | scrapdf/extraction/text.py:31 | the index of the last occurrence of a character, or -1 when there is none; no later position holds it |
| `Paths.Name` | scrapdf/extraction/text.py:31 | a path's final component contains no '/' and is never "." |
| `Paths.NameOfBare` | scrapdf/extraction/text.py:31 | a path without '/' (other than "" and ".") is its own name |
| `Paths.NameDropsTrailing` | scrapdf/extraction/text.py:31 | a trailing '/' or trailing "." component leaves the name unchanged |
| `Paths.Suffix` | scrapdf/extraction/text.py:31 | the suffix is empty, or it is a tail of the name that starts with its only dot, is at least two characters long and is shorter than the name |
| `Paths.Contains` | scrapdf/extraction/text.py:31 | `needle in hay` holds exactly when the needle occurs at some index of the haystack |
| `Paths.NotContainedWithoutFirstChar` | scrapdf/extraction/text.py:31 | a needle whose first character is absent from the haystack does not occur in it |
| `Paths.NameOfJoin` | scrapdf/extraction/text.py:31 | the name of `dir/file` is `file`, whatever the directory holds |
| `Paths.SuffixOfStem` | scrapdf/extraction/text.py:31 | `stem.ext` has suffix `.ext` when the stem is non-empty and ext is non-empty and dot-free |
| `Paths.SuffixOfFile` | scrapdf/extraction/text.py:31 | the suffix of `dir/stem.ext` is `.ext` when stem and ext are non-empty and free of '/' and '.' |
| `Paths.DotfileHasNoSuffix` | scrapdf/extraction/text.py:31 | a name whose only dot is its first character has no suffix |
| `Paths.TrailingDotHasNoSuffix` | scrapdf/extraction/text.py:31 | a name that ends in a dot has no suffix |
| `Text.Validate` | scrapdf/extraction/text.py:30-34 | the checks pass exactly when the suffix contains "pdf" and the file exists; the only errors are FileNotSupported and FileNotFound |
| `Text.ExtensionCheckedFirst` | scrapdf/extraction/text.py:31-34 | without a pdf suffix the result is FileNotSupported for every filesystem, because the extension is checked before existence |
| `Text.MissingPdfNotFound` | scrapdf/extraction/text.py:33-34 | a missing file with a pdf suffix gives FileNotFound |
| `Text.PdfFileMissingNotFound` | tests/extraction/test_text.py:34-38 | a missing `dir/stem.pdf` gives FileNotFound, whatever the directory |
| `Text.TxtFileUnsupported` | tests/extraction/test_text.py:28-32 | `dir/stem.txt` is unsupported whether or not it exists, even when the directory name contains "pdf" |
| `Text.TxtSuffixIsNotPdf` | scrapdf/extraction/text.py:31 | the suffix ".txt" does not contain "pdf" |
| `Text.PdfxFilePassesExtensionCheck` | scrapdf/extraction/text.py:31-32 | the test is a substring test, so `.pdfx` passes it and only existence then decides |
| `Text.DotfilePdfUnsupported` | scrapdf/extraction/text.py:31-32 | a file named `.pdf` has no suffix, so it is unsupported |
| `Text.SelectInfo` | scrapdf/extraction/text.py:85-89 | any metadata returned is one of the document's info blocks |
| `Text.SelectInfoOnlyBlock` | scrapdf/extraction/text.py:87-88 | metadata is block b exactly when the document's info is the single block b |
| `Text.SelectInfoAmbiguous` | scrapdf/extraction/text.py:87-89 | metadata is None exactly when the document has zero info blocks or more than one |
| `Text.TextPdfExtractor.constructor` | scrapdf/extraction/text.py:35-36 | the fields hold exactly the path, the password and the info blocks given |
| `Text.TextPdfExtractor.Open` | scrapdf/extraction/text.py:58-63 | errors come in this order: the path errors of Validate, then PasswordIncorrect; on success a new extractor holds exactly the arguments |
| `Text.OcrPdfExtractor.constructor` | scrapdf/extraction/text.py:98-100 | it holds the text extractor and the output directory given |
| `Text.OcrPdfExtractor.Open` | scrapdf/extraction/text.py:98-101 | it fails exactly as the text extractor's construction does; on success it wraps a new extractor built from the arguments, with output directory "temp/" + id |
| `Text.TextPages.Yielded` | scrapdf/extraction/text.py:77-83 | at any point, what the text generator has yielded is a prefix of what the full traversal yields, one record per page passed |
| `Text.TextPages.constructor` | scrapdf/extraction/text.py:75-77 | a fresh generator has yielded nothing and sits before the first page |
| `Text.TextPages.Next` | scrapdf/extraction/text.py:77-83 | one step does one of three things. It yields the next page as PageText(i + 1, text) while the pages before the first form feed last. At that form-feed page it raises ParsingFailed naming page i + 1. Otherwise it stops. After raising or stopping it only stops |
| `Text.OcrPages.Yielded` | scrapdf/extraction/text.py:113-115 | at any point, what the OCR generator has yielded is a prefix of the full traversal |
| `Text.OcrPages.constructor` | scrapdf/extraction/text.py:107-113 | a fresh OCR generator has yielded nothing |
| `Text.OcrPages.Next` | scrapdf/extraction/text.py:113-115 | one step yields PageText(i + 1, text) for each recognised text in turn, then stops; it never raises ParsingFailedError |
| `Text.TextPdfExtractor.Iter` | scrapdf/extraction/text.py:75-77 | iteration starts a new generator over the page texts, positioned at the first page |
| `Text.TextPdfExtractor.List` | scrapdf/extraction/text.py:75-83 | draining the generator gives exactly the TextListing specification: the records and the final error |
| `Text.OcrPdfExtractor.Iter` | scrapdf/extraction/text.py:107-113 | iteration starts a new OCR generator over the recognised texts |
| `Text.OcrPdfExtractor.List` | scrapdf/extraction/text.py:107-115 | draining the OCR generator gives exactly the OcrListing specification |
| `PageIteration.Numbered` | scrapdf/extraction/text.py:77-83 | the records of an enumerate loop: one per text, the k-th numbered k + 1 and carrying the k-th text unchanged |
| `PageIteration.NumberedIsContiguous` | scrapdf/extraction/text.py:83 | numbering starts at 1 and advances by one per page, with no gaps or repeats |
| `PageIteration.NumberedPrefix` | scrapdf/extraction/text.py:77-83 | numbering the first n pages gives the first n records |
| `PageIteration.FirstFormFeed` | scrapdf/extraction/text.py:79 | the index of the first page whose text is exactly the form feed, or the page count when there is none |
| `PageIteration.NoTextMessageNamesPage` | scrapdf/extraction/text.py:80-82 | the ParsingFailedError message determines the page it names |
| `PageIteration.TextListingWithoutFormFeed` | scrapdf/extraction/text.py:77-83 | with no form-feed page, the text strategy yields one record per page in order, numbered 1..n with unchanged text, and ends without error |
| `PageIteration.TextListingStopsAtFirstFormFeed` | scrapdf/extraction/text.py:79-83 | if the first form-feed page is page j + 1, exactly pages 1..j are yielded, then ParsingFailed names page j + 1 |
| `PageIteration.TextListingFailsIffFormFeed` | scrapdf/extraction/text.py:79-82 | the text strategy fails exactly when some page's text is a bare form feed |
| `PageIteration.TextListingIsPrefixOfOcr` | scrapdf/extraction/text.py:77-83 | over the same texts, the text strategy's records are a prefix of the OCR strategy's, and both traversals are equal when no page is a form feed |
| `PageIteration.OcrListingNoParsingFailure` | scrapdf/extraction/text.py:113-115 | the OCR strategy yields one record per text, numbered 1..n, and never raises ParsingFailedError, even for an empty or form-feed text |
| `Decimal.Render` | scrapdf/extraction/text.py:81 | the decimal rendering of a page number is a non-empty run of digits without leading zeros |
| `Decimal.ParseRender` | scrapdf/extraction/text.py:81 | reading the rendered digits back gives the number |
| `Decimal.RenderInjective` | scrapdf/extraction/text.py:81 | distinct page numbers render differently |

## Left out

- pdfminer's parsing, decryption and text conversion (text.py:61-73) are
  foreign library calls. Decryption is the flag `passwordAccepted`. The
  converted page texts are the sequence given to the text iteration.
- pdf2image's rasterisation and pytesseract's recognition (text.py:103-112)
  are foreign library calls. Their result is the sequence of recognised
  texts given to the OCR iteration.
- Exceptions raised during iteration by code outside the model are not
  modelled. The text generator re-opens the file (text.py:76), which raises
  FileNotFoundError if it has gone since construction, and `get_pages` may
  raise (text.py:77). The OCR generator passes on whatever
  `convert_from_path` (text.py:108-112) and `image_to_string` (text.py:104)
  raise. The model's generators raise only ParsingFailedError, and only the
  text one does.
- Text.TextPdfExtractor.Open: exceptions raised during construction other
  than the four modelled ones are not modelled. That covers `open` at
  text.py:61 (for instance IsADirectoryError for a directory named `x.pdf`),
  any `PDFDocument` error other than PDFPasswordIncorrect at text.py:63 (for
  instance a parse error for a file that is not a PDF), and `mkdir` at
  text.py:101 for `Text.OcrPdfExtractor.Open`. The flag `passwordAccepted`
  means that `PDFDocument` opened the file without error.
- Opening the file, the `StringIO` buffer and the `with` blocks (text.py:61,
  67, 76) are I/O. The creation of the OCR output directory (text.py:101) is
  I/O too. The code never removes that directory, so the model claims no
  cleanup.
- The random UUID of the output directory (text.py:100) is the parameter
  `id`.
- The collaborators' outputs are handed over whole when iteration starts,
  instead of being pulled page by page. The model does not capture when the
  collaborators run, only what each `next()` returns.
- Paths are POSIX strings. Windows drive and separator rules are not
  modelled. `Path.exists` is the predicate `fileExists`.
- `PageText.text` may be bytes or str in the source; the model uses
  characters. The info blocks' values are also bytes in pdfminer; they are
  modelled as strings.
- `PdfCharacters` (scrapdf/extraction/pdf_chars.py) is not part of this
  model. Its FORM_FEED is taken to be the single character U+000C.
- The abstract `__iter__` and `metadata` of the base class (text.py:38-50)
  only raise `NotImplementedError`. The two classes here have no common
  parent. `OcrPdfExtractor` holds a `TextPdfExtractor` for the state it
  inherits in the source.
- The passing of the password to `get_pages` and `convert_from_path`
  (text.py:77, 110) is folded into the collaborators' outputs.
- Some behaviour described for this system is absent from the code, and the
  model follows the code. There is no page counter field: the generator's
  `enumerate` index plays that role. There is no resource-release operation.
  No page text is promised to be non-empty.
- `Text.TextPdfExtractor.Metadata` and `Text.OcrPdfExtractor.Metadata` carry
  no contract of their own. They return `SelectInfo` of the document's info
  blocks, whose lemmas state the property.
