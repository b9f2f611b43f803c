/** The two extraction strategies of scrapdf/extraction/text.py.

    The foreign collaborators are parameters: the filesystem is the predicate
    `fileExists`, pdfminer's decryption outcome is `passwordAccepted`, the
    document's info blocks are `info`, pdfminer's per-page text conversion
    is the sequence of page texts handed to the text generator, and
    pdf2image + pytesseract are the sequence of recognised texts handed to
    the OCR generator. */
module Text {
  import opened Wrappers
  import opened Interfaces
  import opened Exceptions
  import opened PdfChars
  import opened PageIteration
  import Paths

  /** One metadata info block of a PDF document (pdfminer's `info` entries). */
  type Info = map<string, string>

  /** The extension test of the base constructor: "pdf" must occur somewhere
      in the suffix of the path's final component. */
  predicate HasPdfSuffix(path: string)
  {
    Paths.Contains(Paths.Suffix(Paths.Name(path)), "pdf")
  }

  /** The input checks of `IPdfFileTextExtractor.__init__`, in their order:
      the extension first, and only then existence. None means both passed. */
  function Validate(path: string, fileExists: string -> bool): (r: Option<Error>)
    ensures r == None <==> HasPdfSuffix(path) && fileExists(path)
    ensures r.Some? ==> r.value == FileNotSupported || r.value == FileNotFound
  {
    if !HasPdfSuffix(path) then Some(FileNotSupported)
    else if !fileExists(path) then Some(FileNotFound)
    else None
  }

  /** A path without a pdf suffix is refused as unsupported whatever the
      filesystem holds: the extension test comes before the existence test. */
  lemma ExtensionCheckedFirst(path: string, fileExists: string -> bool, fileExists': string -> bool)
    requires !HasPdfSuffix(path)
    ensures Validate(path, fileExists) == Validate(path, fileExists') == Some(FileNotSupported)
  {
  }

  /** A missing file with a pdf suffix is refused as not found. */
  lemma MissingPdfNotFound(path: string, fileExists: string -> bool)
    requires HasPdfSuffix(path) && !fileExists(path)
    ensures Validate(path, fileExists) == Some(FileNotFound)
  {
  }

  /** A missing `dir/stem.pdf` is refused as not found (its suffix passes). */
  lemma PdfFileMissingNotFound(dir: string, stem: string, fileExists: string -> bool)
    requires stem != [] && '/' !in stem && '.' !in stem
    requires !fileExists(dir + "/" + stem + ".pdf")
    ensures Validate(dir + "/" + stem + ".pdf", fileExists) == Some(FileNotFound)
  {
    var ext := "pdf";
    assert dir + "/" + stem + ".pdf" == dir + "/" + stem + "." + ext;
    Paths.SuffixOfFile(dir, stem, ext);
    assert Paths.OccursAt("pdf", "." + ext, 1);
  }

  /** ".txt" does not contain "pdf". */
  lemma TxtSuffixIsNotPdf()
    ensures !Paths.Contains(".txt", "pdf")
  {
    assert 'p' !in ".txt";
    Paths.NotContainedWithoutFirstChar(".txt", "pdf");
  }

  /** `dir/stem.txt` is unsupported, existing or not, even when the directory
      part contains "pdf" (as in tests/files/pdf/text/...). */
  lemma TxtFileUnsupported(dir: string, stem: string, fileExists: string -> bool)
    requires stem != [] && '/' !in stem && '.' !in stem
    ensures Validate(dir + "/" + stem + ".txt", fileExists) == Some(FileNotSupported)
  {
    var path := dir + "/" + stem + ".txt";
    assert path == dir + "/" + stem + "." + "txt";
    Paths.SuffixOfFile(dir, stem, "txt");
    TxtSuffixIsNotPdf();
    assert !HasPdfSuffix(path);
  }

  /** The test is a substring test on the suffix, so `dir/stem.pdfx` passes it
      and then only existence decides. */
  lemma PdfxFilePassesExtensionCheck(dir: string, stem: string, fileExists: string -> bool)
    requires stem != [] && '/' !in stem && '.' !in stem
    ensures HasPdfSuffix(dir + "/" + stem + ".pdfx")
    ensures Validate(dir + "/" + stem + ".pdfx", fileExists) == None <==> fileExists(dir + "/" + stem + ".pdfx")
  {
    var ext := "pdfx";
    assert dir + "/" + stem + ".pdfx" == dir + "/" + stem + "." + ext;
    Paths.SuffixOfFile(dir, stem, ext);
    assert Paths.OccursAt("pdf", "." + ext, 1);
  }

  /** A hidden file named ".pdf" has no suffix in pathlib's sense and is
      refused as unsupported. */
  lemma DotfilePdfUnsupported(dir: string, fileExists: string -> bool)
    ensures Validate(dir + "/.pdf", fileExists) == Some(FileNotSupported)
  {
    assert dir + "/.pdf" == dir + "/" + ".pdf";
    Paths.NameOfJoin(dir, ".pdf");
    assert ".pdf" == "." + "pdf";
    Paths.DotfileHasNoSuffix("pdf");
  }

  /** `TextPdfExtractor.metadata`: the document's only info block, or None
      when it declares none or several. */
  function SelectInfo(info: seq<Info>): (r: Option<Info>)
    ensures r.Some? ==> r.value in info
  {
    if |info| == 1 then Some(info[0]) else None
  }

  /** SelectInfo yields a block exactly when it is the document's only one. */
  lemma SelectInfoOnlyBlock(info: seq<Info>, block: Info)
    ensures SelectInfo(info) == Some(block) <==> info == [block]
  {
  }

  /** Zero blocks and several blocks are both "no usable metadata". */
  lemma SelectInfoAmbiguous(info: seq<Info>)
    ensures SelectInfo(info) == None <==> |info| != 1
  {
  }

  /** One `next()` on a generator. */
  datatype Step = Yield(record: PageText) | Raise(error: Error) | Stop

  /** The generator returned by `TextPdfExtractor.__iter__`, over the texts
      the parsing collaborator renders for the document's pages. `index` is
      the `i` of `enumerate`; `done` is set once the generator has returned
      or raised, after which it only stops. */
  class TextPages {
    const texts: seq<string>
    var index: nat
    var done: bool

    ghost predicate Valid()
      reads this
    {
      && index <= FirstFormFeed(texts)
      && (done ==> index == FirstFormFeed(texts))
    }

    /** The records yielded so far: at every point a prefix of what the
        whole traversal yields, so a caller that stops early has seen
        exactly the first pages. */
    ghost function Yielded(): (ys: seq<PageText>)
      reads this
      requires Valid()
      ensures ys <= TextListing(texts).records
      ensures |ys| == index
    {
      var j := FirstFormFeed(texts);
      NumberedPrefix(texts[..j], index);
      assert texts[..j][..index] == texts[..index];
      Numbered(texts[..index])
    }

    constructor (texts: seq<string>)
      ensures Valid() && this.texts == texts
      ensures index == 0 && !done && Yielded() == []
    {
      this.texts := texts;
      index := 0;
      done := false;
    }

    /** Resume the generator: convert the next page, raise if it is a bare
        form feed, otherwise yield it with its 1-based number. */
    method Next() returns (step: Step)
      requires Valid()
      modifies this
      ensures Valid()
      ensures step.Yield? <==> !old(done) && old(index) < FirstFormFeed(texts)
      ensures step.Raise? <==> !old(done) && old(index) == FirstFormFeed(texts) < |texts|
      ensures step.Yield? ==> step.record == PageText(old(index) + 1, texts[old(index)])
      ensures step.Raise? ==> step.error == ParsingFailed(NoTextMessage(old(index) + 1))
      ensures done == !step.Yield?
      ensures index == if step.Yield? then old(index) + 1 else old(index)
      ensures Yielded() == if step.Yield? then old(Yielded()) + [step.record] else old(Yielded())
    {
      if done || index == |texts| {
        done := true;
        return Stop;
      }
      var text := texts[index];
      if text == FORM_FEED {
        done := true;
        return Raise(ParsingFailed(NoTextMessage(index + 1)));
      }
      step := Yield(PageText(index + 1, text));
      assert texts[..index + 1] == texts[..index] + [text];
      index := index + 1;
    }
  }

  /** The generator returned by `OcrPdfExtractor.__iter__`, over the texts
      the OCR collaborator recognises in the rendered page images. It applies
      no scanned-page test. */
  class OcrPages {
    const texts: seq<string>
    var index: nat
    var done: bool

    ghost predicate Valid()
      reads this
    {
      && index <= |texts|
      && (done ==> index == |texts|)
    }

    /** The records yielded so far: a prefix of what the whole traversal
        yields. */
    ghost function Yielded(): (ys: seq<PageText>)
      reads this
      requires Valid()
      ensures ys <= OcrListing(texts).records
      ensures |ys| == index
    {
      NumberedPrefix(texts, index);
      Numbered(texts[..index])
    }

    constructor (texts: seq<string>)
      ensures Valid() && this.texts == texts
      ensures index == 0 && !done && Yielded() == []
    {
      this.texts := texts;
      index := 0;
      done := false;
    }

    /** Resume the generator: yield the next recognised text with its
        1-based number, or stop after the last image. It never raises
        ParsingFailedError; what the rasterising and OCR libraries may raise
        is outside the model. */
    method Next() returns (step: Step)
      requires Valid()
      modifies this
      ensures Valid()
      ensures !step.Raise?
      ensures step.Yield? <==> old(index) < |texts|
      ensures step.Yield? ==> step.record == PageText(old(index) + 1, texts[old(index)])
      ensures done == !step.Yield?
      ensures index == if step.Yield? then old(index) + 1 else old(index)
      ensures Yielded() == if step.Yield? then old(Yielded()) + [step.record] else old(Yielded())
    {
      if index == |texts| {
        done := true;
        return Stop;
      }
      step := Yield(PageText(index + 1, texts[index]));
      assert texts[..index + 1] == texts[..index] + [texts[index]];
      index := index + 1;
    }
  }

  /** `TextPdfExtractor`: a validated path, the password, and the info blocks
      of the document pdfminer opened with that password. */
  class TextPdfExtractor {
    const filePath: string
    const password: string
    const info: seq<Info>

    constructor (filePath: string, password: string, info: seq<Info>)
      ensures this.filePath == filePath && this.password == password && this.info == info
    {
      this.filePath := filePath;
      this.password := password;
      this.info := info;
    }

    /** `TextPdfExtractor(path, password)`: the base checks, then opening the
        document, which fails when pdfminer rejects the password. */
    static method Open(path: string, password: string, fileExists: string -> bool,
                       passwordAccepted: bool, info: seq<Info>)
      returns (r: Result<TextPdfExtractor, Error>)
      ensures Validate(path, fileExists).Some? ==> r == Failure(Validate(path, fileExists).value)
      ensures Validate(path, fileExists).None? && !passwordAccepted ==> r == Failure(PasswordIncorrect)
      ensures Validate(path, fileExists).None? && passwordAccepted ==> r.Success?
      ensures r.Success? ==> fresh(r.value)
      ensures r.Success? ==> r.value.filePath == path && r.value.password == password && r.value.info == info
    {
      var invalid := Validate(path, fileExists);
      if invalid.Some? {
        return Failure(invalid.value);
      }
      if !passwordAccepted {
        return Failure(PasswordIncorrect);
      }
      var x := new TextPdfExtractor(path, password, info);
      return Success(x);
    }

    function Metadata(): Option<Info>
    {
      SelectInfo(info)
    }

    /** `iter(extractor)`, given the texts pdfminer renders for the pages of
        `filePath` opened with `password`. */
    method Iter(texts: seq<string>) returns (pages: TextPages)
      ensures fresh(pages) && pages.Valid() && pages.texts == texts
      ensures pages.index == 0 && !pages.done
    {
      pages := new TextPages(texts);
    }

    /** A `for page in extractor:` loop: run the generator to its end,
        keeping the records it yields and the exception that stopped it. */
    method List(texts: seq<string>) returns (l: Listing)
      ensures l == TextListing(texts)
    {
      var pages := Iter(texts);
      var records := [];
      var error := None;
      while !pages.done
        invariant pages.Valid() && pages.texts == texts
        invariant records == pages.Yielded()
        invariant error == if pages.done && pages.index < |texts| then Some(ParsingFailed(NoTextMessage(pages.index + 1))) else None
        decreases |texts| - pages.index, !pages.done
      {
        var step := pages.Next();
        match step
        case Yield(record) => records := records + [record];
        case Raise(e) => error := Some(e);
        case Stop =>
      }
      l := Listing(records, error);
    }
  }

  /** `OcrPdfExtractor`: everything the text extractor's constructor sets up,
      plus the directory the page images are rendered into. */
  class OcrPdfExtractor {
    const document: TextPdfExtractor
    const outputPath: string

    constructor (document: TextPdfExtractor, outputPath: string)
      ensures this.document == document && this.outputPath == outputPath
    {
      this.document := document;
      this.outputPath := outputPath;
    }

    /** `OcrPdfExtractor(path, password)`: the text extractor's construction
        with its errors, then the output directory "temp/<id>", where `id`
        stands for the random UUID. */
    static method Open(path: string, password: string, fileExists: string -> bool,
                       passwordAccepted: bool, info: seq<Info>, id: string)
      returns (r: Result<OcrPdfExtractor, Error>)
      ensures Validate(path, fileExists).Some? ==> r == Failure(Validate(path, fileExists).value)
      ensures Validate(path, fileExists).None? && !passwordAccepted ==> r == Failure(PasswordIncorrect)
      ensures Validate(path, fileExists).None? && passwordAccepted ==> r.Success?
      ensures r.Success? ==> fresh(r.value) && fresh(r.value.document)
      ensures r.Success? ==> && r.value.document.filePath == path
                             && r.value.document.password == password
                             && r.value.document.info == info
                             && r.value.outputPath == "temp/" + id
    {
      var d := TextPdfExtractor.Open(path, password, fileExists, passwordAccepted, info);
      match d
      case Failure(e) => return Failure(e);
      case Success(doc) =>
        var x := new OcrPdfExtractor(doc, "temp/" + id);
        return Success(x);
    }

    function Metadata(): Option<Info>
    {
      document.Metadata()
    }

    /** `iter(extractor)`, given the texts the OCR collaborator recognises in
        the images rendered from `document.filePath` into `outputPath`. */
    method Iter(texts: seq<string>) returns (pages: OcrPages)
      ensures fresh(pages) && pages.Valid() && pages.texts == texts
      ensures pages.index == 0 && !pages.done
    {
      pages := new OcrPages(texts);
    }

    /** A `for page in extractor:` loop over the OCR strategy. */
    method List(texts: seq<string>) returns (l: Listing)
      ensures l == OcrListing(texts)
    {
      var pages := Iter(texts);
      var records := [];
      while !pages.done
        invariant pages.Valid() && pages.texts == texts
        invariant records == pages.Yielded()
        decreases |texts| - pages.index, !pages.done
      {
        var step := pages.Next();
        if step.Yield? {
          records := records + [step.record];
        }
      }
      assert texts[..|texts|] == texts;
      l := Listing(records, None);
    }
  }
}
