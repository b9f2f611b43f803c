/** What one complete traversal of an extractor yields: the pure
    specification that the generators of module Text are proved against. */
module PageIteration {
  import opened Wrappers
  import opened Interfaces
  import opened Exceptions
  import opened PdfChars
  import Decimal

  /** The records an `enumerate` loop yields for `texts`: the k-th (0-based)
      carries page number k + 1 and the k-th text, unchanged. */
  function Numbered(texts: seq<string>): (records: seq<PageText>)
    ensures |records| == |texts|
    ensures forall k :: 0 <= k < |texts| ==> records[k] == PageText(k + 1, texts[k])
    decreases |texts|
  {
    if texts == [] then []
    else Numbered(texts[..|texts| - 1]) + [PageText(|texts|, texts[|texts| - 1])]
  }

  /** Page numbers are contiguous from 1: no gaps, no repeats, increasing. */
  lemma NumberedIsContiguous(texts: seq<string>, i: int, j: int)
    requires 0 <= i <= j < |texts|
    ensures Numbered(texts)[0].page == 1
    ensures Numbered(texts)[j].page == Numbered(texts)[i].page + (j - i)
  {
  }

  /** Numbering a prefix of the pages gives a prefix of the records. */
  lemma NumberedPrefix(texts: seq<string>, n: nat)
    requires n <= |texts|
    ensures Numbered(texts[..n]) == Numbered(texts)[..n]
  {
  }

  /** The 0-based index of the first page whose text is exactly the form
      feed, or the number of pages when there is none. */
  function FirstFormFeed(texts: seq<string>): (j: nat)
    ensures j <= |texts|
    ensures forall k :: 0 <= k < j ==> texts[k] != FORM_FEED
    ensures j < |texts| ==> texts[j] == FORM_FEED
    decreases |texts|
  {
    if texts == [] || texts[0] == FORM_FEED then 0
    else 1 + FirstFormFeed(texts[1..])
  }

  /** The message of the ParsingFailedError raised for 1-based page `page`. */
  function NoTextMessage(page: nat): string
  {
    "No text found on page " + Decimal.Render(page) + ". Could this be a scanned PDF?"
  }

  /** The message names the page: two messages are equal only for the same page. */
  lemma NoTextMessageNamesPage(a: nat, b: nat)
    requires NoTextMessage(a) == NoTextMessage(b)
    ensures a == b
  {
    var head := "No text found on page ";
    var tail := ". Could this be a scanned PDF?";
    var ra, rb := Decimal.Render(a), Decimal.Render(b);
    assert |ra| == |rb|;
    assert ra == NoTextMessage(a)[|head|..|head| + |ra|];
    assert rb == NoTextMessage(b)[|head|..|head| + |rb|];
    Decimal.RenderInjective(a, b);
  }

  /** What a caller's `for page in extractor:` loop sees over one traversal:
      the records yielded, then the exception that ended the loop, if any.
      (`list(extractor)` would pass that exception on and drop the records.) */
  datatype Listing = Listing(records: seq<PageText>, error: Option<Error>)

  /** A traversal of the text strategy over the converted page texts. */
  function TextListing(texts: seq<string>): Listing
  {
    var j := FirstFormFeed(texts);
    Listing(Numbered(texts[..j]),
            if j < |texts| then Some(ParsingFailed(NoTextMessage(j + 1))) else None)
  }

  /** A traversal of the OCR strategy over the recognised texts. */
  function OcrListing(texts: seq<string>): Listing
  {
    Listing(Numbered(texts), None)
  }

  /** Without a form-feed page the text strategy yields one record per page,
      in page order, numbered 1..n, with the page's text unchanged, and
      ends normally. */
  lemma TextListingWithoutFormFeed(texts: seq<string>)
    requires FORM_FEED !in texts
    ensures TextListing(texts).error == None
    ensures |TextListing(texts).records| == |texts|
    ensures forall k :: 0 <= k < |texts| ==> TextListing(texts).records[k] == PageText(k + 1, texts[k])
  {
  }

  /** When page j + 1 (0-based index j) is the first form-feed page, the text
      strategy yields exactly pages 1..j and then fails with a message
      naming page j + 1. */
  lemma TextListingStopsAtFirstFormFeed(texts: seq<string>, j: nat)
    requires j < |texts| && texts[j] == FORM_FEED
    requires forall k :: 0 <= k < j ==> texts[k] != FORM_FEED
    ensures |TextListing(texts).records| == j
    ensures forall k :: 0 <= k < j ==> TextListing(texts).records[k] == PageText(k + 1, texts[k])
    ensures TextListing(texts).error == Some(ParsingFailed(NoTextMessage(j + 1)))
  {
  }

  /** The text strategy fails exactly when some page is a bare form feed. */
  lemma TextListingFailsIffFormFeed(texts: seq<string>)
    ensures TextListing(texts).error.Some? <==> FORM_FEED in texts
  {
  }

  /** Over the same page texts, what the text strategy yields is a prefix of
      what the OCR strategy yields, and all of it when no page is a form feed. */
  lemma TextListingIsPrefixOfOcr(texts: seq<string>)
    ensures TextListing(texts).records <= OcrListing(texts).records
    ensures FORM_FEED !in texts ==> TextListing(texts) == OcrListing(texts)
  {
  }

  /** The OCR strategy never raises ParsingFailedError, whatever the
      recognised texts are (empty or a bare form feed included), and yields
      one record per text. */
  lemma OcrListingNoParsingFailure(texts: seq<string>)
    ensures OcrListing(texts).error == None
    ensures |OcrListing(texts).records| == |texts|
    ensures forall k :: 0 <= k < |texts| ==> OcrListing(texts).records[k] == PageText(k + 1, texts[k])
  {
  }
}
