/** The four per-format search functions of `search_files.py` (`search_pdf`,
    `search_docx`, `search_pptx`, `search_png`), over the text the parsing libraries
    extract.  Each is a method that builds its match list with loops, proved equal
    to a specification function; the lemmas state what those lists contain. */
module Matching {
  import opened Wrappers
  import opened Text

  /** Where a match was found: the 1-based page, paragraph or slide number.  An
      image record carries no locator. */
  datatype Locator = Page(page: nat) | Paragraph(paragraph: nat) | Slide(slide: nat) | WholeImage

  /** One match dictionary: its locator, its `'text'` and its `'context'`. */
  datatype MatchRecord = MatchRecord(locator: Locator, text: string, context: string)

  /** The cut applied to every `'context'`. */
  const ContextLimit: nat := 300

  /** The cut applied to a slide record's `'text'`. */
  const SlideTextLimit: nat := 200

  /** The number carried by a locator (0 for an image). */
  function Position(l: Locator): nat {
    match l
    case Page(n) => n
    case Paragraph(n) => n
    case Slide(n) => n
    case WholeImage => 0
  }

  /** Locator numbers never decrease along the list. */
  predicate NonDecreasing(records: seq<MatchRecord>) {
    forall a, b :: 0 <= a < b < |records| ==> Position(records[a].locator) <= Position(records[b].locator)
  }

  /** Locator numbers strictly increase along the list, so no number appears twice. */
  predicate Increasing(records: seq<MatchRecord>) {
    forall a, b :: 0 <= a < b < |records| ==> Position(records[a].locator) < Position(records[b].locator)
  }

  /** How many of the lines match the query. */
  function CountMatches(lines: seq<string>, query: string): nat {
    if lines == [] then 0
    else CountMatches(lines[..|lines| - 1], query) + (if Matches(query, lines[|lines| - 1]) then 1 else 0)
  }

  // ===========================================================================
  // Page documents (search_pdf)

  /** The lines shown around line `i`: `lines[max(0, i-1) : min(len(lines), i+2)]`. */
  function Window(lines: seq<string>, i: nat): (w: seq<string>)
    requires i < |lines|
  {
    var lo := if i >= 1 then i - 1 else 0;
    var hi := if i + 2 <= |lines| then i + 2 else |lines|;
    lines[lo..hi]
  }

  /** The record for a matching line `i` of page `pageNum`. */
  function PageLineRecord(lines: seq<string>, i: nat, pageNum: nat): MatchRecord
    requires i < |lines|
  {
    MatchRecord(Page(pageNum), Strip(lines[i]), Take(Join(Window(lines, i), " "), ContextLimit))
  }

  /** The records produced by the first `k` lines of a page. */
  function PageLineRecords(lines: seq<string>, k: nat, pageNum: nat, query: string): seq<MatchRecord>
    requires k <= |lines|
  {
    if k == 0 then []
    else
      PageLineRecords(lines, k - 1, pageNum, query)
      + (if Matches(query, lines[k - 1]) then [PageLineRecord(lines, k - 1, pageNum)] else [])
  }

  /** The records of one page: none when the page text is empty, otherwise one per
      matching line of the text split on newlines. */
  function PageRecords(text: string, pageNum: nat, query: string): seq<MatchRecord> {
    if text == "" then []
    else
      var lines := Split(text, '\n');
      PageLineRecords(lines, |lines|, pageNum, query)
  }

  /** The records of a page document, page after page. */
  function PdfRecords(pages: seq<string>, query: string): seq<MatchRecord> {
    if pages == [] then []
    else PdfRecords(pages[..|pages| - 1], query) + PageRecords(pages[|pages| - 1], |pages|, query)
  }

  /** `search_pdf`: `pages` holds the text extracted from each page (those read
      before any extraction failure). */
  method SearchPdf(pages: seq<string>, query: string) returns (matches: seq<MatchRecord>)
    ensures matches == PdfRecords(pages, query)
  {
    matches := [];
    for p := 0 to |pages|
      invariant matches == PdfRecords(pages[..p], query)
    {
      var found := SearchPage(pages[p], p + 1, query);
      matches := matches + found;
      PdfRecordsExtend(pages, p, query);
    }
    assert pages[..|pages|] == pages;
  }

  /** The body of the page loop of `search_pdf`: the records of page `pageNum`. */
  method SearchPage(text: string, pageNum: nat, query: string) returns (found: seq<MatchRecord>)
    ensures found == PageRecords(text, pageNum, query)
  {
    found := [];
    if text != "" {
      var lines := Split(text, '\n');
      for i := 0 to |lines|
        invariant found == PageLineRecords(lines, i, pageNum, query)
      {
        if Matches(query, lines[i]) {
          var contextStart := if i - 1 > 0 then i - 1 else 0;
          var contextEnd := if |lines| < i + 2 then |lines| else i + 2;
          var context := Join(lines[contextStart..contextEnd], " ");
          LineRecordAt(lines, i, pageNum, contextStart, contextEnd);
          found := found + [MatchRecord(Page(pageNum), Strip(lines[i]), Take(context, ContextLimit))];
        }
      }
    }
  }

  /** The record built with the loop's own context bounds is the line's record. */
  lemma LineRecordAt(lines: seq<string>, i: nat, pageNum: nat, contextStart: int, contextEnd: int)
    requires i < |lines|
    requires contextStart == (if i - 1 > 0 then i - 1 else 0)
    requires contextEnd == (if |lines| < i + 2 then |lines| else i + 2)
    ensures 0 <= contextStart <= contextEnd <= |lines|
    ensures MatchRecord(Page(pageNum), Strip(lines[i]), Take(Join(lines[contextStart..contextEnd], " "), ContextLimit))
         == PageLineRecord(lines, i, pageNum)
  {
    assert lines[contextStart..contextEnd] == Window(lines, i);
  }

  /** Reading one more page appends that page's records. */
  lemma PdfRecordsExtend(pages: seq<string>, p: nat, query: string)
    requires p < |pages|
    ensures PdfRecords(pages[..p + 1], query) == PdfRecords(pages[..p], query) + PageRecords(pages[p], p + 1, query)
  {
    assert pages[..p + 1][..p] == pages[..p];
  }

  /** `r` is the record of some matching line of a page. */
  predicate LineRecordOf(lines: seq<string>, pageNum: nat, query: string, r: MatchRecord) {
    exists i :: 0 <= i < |lines| && Matches(query, lines[i]) && r == PageLineRecord(lines, i, pageNum)
  }

  /** A record of the first `k` lines is the record of a matching line among them. */
  lemma {:induction false} PageLineRecordsMembers(lines: seq<string>, k: nat, pageNum: nat, query: string)
    requires k <= |lines|
    ensures forall r :: r in PageLineRecords(lines, k, pageNum, query) <==>
      exists i :: 0 <= i < k && Matches(query, lines[i]) && r == PageLineRecord(lines, i, pageNum)
  {
    if k > 0 {
      PageLineRecordsMembers(lines, k - 1, pageNum, query);
      var last := if Matches(query, lines[k - 1]) then [PageLineRecord(lines, k - 1, pageNum)] else [];
      assert PageLineRecords(lines, k, pageNum, query) == PageLineRecords(lines, k - 1, pageNum, query) + last;
      forall r
        ensures r in PageLineRecords(lines, k, pageNum, query) <==>
          exists i :: 0 <= i < k && Matches(query, lines[i]) && r == PageLineRecord(lines, i, pageNum)
      {
        if r in last {
          assert Matches(query, lines[k - 1]) && r == PageLineRecord(lines, k - 1, pageNum);
        }
        if exists i :: 0 <= i < k && Matches(query, lines[i]) && r == PageLineRecord(lines, i, pageNum) {
          var i :| 0 <= i < k && Matches(query, lines[i]) && r == PageLineRecord(lines, i, pageNum);
          if i == k - 1 {
            assert r in last;
          }
        }
      }
    }
  }

  /** A page line yields a record exactly when it matches: a page's records are
      those of the matching lines of its text split on newlines, and an empty page
      yields none. */
  lemma PageRecordsMembers(text: string, pageNum: nat, query: string)
    ensures forall r :: r in PageRecords(text, pageNum, query) <==>
      text != "" && LineRecordOf(Split(text, '\n'), pageNum, query, r)
  {
    var lines := Split(text, '\n');
    if text != "" {
      PageLineRecordsMembers(lines, |lines|, pageNum, query);
    }
  }

  /** The first `k` lines give exactly one record per matching line, even when two
      matching lines give equal records. */
  lemma {:induction false} PageLineRecordsCount(lines: seq<string>, k: nat, pageNum: nat, query: string)
    requires k <= |lines|
    ensures |PageLineRecords(lines, k, pageNum, query)| == CountMatches(lines[..k], query)
  {
    if k > 0 {
      PageLineRecordsCount(lines, k - 1, pageNum, query);
      assert lines[..k][..k - 1] == lines[..k - 1];
    }
  }

  /** A page gives one record per matching line of its text, and none when empty. */
  lemma PageRecordsCount(text: string, pageNum: nat, query: string)
    ensures |PageRecords(text, pageNum, query)| == PageMatchCount(text, query)
  {
    if text != "" {
      var lines := Split(text, '\n');
      PageLineRecordsCount(lines, |lines|, pageNum, query);
      assert lines[..|lines|] == lines;
    }
  }

  /** The number of matching lines of a page's text; an empty page has none. */
  function PageMatchCount(text: string, query: string): nat {
    if text == "" then 0 else CountMatches(Split(text, '\n'), query)
  }

  /** The number of matching lines over all pages of a document. */
  function PdfMatchCount(pages: seq<string>, query: string): nat {
    if pages == [] then 0
    else PdfMatchCount(pages[..|pages| - 1], query) + PageMatchCount(pages[|pages| - 1], query)
  }

  /** A page document gives one record per matching line of each of its pages. */
  lemma {:induction false} PdfRecordsCount(pages: seq<string>, query: string)
    ensures |PdfRecords(pages, query)| == PdfMatchCount(pages, query)
  {
    if pages != [] {
      var n := |pages| - 1;
      PdfRecordsCount(pages[..n], query);
      PageRecordsCount(pages[n], n + 1, query);
    }
  }

  /** The records of a page document are the records of its pages, each page
      numbered from 1. */
  lemma PdfRecordsMembers(pages: seq<string>, query: string)
    ensures forall r :: r in PdfRecords(pages, query) <==>
      exists p :: 0 <= p < |pages| && r in PageRecords(pages[p], p + 1, query)
  {
    var lists := PageRecordLists(pages, query);
    PdfRecordsFlatten(pages, query);
    FlattenMembers(lists);
    assert forall p :: 0 <= p < |pages| ==> lists[p] == PageRecords(pages[p], p + 1, query);
  }

  /** The records of each page of a document, page after page. */
  function PageRecordLists(pages: seq<string>, query: string): (lists: seq<seq<MatchRecord>>)
    ensures |lists| == |pages|
  {
    seq(|pages|, p requires 0 <= p < |pages| => PageRecords(pages[p], p + 1, query))
  }

  /** Lists of records, one after the other. */
  function Flatten(lists: seq<seq<MatchRecord>>): seq<MatchRecord> {
    if lists == [] then [] else Flatten(lists[..|lists| - 1]) + lists[|lists| - 1]
  }

  /** A record of flattened lists is a record of one of the lists, and conversely. */
  lemma {:induction false} FlattenMembers(lists: seq<seq<MatchRecord>>)
    ensures forall r :: r in Flatten(lists) <==> exists p :: 0 <= p < |lists| && r in lists[p]
  {
    if lists != [] {
      var n := |lists| - 1;
      FlattenMembers(lists[..n]);
      assert forall p :: 0 <= p < n ==> lists[..n][p] == lists[p];
    }
  }

  /** A page document's records are its pages' records flattened. */
  lemma {:induction false} PdfRecordsFlatten(pages: seq<string>, query: string)
    ensures PdfRecords(pages, query) == Flatten(PageRecordLists(pages, query))
  {
    if pages != [] {
      var n := |pages| - 1;
      var lists := PageRecordLists(pages, query);
      assert lists[..n] == PageRecordLists(pages[..n], query) by {
        assert forall p :: 0 <= p < n ==> pages[..n][p] == pages[p];
      }
      PdfRecordsFlatten(pages[..n], query);
      assert Flatten(lists) == Flatten(lists[..n]) + lists[n];
    }
  }

  /** Page records come in page order, each numbered with a page of the document. */
  lemma {:induction false} PdfRecordsInPageOrder(pages: seq<string>, query: string)
    ensures NonDecreasing(PdfRecords(pages, query))
    ensures forall r :: r in PdfRecords(pages, query) ==> r.locator.Page? && 1 <= r.locator.page <= |pages|
  {
    if pages != [] {
      var n := |pages| - 1;
      PdfRecordsInPageOrder(pages[..n], query);
      PageRecordsOnPage(pages[n], n + 1, query);
      NonDecreasingAppend(PdfRecords(pages[..n], query), PageRecords(pages[n], n + 1, query), n + 1);
    }
  }

  /** Every record of a page carries that page's number. */
  lemma PageRecordsOnPage(text: string, pageNum: nat, query: string)
    ensures forall r :: r in PageRecords(text, pageNum, query) ==> r.locator == Page(pageNum)
  {
    PageRecordsMembers(text, pageNum, query);
  }

  /** Records numbered at most `m` followed by records numbered `m` are in order. */
  lemma NonDecreasingAppend(a: seq<MatchRecord>, b: seq<MatchRecord>, m: nat)
    requires NonDecreasing(a)
    requires forall r :: r in a ==> Position(r.locator) <= m
    requires forall r :: r in b ==> Position(r.locator) == m
    ensures NonDecreasing(a + b)
  {
    var c := a + b;
    forall x, y | 0 <= x < y < |c| ensures Position(c[x].locator) <= Position(c[y].locator) {
      if y < |a| {
        assert c[x] == a[x] && c[y] == a[y];
      } else if x < |a| {
        assert c[x] == a[x] && a[x] in a;
        assert c[y] == b[y - |a|] && b[y - |a|] in b;
      } else {
        assert c[x] == b[x - |a|] && b[x - |a|] in b;
        assert c[y] == b[y - |a|] && b[y - |a|] in b;
      }
    }
  }

  /** A page record's context is the start of the joined window around its line,
      at most 300 characters long.  It holds the whole matched line (so the query)
      whenever the line ends within those 300 characters: the line starts the
      window on the first line of a page, and otherwise follows the line before it
      and one space. */
  lemma PageContextHoldsLine(lines: seq<string>, i: nat, pageNum: nat, query: string)
    requires i < |lines| && Matches(query, lines[i])
    ensures var c := PageLineRecord(lines, i, pageNum).context;
      c <= Join(Window(lines, i), " ") && |c| <= ContextLimit
      && ((if i == 0 then 0 else |lines[i - 1]| + 1) + |lines[i]| <= ContextLimit ==>
            IsSubstring(lines[i], c) && Matches(query, c))
  {
    var w := Window(lines, i);
    var joined := Join(w, " ");
    var c := PageLineRecord(lines, i, pageNum).context;
    var offset := if i == 0 then 0 else |lines[i - 1]| + 1;
    if offset + |lines[i]| <= ContextLimit {
      if i == 0 {
        assert w[0] == lines[0];
        JoinStartsWithFirst(w, " ");
      } else {
        assert w[0] == lines[i - 1] && w[1] == lines[i];
        JoinSecondAt(w, " ");
      }
      LineKeptByCut(lines[i], joined, offset);
      SubstringLower(lines[i], c);
      SubstringTrans(Lower(query), Lower(lines[i]), Lower(c));
    }
  }

  /** Cutting a text to 300 characters keeps a line found in it that ends within
      those 300 characters. */
  lemma LineKeptByCut(line: string, text: string, offset: nat)
    requires offset <= |text| && line <= text[offset..]
    requires offset + |line| <= ContextLimit
    ensures IsSubstring(line, Take(text, ContextLimit))
  {
    var c := Take(text, ContextLimit);
    assert c[offset..][..|line|] == text[offset..][..|line|];
    assert line <= c[offset..];
  }

  // ===========================================================================
  // Word documents (search_docx)

  /** The record of paragraph `i` (0-based): 1-based index, stripped text, and the
      first 300 characters of the paragraph as context. */
  function ParagraphRecord(paragraphs: seq<string>, i: nat): MatchRecord
    requires i < |paragraphs|
  {
    MatchRecord(Paragraph(i + 1), Strip(paragraphs[i]), Take(paragraphs[i], ContextLimit))
  }

  /** The records of a word document, one per matching paragraph. */
  function DocxRecords(paragraphs: seq<string>, query: string): seq<MatchRecord> {
    if paragraphs == [] then []
    else
      var n := |paragraphs| - 1;
      DocxRecords(paragraphs[..n], query)
      + (if Matches(query, paragraphs[n]) then [ParagraphRecord(paragraphs, n)] else [])
  }

  /** `search_docx`: `paragraphs` holds the text of each paragraph read. */
  method SearchDocx(paragraphs: seq<string>, query: string) returns (matches: seq<MatchRecord>)
    ensures matches == DocxRecords(paragraphs, query)
  {
    matches := [];
    for i := 0 to |paragraphs|
      invariant matches == DocxRecords(paragraphs[..i], query)
    {
      var text := paragraphs[i];
      if Matches(query, text) {
        matches := matches + [MatchRecord(Paragraph(i + 1), Strip(text), Take(text, ContextLimit))];
      }
      assert paragraphs[..i + 1][..i] == paragraphs[..i];
    }
    assert paragraphs[..|paragraphs|] == paragraphs;
  }

  /** A paragraph yields a record exactly when it matches. */
  lemma {:induction false} DocxRecordsMembers(paragraphs: seq<string>, query: string)
    ensures forall r :: r in DocxRecords(paragraphs, query) <==>
      exists i :: 0 <= i < |paragraphs| && Matches(query, paragraphs[i]) && r == ParagraphRecord(paragraphs, i)
  {
    if paragraphs != [] {
      var n := |paragraphs| - 1;
      var pre := paragraphs[..n];
      DocxRecordsMembers(pre, query);
      forall i | 0 <= i < n ensures ParagraphRecord(pre, i) == ParagraphRecord(paragraphs, i) {
        assert pre[i] == paragraphs[i];
      }
    }
  }

  /** Paragraph records carry strictly increasing paragraph numbers of the
      document, so there is at most one per paragraph. */
  lemma {:induction false} DocxRecordsIncreasing(paragraphs: seq<string>, query: string)
    ensures Increasing(DocxRecords(paragraphs, query))
    ensures forall r :: r in DocxRecords(paragraphs, query) ==>
      r.locator.Paragraph? && 1 <= r.locator.paragraph <= |paragraphs|
  {
    if paragraphs != [] {
      var n := |paragraphs| - 1;
      DocxRecordsIncreasing(paragraphs[..n], query);
      var a := DocxRecords(paragraphs[..n], query);
      if Matches(query, paragraphs[n]) {
        var r := ParagraphRecord(paragraphs, n);
        assert r.locator == Paragraph(n + 1);
        assert DocxRecords(paragraphs, query) == a + [r];
        assert forall x :: 0 <= x < |a| ==> a[x] in a;
        IncreasingAppend(a, r);
      } else {
        assert DocxRecords(paragraphs, query) == a;
      }
    }
  }

  /** A record placed after records of smaller locator numbers keeps the numbers
      increasing. */
  lemma IncreasingAppend(a: seq<MatchRecord>, r: MatchRecord)
    requires Increasing(a)
    requires forall x :: 0 <= x < |a| ==> Position(a[x].locator) < Position(r.locator)
    ensures Increasing(a + [r])
  {
    var b := a + [r];
    forall i, j | 0 <= i < j < |b| ensures Position(b[i].locator) < Position(b[j].locator) {
      assert b[i] == a[i];
      if j < |a| {
        assert b[j] == a[j];
      }
    }
  }

  // ===========================================================================
  // Slides (search_pptx)

  /** The texts of the shapes that have one (`hasattr(shape, "text")`), in shape order. */
  function ShapeTexts(shapes: seq<Option<string>>): seq<string> {
    if shapes == [] then []
    else
      var n := |shapes| - 1;
      ShapeTexts(shapes[..n]) + (if shapes[n].Some? then [shapes[n].value] else [])
  }

  /** A slide's searchable text: its shape texts joined with a single space. */
  function SlideText(shapes: seq<Option<string>>): string {
    Join(ShapeTexts(shapes), " ")
  }

  /** The record of slide `i` (0-based). */
  function SlideRecord(slides: seq<seq<Option<string>>>, i: nat): MatchRecord
    requires i < |slides|
  {
    var full := SlideText(slides[i]);
    MatchRecord(Slide(i + 1), Take(full, SlideTextLimit), Take(full, ContextLimit))
  }

  /** The records of a presentation, at most one per slide. */
  function PptxRecords(slides: seq<seq<Option<string>>>, query: string): seq<MatchRecord> {
    if slides == [] then []
    else
      var n := |slides| - 1;
      PptxRecords(slides[..n], query)
      + (if Matches(query, SlideText(slides[n])) then [SlideRecord(slides, n)] else [])
  }

  /** `search_pptx`: `slides` holds, for each slide, its shapes and the text of
      those that have a text attribute. */
  method SearchPptx(slides: seq<seq<Option<string>>>, query: string) returns (matches: seq<MatchRecord>)
    ensures matches == PptxRecords(slides, query)
  {
    matches := [];
    for i := 0 to |slides|
      invariant matches == PptxRecords(slides[..i], query)
    {
      var shapes := slides[i];
      var slideText: seq<string> := [];
      for k := 0 to |shapes|
        invariant slideText == ShapeTexts(shapes[..k])
      {
        if shapes[k].Some? {
          slideText := slideText + [shapes[k].value];
        }
        assert shapes[..k + 1][..k] == shapes[..k];
      }
      assert shapes[..|shapes|] == shapes;
      var fullText := Join(slideText, " ");
      if Matches(query, fullText) {
        matches := matches + [MatchRecord(Slide(i + 1), Take(fullText, SlideTextLimit), Take(fullText, ContextLimit))];
      }
      assert slides[..i + 1][..i] == slides[..i];
    }
    assert slides[..|slides|] == slides;
  }

  /** A slide yields a record exactly when its joined text matches; slide numbers
      strictly increase, so there are at most as many records as slides; a
      record's text is the first 200 characters of its context. */
  lemma PptxRecordsMembers(slides: seq<seq<Option<string>>>, query: string)
    ensures forall r :: r in PptxRecords(slides, query) <==>
      exists i :: 0 <= i < |slides| && Matches(query, SlideText(slides[i])) && r == SlideRecord(slides, i)
    ensures Increasing(PptxRecords(slides, query))
    ensures |PptxRecords(slides, query)| <= |slides|
    ensures forall r :: r in PptxRecords(slides, query) ==>
      |r.text| <= SlideTextLimit && |r.context| <= ContextLimit && r.text <= r.context
  {
    PptxRecordsExactly(slides, query);
    PptxRecordsIncreasing(slides, query);
    PptxRecordsAtMostOnePerSlide(slides, query);
    forall r | r in PptxRecords(slides, query)
      ensures |r.text| <= SlideTextLimit && |r.context| <= ContextLimit && r.text <= r.context
    {
      var i :| 0 <= i < |slides| && Matches(query, SlideText(slides[i])) && r == SlideRecord(slides, i);
      SlideRecordBounded(slides, i);
    }
  }

  /** A slide record's text is a prefix of its context, at most 200 against 300. */
  lemma SlideRecordBounded(slides: seq<seq<Option<string>>>, i: nat)
    requires i < |slides|
    ensures var r := SlideRecord(slides, i);
      |r.text| <= SlideTextLimit && |r.context| <= ContextLimit && r.text <= r.context
  {
    var full := SlideText(slides[i]);
    var t, c := Take(full, SlideTextLimit), Take(full, ContextLimit);
    assert t == full[..|t|] && c == full[..|c|] && |t| <= |c|;
    assert c[..|t|] == t;
  }

  /** A slide yields a record exactly when its joined text matches. */
  lemma {:induction false} PptxRecordsExactly(slides: seq<seq<Option<string>>>, query: string)
    ensures forall r :: r in PptxRecords(slides, query) <==>
      exists i :: 0 <= i < |slides| && Matches(query, SlideText(slides[i])) && r == SlideRecord(slides, i)
  {
    if slides != [] {
      var n := |slides| - 1;
      var pre := slides[..n];
      PptxRecordsExactly(pre, query);
      forall i | 0 <= i < n ensures pre[i] == slides[i] && SlideRecord(pre, i) == SlideRecord(slides, i) {
      }
    }
  }

  /** Slide numbers strictly increase along the records and lie between 1 and the
      slide count. */
  lemma {:induction false} PptxRecordsIncreasing(slides: seq<seq<Option<string>>>, query: string)
    ensures Increasing(PptxRecords(slides, query))
    ensures forall r :: r in PptxRecords(slides, query) ==> r.locator.Slide? && 1 <= r.locator.slide <= |slides|
  {
    if slides != [] {
      var n := |slides| - 1;
      PptxRecordsIncreasing(slides[..n], query);
      var a := PptxRecords(slides[..n], query);
      if Matches(query, SlideText(slides[n])) {
        assert forall x :: 0 <= x < |a| ==> a[x] in a;
        IncreasingAppend(a, SlideRecord(slides, n));
      }
    }
  }

  /** There are at most as many records as slides. */
  lemma {:induction false} PptxRecordsAtMostOnePerSlide(slides: seq<seq<Option<string>>>, query: string)
    ensures |PptxRecords(slides, query)| <= |slides|
  {
    if slides != [] {
      PptxRecordsAtMostOnePerSlide(slides[..|slides| - 1], query);
    }
  }

  // ===========================================================================
  // Images (search_png)

  /** The records produced by the first `k` OCR lines; each has the whole text's
      first 300 characters as context. */
  function ImageLineRecords(text: string, lines: seq<string>, k: nat, query: string): seq<MatchRecord>
    requires k <= |lines|
  {
    if k == 0 then []
    else
      ImageLineRecords(text, lines, k - 1, query)
      + (if Matches(query, lines[k - 1]) then [ImageLineRecord(text, lines[k - 1])] else [])
  }

  /** The records of an image: none when OCR failed or the whole text does not
      match, otherwise one per matching OCR line. */
  function PngRecords(ocr: Option<string>, query: string): seq<MatchRecord> {
    match ocr
    case None => []
    case Some(text) =>
      if Matches(query, text) then
        var lines := Split(text, '\n');
        ImageLineRecords(text, lines, |lines|, query)
      else []
  }

  /** `search_png`: `ocr` is the recognised text, `None` when OCR failed. */
  method SearchPng(ocr: Option<string>, query: string) returns (matches: seq<MatchRecord>)
    ensures matches == PngRecords(ocr, query)
  {
    matches := [];
    if ocr.Some? {
      var text := ocr.value;
      if Matches(query, text) {
        var lines := Split(text, '\n');
        for i := 0 to |lines|
          invariant matches == ImageLineRecords(text, lines, i, query)
        {
          if Matches(query, lines[i]) {
            matches := matches + [MatchRecord(WholeImage, Strip(lines[i]), Take(text, ContextLimit))];
          }
        }
      }
    }
  }

  /** The first `k` OCR lines yield one record per matching line, each with the
      text's first 300 characters as context. */
  lemma {:induction false} ImageLineRecordsCount(text: string, lines: seq<string>, k: nat, query: string)
    requires k <= |lines|
    ensures |ImageLineRecords(text, lines, k, query)| == CountMatches(lines[..k], query)
    ensures forall r :: r in ImageLineRecords(text, lines, k, query) ==>
      r.locator == WholeImage && r.context == Take(text, ContextLimit)
  {
    if k > 0 {
      ImageLineRecordsCount(text, lines, k - 1, query);
      assert lines[..k][..k - 1] == lines[..k - 1];
    }
  }

  /** The record of a matching OCR line: its stripped text, with the whole text's
      first 300 characters as context. */
  function ImageLineRecord(text: string, line: string): MatchRecord {
    MatchRecord(WholeImage, Strip(line), Take(text, ContextLimit))
  }

  /** A record of the first `k` OCR lines is the record of a matching line among
      them, and every matching line has one. */
  lemma {:induction false} ImageLineRecordsMembers(text: string, lines: seq<string>, k: nat, query: string)
    requires k <= |lines|
    ensures forall r :: r in ImageLineRecords(text, lines, k, query) <==>
      exists i :: 0 <= i < k && Matches(query, lines[i]) && r == ImageLineRecord(text, lines[i])
  {
    if k > 0 {
      ImageLineRecordsMembers(text, lines, k - 1, query);
    }
  }

  /** The records of an image are those of its matching OCR lines `lines`: the
      whole-text guard drops none, since a matching line makes the whole text match. */
  lemma PngRecordsMembers(text: string, lines: seq<string>, query: string)
    requires lines == Split(text, '\n')
    ensures forall r :: r in PngRecords(Some(text), query) <==>
      exists i :: 0 <= i < |lines| && Matches(query, lines[i]) && r == ImageLineRecord(text, lines[i])
  {
    if Matches(query, text) {
      assert PngRecords(Some(text), query) == ImageLineRecords(text, lines, |lines|, query);
      ImageLineRecordsMembers(text, lines, |lines|, query);
    } else {
      assert PngRecords(Some(text), query) == [];
      NoMatchingLine(text, query);
    }
  }

  /** A text the query does not match has no line the query matches. */
  lemma NoMatchingLine(text: string, query: string)
    requires !Matches(query, text)
    ensures forall i :: 0 <= i < |Split(text, '\n')| ==> !Matches(query, Split(text, '\n')[i])
  {
    forall i | 0 <= i < |Split(text, '\n')| ensures !Matches(query, Split(text, '\n')[i]) {
      if Matches(query, Split(text, '\n')[i]) {
        LineMatchImpliesTextMatch(query, text, '\n', i);
      }
    }
  }

  /** A non-empty page whose text contains a query without a newline yields a
      record: the query then lies within one line of the page. */
  lemma PageMatchHasRecord(text: string, pageNum: nat, query: string)
    requires '\n' !in query && text != "" && Matches(query, text)
    ensures |PageRecords(text, pageNum, query)| >= 1
  {
    var lines := Split(text, '\n');
    TextMatchImpliesLineMatch(query, text, '\n');
    var k :| 0 <= k < |lines| && Matches(query, lines[k]);
    PageLineRecordsMembers(lines, |lines|, pageNum, query);
    assert PageLineRecord(lines, k, pageNum) in PageRecords(text, pageNum, query);
  }

  /** A document with a non-empty page that contains a query without a newline
      yields a record. */
  lemma PdfMatchHasRecord(pages: seq<string>, p: nat, query: string)
    requires '\n' !in query && p < |pages| && pages[p] != "" && Matches(query, pages[p])
    ensures |PdfRecords(pages, query)| >= 1
  {
    PageMatchHasRecord(pages[p], p + 1, query);
    PdfRecordsMembers(pages, query);
    assert PageRecords(pages[p], p + 1, query)[0] in PdfRecords(pages, query);
  }

  /** An OCR text that contains a query without a newline yields a record. */
  lemma PngMatchHasRecord(text: string, query: string)
    requires '\n' !in query && Matches(query, text)
    ensures |PngRecords(Some(text), query)| >= 1
  {
    var lines := Split(text, '\n');
    TextMatchImpliesLineMatch(query, text, '\n');
    var k :| 0 <= k < |lines| && Matches(query, lines[k]);
    PngRecordsMembers(text, lines, query);
    assert ImageLineRecord(text, lines[k]) in PngRecords(Some(text), query);
  }

  /** A query holding a newline can match a page, or an OCR text, and still yield
      no record: searching `a + "\n" + b` for itself splits it into `a` and `b`,
      and each is shorter than the query. */
  lemma NewlineQueryMissed(a: string, b: string, text: string)
    requires '\n' !in a && '\n' !in b && text == a + "\n" + b
    ensures text != "" && Matches(text, text)
    ensures PdfRecords([text], text) == [] && PngRecords(Some(text), text) == []
  {
    assert text == a + ['\n'] + b;
    SplitAtFirst(a, '\n', b);
    SplitFree(b, '\n');
    var lines := Split(text, '\n');
    assert lines == [a] + [b] == [a, b];
    NoMatchWhenLonger(text, a);
    NoMatchWhenLonger(text, b);
    MatchAt(text, text, 0);
    assert CountMatches(lines[..1], text) == 0 by {
      assert lines[..1][..0] == [];
    }
    assert CountMatches(lines, text) == 0;
    PageRecordsCount(text, 1, text);
    PngRecordsCount(text, text);
    assert [text][..0] == [];
  }

  /** When no line of a text matches, none of the first `k` lines yields a record. */
  lemma {:induction false} NoLineMatches(text: string, lines: seq<string>, k: nat, query: string)
    requires k <= |lines|
    requires forall i :: 0 <= i < |lines| ==> !Matches(query, lines[i])
    ensures ImageLineRecords(text, lines, k, query) == []
    ensures CountMatches(lines[..k], query) == 0
  {
    if k > 0 {
      NoLineMatches(text, lines, k - 1, query);
      assert lines[..k][..k - 1] == lines[..k - 1];
    }
  }

  /** An image yields exactly one record per matching OCR line: the guard on the
      whole text never hides a line match, because a line that contains the query
      is part of the text. */
  lemma PngRecordsCount(text: string, query: string)
    ensures |PngRecords(Some(text), query)| == CountMatches(Split(text, '\n'), query)
    ensures forall r :: r in PngRecords(Some(text), query) ==>
      r.locator == WholeImage && r.context == Take(text, ContextLimit)
  {
    var lines := Split(text, '\n');
    assert lines[..|lines|] == lines;
    if Matches(query, text) {
      ImageLineRecordsCount(text, lines, |lines|, query);
    } else {
      forall i | 0 <= i < |lines| ensures !Matches(query, lines[i]) {
        if Matches(query, lines[i]) {
          LineMatchImpliesTextMatch(query, text, '\n', i);
        }
      }
      NoLineMatches(text, lines, |lines|, query);
    }
  }

  // ===========================================================================
  // Properties shared by the four formats

  /** Every page record's context is at most 300 characters. */
  lemma PdfContextsBounded(pages: seq<string>, query: string)
    ensures forall r :: r in PdfRecords(pages, query) ==> |r.context| <= ContextLimit
  {
    PdfRecordsMembers(pages, query);
    forall r | r in PdfRecords(pages, query) ensures |r.context| <= ContextLimit {
      var p :| 0 <= p < |pages| && r in PageRecords(pages[p], p + 1, query);
      PageRecordsMembers(pages[p], p + 1, query);
    }
  }

  /** Every paragraph record's context is at most 300 characters. */
  lemma DocxContextsBounded(paragraphs: seq<string>, query: string)
    ensures forall r :: r in DocxRecords(paragraphs, query) ==> |r.context| <= ContextLimit
  {
    DocxRecordsMembers(paragraphs, query);
  }

  /** The search functions see the query only through `query.lower()`. */
  lemma {:induction false} PageLineRecordsCase(lines: seq<string>, k: nat, pageNum: nat, q1: string, q2: string)
    requires k <= |lines| && Lower(q1) == Lower(q2)
    ensures PageLineRecords(lines, k, pageNum, q1) == PageLineRecords(lines, k, pageNum, q2)
  {
    if k > 0 {
      PageLineRecordsCase(lines, k - 1, pageNum, q1, q2);
    }
  }

  lemma {:induction false} PdfRecordsCase(pages: seq<string>, q1: string, q2: string)
    requires Lower(q1) == Lower(q2)
    ensures PdfRecords(pages, q1) == PdfRecords(pages, q2)
  {
    if pages != [] {
      var n := |pages| - 1;
      PdfRecordsCase(pages[..n], q1, q2);
      var lines := Split(pages[n], '\n');
      PageLineRecordsCase(lines, |lines|, n + 1, q1, q2);
    }
  }

  lemma {:induction false} DocxRecordsCase(paragraphs: seq<string>, q1: string, q2: string)
    requires Lower(q1) == Lower(q2)
    ensures DocxRecords(paragraphs, q1) == DocxRecords(paragraphs, q2)
  {
    if paragraphs != [] {
      DocxRecordsCase(paragraphs[..|paragraphs| - 1], q1, q2);
    }
  }

  lemma {:induction false} PptxRecordsCase(slides: seq<seq<Option<string>>>, q1: string, q2: string)
    requires Lower(q1) == Lower(q2)
    ensures PptxRecords(slides, q1) == PptxRecords(slides, q2)
  {
    if slides != [] {
      PptxRecordsCase(slides[..|slides| - 1], q1, q2);
    }
  }

  lemma {:induction false} ImageLineRecordsCase(text: string, lines: seq<string>, k: nat, q1: string, q2: string)
    requires k <= |lines| && Lower(q1) == Lower(q2)
    ensures ImageLineRecords(text, lines, k, q1) == ImageLineRecords(text, lines, k, q2)
  {
    if k > 0 {
      ImageLineRecordsCase(text, lines, k - 1, q1, q2);
    }
  }

  lemma PngRecordsCase(ocr: Option<string>, q1: string, q2: string)
    requires Lower(q1) == Lower(q2)
    ensures PngRecords(ocr, q1) == PngRecords(ocr, q2)
  {
    if ocr.Some? {
      var lines := Split(ocr.value, '\n');
      ImageLineRecordsCase(ocr.value, lines, |lines|, q1, q2);
    }
  }

  // ===========================================================================
  // Worked examples

  /** A page whose lines are "Hello", "World Budget Plan" and "End", searched for
      "budget", gives one record on page 1 whose context is the three lines joined
      by spaces. */
  lemma PageExample()
    ensures PdfRecords(["Hello" + "\n" + "World Budget Plan" + "\n" + "End"], "budget")
         == [MatchRecord(Page(1), "World Budget Plan", "Hello" + " " + "World Budget Plan" + " " + "End")]
  {
    PageExampleMatches();
    assert '\n' !in "Hello" && '\n' !in "World Budget Plan" && '\n' !in "End";
    OnlyMiddleLineMatches("Hello", "World Budget Plan", "End", "budget",
      "Hello" + "\n" + "World Budget Plan" + "\n" + "End", "Hello" + " " + "World Budget Plan" + " " + "End");
  }

  lemma PageExampleMatches()
    ensures !Matches("budget", "Hello") && !Matches("budget", "End")
    ensures Matches("budget", "World Budget Plan")
  {
    NoMatchWhenLonger("budget", "Hello");
    NoMatchWhenLonger("budget", "End");
    MatchAt("budget", "World Budget Plan", 6);
  }

  /** A single page of three lines of which only the middle one matches gives one
      record, on page 1, for that line with all three lines as its context. */
  lemma OnlyMiddleLineMatches(a: string, b: string, c: string, query: string, text: string, context: string)
    requires !Matches(query, a) && Matches(query, b) && !Matches(query, c)
    requires '\n' !in a && '\n' !in b && '\n' !in c
    requires b != [] && !IsSpace(b[0]) && !IsSpace(b[|b| - 1])
    requires text == a + "\n" + b + "\n" + c
    requires context == a + " " + b + " " + c && |context| <= ContextLimit
    ensures PdfRecords([text], query) == [MatchRecord(Page(1), b, context)]
  {
    var lines := [a, b, c];
    ThreeLines(a, b, c, text);
    MiddleLineRecord(a, b, c, context);
    assert PageLineRecords(lines, 1, 1, query) == [];
    assert PageLineRecords(lines, 2, 1, query) == [MatchRecord(Page(1), b, context)];
    assert PageLineRecords(lines, 3, 1, query) == [MatchRecord(Page(1), b, context)];
    assert PageRecords(text, 1, query) == [MatchRecord(Page(1), b, context)];
    assert [text][..0] == [];
  }

  /** Three newline-free lines joined by newlines split back into those lines. */
  lemma ThreeLines(a: string, b: string, c: string, text: string)
    requires '\n' !in a && '\n' !in b && '\n' !in c
    requires text == a + "\n" + b + "\n" + c
    ensures text != "" && Split(text, '\n') == [a, b, c]
  {
    JoinThree(a, b, c, "\n");
    SplitJoin([a, b, c], '\n');
  }

  /** The middle of three lines has all three, joined by spaces, as its context. */
  lemma MiddleLineRecord(a: string, b: string, c: string, context: string)
    requires b != [] && !IsSpace(b[0]) && !IsSpace(b[|b| - 1])
    requires context == a + " " + b + " " + c && |context| <= ContextLimit
    ensures PageLineRecord([a, b, c], 1, 1) == MatchRecord(Page(1), b, context)
  {
    var lines := [a, b, c];
    StripUnchanged(b);
    var joined := Join(Window(lines, 1), " ");
    assert joined == context by {
      JoinThree(a, b, c, " ");
      assert Window(lines, 1) == lines;
    }
    assert Take(joined, ContextLimit) == context;
    assert PageLineRecord(lines, 1, 1) == MatchRecord(Page(1), Strip(lines[1]), Take(joined, ContextLimit));
  }

  /** Paragraphs "Intro", "The Budget is tight" and "Budget review", searched for
      "budget", give records for paragraphs 2 and 3. */
  lemma ParagraphExample()
    ensures DocxRecords(["Intro", "The Budget is tight", "Budget review"], "budget")
         == [MatchRecord(Paragraph(2), "The Budget is tight", "The Budget is tight"),
             MatchRecord(Paragraph(3), "Budget review", "Budget review")]
  {
    ParagraphExampleFacts();
    LaterTwoOfThreeMatch("Intro", "The Budget is tight", "Budget review", "budget");
  }

  lemma ParagraphExampleFacts()
    ensures !Matches("budget", "Intro")
    ensures Matches("budget", "The Budget is tight") && Matches("budget", "Budget review")
  {
    NoMatchWhenLonger("budget", "Intro");
    MatchAt("budget", "The Budget is tight", 4);
    MatchAt("budget", "Budget review", 0);
  }


  /** A three-paragraph document whose second and third paragraphs match, and are
      short and unpadded, gives their records and no other. */
  lemma LaterTwoOfThreeMatch(a: string, b: string, c: string, query: string)
    requires !Matches(query, a) && Matches(query, b) && Matches(query, c)
    requires b != [] && !IsSpace(b[0]) && !IsSpace(b[|b| - 1]) && |b| <= ContextLimit
    requires c != [] && !IsSpace(c[0]) && !IsSpace(c[|c| - 1]) && |c| <= ContextLimit
    ensures DocxRecords([a, b, c], query)
         == [MatchRecord(Paragraph(2), b, b), MatchRecord(Paragraph(3), c, c)]
  {
    var ps := [a, b, c];
    StripUnchanged(b);
    StripUnchanged(c);
    assert ps[..2] == [a, b] && [a, b][..1] == [a] && [a][..0] == [];
    assert DocxRecords([a], query) == [];
    assert DocxRecords([a, b], query) == [ParagraphRecord([a, b], 1)];
    assert ParagraphRecord([a, b], 1) == MatchRecord(Paragraph(2), b, b);
    assert ParagraphRecord(ps, 2) == MatchRecord(Paragraph(3), c, c);
  }

  /** A third slide whose two text shapes read "Q1 Revenue" and "Budget exceeded"
      is searched as "Q1 Revenue Budget exceeded" and matches "budget"; the two
      slides before it have no text. */
  lemma SlideExample()
    ensures PptxRecords([[], [None], [Some("Q1 Revenue"), Some("Budget exceeded")]], "budget")
         == [MatchRecord(Slide(3), "Q1 Revenue" + " " + "Budget exceeded", "Q1 Revenue" + " " + "Budget exceeded")]
  {
    var shapes: seq<Option<string>> := [Some("Q1 Revenue"), Some("Budget exceeded")];
    var none: seq<Option<string>> := [None];
    var empty: seq<Option<string>> := [];
    TwoShapesText("Q1 Revenue", "Budget exceeded");
    NoTextSlides();
    SlideExampleMatches();
    OnlyThirdSlideMatches(empty, none, shapes, "budget");
  }

  lemma SlideExampleMatches()
    ensures !Matches("budget", "")
    ensures Matches("budget", "Q1 Revenue" + " " + "Budget exceeded")
    ensures |"Q1 Revenue" + " " + "Budget exceeded"| <= SlideTextLimit
  {
    NoMatchWhenLonger("budget", "");
    MatchAt("budget", "Q1 Revenue" + " " + "Budget exceeded", 11);
  }

  /** A slide with two text shapes reads as the two texts joined by a space. */
  lemma TwoShapesText(x: string, y: string)
    ensures SlideText([Some(x), Some(y)]) == x + " " + y
  {
    var shapes := [Some(x), Some(y)];
    var first := [Some(x)];
    var none: seq<Option<string>> := [];
    assert ShapeTexts(first) == [x] by {
      assert first[..0] == none;
    }
    assert ShapeTexts(shapes) == [x, y] by {
      assert shapes[..1] == first;
    }
    assert Join([x, y], " ") == x + " " + y by {
      assert [x, y][1..] == [y];
    }
  }

  /** A slide without shapes, or whose one shape has no text, reads as "". */
  lemma NoTextSlides()
    ensures SlideText([]) == "" && SlideText([None]) == ""
  {
    var none: seq<Option<string>> := [None];
    assert none[..0] == [];
  }

  /** Three slides of which only the third matches, with text short enough to be
      kept whole, give one record for slide 3. */
  lemma OnlyThirdSlideMatches(s1: seq<Option<string>>, s2: seq<Option<string>>, s3: seq<Option<string>>, query: string)
    requires !Matches(query, SlideText(s1)) && !Matches(query, SlideText(s2)) && Matches(query, SlideText(s3))
    requires |SlideText(s3)| <= SlideTextLimit
    ensures PptxRecords([s1, s2, s3], query) == [MatchRecord(Slide(3), SlideText(s3), SlideText(s3))]
  {
    var slides := [s1, s2, s3];
    assert slides[..2] == [s1, s2] && [s1, s2][..1] == [s1] && [s1][..0] == [];
    assert PptxRecords([s1], query) == [];
    assert PptxRecords([s1, s2], query) == [];
    assert SlideRecord(slides, 2) == MatchRecord(Slide(3), SlideText(s3), SlideText(s3));
  }
}
