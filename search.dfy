/** `search_all_files`, the query check and totals of the `/search` handler, and
    the path fallback of the `/open-file` handler.  The directory listing and the
    text the parsing libraries extract from each file are parameters. */
module Search {
  import opened Wrappers
  import opened Text
  import opened Paths
  import opened Matching
  import opened Ranking

  /** What the parsing libraries extract from a file: the text of each page read,
      the text of each paragraph, the text of each shape of each slide (`None` for
      a shape without text), and the OCR text of an image (`None` when OCR failed). */
  datatype Extractors = Extractors(
    pdfPages: Path -> seq<string>,
    docxParagraphs: Path -> seq<string>,
    pptxSlides: Path -> seq<seq<Option<string>>>,
    ocrText: Path -> Option<string>)

  /** The match list of one file, chosen by its lower-cased suffix. */
  function DocRecords(f: Path, ex: Extractors, query: string): seq<MatchRecord> {
    var ext := Lower(Suffix(f.name));
    if ext == ".pdf" then PdfRecords(ex.pdfPages(f), query)
    else if ext == ".docx" then DocxRecords(ex.docxParagraphs(f), query)
    else if ext == ".pptx" then PptxRecords(ex.pptxSlides(f), query)
    else if ext == ".png" then PngRecords(ex.ocrText(f), query)
    else []
  }

  /** `ext[1:].upper()`: the type label of a result entry. */
  function KindOf(ext: string): string {
    Upper(if ext == [] then [] else ext[1..])
  }

  /** The result entry of a file with the given match list. */
  function FileResult(f: Path, matches: seq<MatchRecord>): DocumentResult {
    DocumentResult(f.name, PathText(f), KindOf(Lower(Suffix(f.name))), matches, |matches|)
  }

  /** The entries appended while scanning `files`, in scan order: one per file
      with at least one match. */
  function Collected(files: seq<Path>, ex: Extractors, query: string): seq<DocumentResult> {
    if files == [] then []
    else
      var f := files[|files| - 1];
      var m := DocRecords(f, ex, query);
      Collected(files[..|files| - 1], ex, query) + (if m == [] then [] else [FileResult(f, m)])
  }

  /** The ranked results of a search over a directory listing. */
  function SearchResults(listing: seq<DirEntry>, ex: Extractors, query: string): seq<DocumentResult> {
    SortByCount(Collected(SupportedFiles(listing), ex, query))
  }

  /** The dispatch of `search_all_files` on one file's lower-cased suffix. */
  method SearchFile(f: Path, ex: Extractors, query: string) returns (matches: seq<MatchRecord>)
    ensures matches == DocRecords(f, ex, query)
  {
    var ext := Lower(Suffix(f.name));
    matches := [];
    if ext == ".pdf" {
      matches := SearchPdf(ex.pdfPages(f), query);
    } else if ext == ".docx" {
      matches := SearchDocx(ex.docxParagraphs(f), query);
    } else if ext == ".pptx" {
      matches := SearchPptx(ex.pptxSlides(f), query);
    } else if ext == ".png" {
      matches := SearchPng(ex.ocrText(f), query);
    }
  }

  /** `search_all_files`: scans the supported files, keeps those with matches and
      ranks them by match count. */
  method SearchAllFiles(listing: seq<DirEntry>, ex: Extractors, query: string)
    returns (results: seq<DocumentResult>)
    ensures results == SearchResults(listing, ex, query)
  {
    var files := SupportedFiles(listing);
    var collected := Scan(files, ex, query);
    results := Rank(collected);
  }

  /** The loop of `search_all_files`: one entry appended per file with matches. */
  method Scan(files: seq<Path>, ex: Extractors, query: string) returns (collected: seq<DocumentResult>)
    ensures collected == Collected(files, ex, query)
  {
    collected := [];
    for n := 0 to |files|
      invariant collected == Collected(files[..n], ex, query)
    {
      var filePath := files[n];
      var matches := SearchFile(filePath, ex, query);
      if matches != [] {
        collected := collected + [FileResult(filePath, matches)];
      }
      CollectedExtend(files, n, ex, query);
    }
    assert files[..|files|] == files;
  }

  /** Scanning one more file appends its entry, if it has matches. */
  lemma CollectedExtend(files: seq<Path>, n: nat, ex: Extractors, query: string)
    requires n < |files|
    ensures var m := DocRecords(files[n], ex, query);
      Collected(files[..n + 1], ex, query)
      == Collected(files[..n], ex, query) + (if m == [] then [] else [FileResult(files[n], m)])
  {
    assert files[..n + 1][..n] == files[..n];
  }

  /** `results.sort(...)` on the list built by the scan. */
  method Rank(collected: seq<DocumentResult>) returns (results: seq<DocumentResult>)
    ensures results == SortByCount(collected)
  {
    var a := new DocumentResult[|collected|](i requires 0 <= i < |collected| => collected[i]);
    assert a[..] == collected;
    SortByMatchCount(a);
    results := a[..];
  }

  // ---------------------------------------------------------------------------
  // What a result list contains

  /** The scanned entries are exactly the files with matches, each with its own
      match list and a count equal to its length. */
  lemma CollectedMembers(files: seq<Path>, ex: Extractors, query: string)
    ensures forall r :: r in Collected(files, ex, query) <==>
      exists f :: f in files && DocRecords(f, ex, query) != [] && r == FileResult(f, DocRecords(f, ex, query))
  {
    var entries := FileEntries(files, ex, query);
    CollectedKept(files, ex, query);
    KeptMembers(entries);
    forall r
      ensures r in Collected(files, ex, query) <==>
        exists f :: f in files && DocRecords(f, ex, query) != [] && r == FileResult(f, DocRecords(f, ex, query))
    {
      if r in Collected(files, ex, query) {
        var i :| 0 <= i < |entries| && entries[i] == r;
        assert files[i] in files;
      } else {
        forall f | f in files && DocRecords(f, ex, query) != []
          ensures r != FileResult(f, DocRecords(f, ex, query))
        {
          var i :| 0 <= i < |files| && files[i] == f;
          assert entries[i] == FileResult(f, DocRecords(f, ex, query));
        }
      }
    }
  }

  /** The entry each file would have, in scan order. */
  function FileEntries(files: seq<Path>, ex: Extractors, query: string): (entries: seq<DocumentResult>)
    ensures |entries| == |files|
  {
    seq(|files|, i requires 0 <= i < |files| => FileResult(files[i], DocRecords(files[i], ex, query)))
  }

  /** The entries whose match list is not empty, in order. */
  function Kept(entries: seq<DocumentResult>): seq<DocumentResult> {
    if entries == [] then []
    else
      var n := |entries| - 1;
      Kept(entries[..n]) + (if entries[n].matches == [] then [] else [entries[n]])
  }

  /** An entry is kept exactly when its match list is not empty. */
  lemma {:induction false} KeptMembers(entries: seq<DocumentResult>)
    ensures forall r :: r in Kept(entries) <==> r in entries && r.matches != []
  {
    if entries != [] {
      var n := |entries| - 1;
      KeptMembers(entries[..n]);
      assert entries == entries[..n] + [entries[n]];
    }
  }

  /** The scan keeps the entries of the files whose match list is not empty. */
  lemma {:induction false} CollectedKept(files: seq<Path>, ex: Extractors, query: string)
    ensures Collected(files, ex, query) == Kept(FileEntries(files, ex, query))
  {
    if files != [] {
      var n := |files| - 1;
      var entries := FileEntries(files, ex, query);
      assert entries[..n] == FileEntries(files[..n], ex, query) by {
        assert forall i :: 0 <= i < n ==> files[..n][i] == files[i];
      }
      CollectedKept(files[..n], ex, query);
      assert Kept(entries) == Kept(entries[..n]) + (if entries[n].matches == [] then [] else [entries[n]]);
    }
  }

  /** Every supported file with at least one match has its entry in the results,
      and every entry is that of a supported file with at least one match: files
      with no match are absent. */
  lemma ResultsAreMatchingFiles(listing: seq<DirEntry>, ex: Extractors, query: string)
    ensures forall f :: f in SupportedFiles(listing) && DocRecords(f, ex, query) != [] ==>
      FileResult(f, DocRecords(f, ex, query)) in SearchResults(listing, ex, query)
    ensures forall r :: r in SearchResults(listing, ex, query) ==>
      exists f :: f in SupportedFiles(listing) && DocRecords(f, ex, query) != [] && r == FileResult(f, DocRecords(f, ex, query))
  {
    var collected := Collected(SupportedFiles(listing), ex, query);
    CollectedMembers(SupportedFiles(listing), ex, query);
    SortByCountPermutes(collected);
    assert forall r :: r in SearchResults(listing, ex, query) <==> r in collected by {
      forall r ensures r in SearchResults(listing, ex, query) <==> r in collected {
        assert r in SearchResults(listing, ex, query) <==> r in multiset(SearchResults(listing, ex, query));
        assert r in collected <==> r in multiset(collected);
      }
    }
  }

  /** The text a file's extractor yields contains the query, in the unit its format
      tests: a non-empty page, a paragraph, the joined shape text of a slide, or the
      OCR text of an image. */
  predicate ExtractedTextMatches(f: Path, ex: Extractors, query: string) {
    var ext := Lower(Suffix(f.name));
    if ext == ".pdf" then
      exists p :: 0 <= p < |ex.pdfPages(f)| && ex.pdfPages(f)[p] != "" && Matches(query, ex.pdfPages(f)[p])
    else if ext == ".docx" then
      exists i :: 0 <= i < |ex.docxParagraphs(f)| && Matches(query, ex.docxParagraphs(f)[i])
    else if ext == ".pptx" then
      exists i :: 0 <= i < |ex.pptxSlides(f)| && Matches(query, SlideText(ex.pptxSlides(f)[i]))
    else if ext == ".png" then
      ex.ocrText(f).Some? && Matches(query, ex.ocrText(f).value)
    else false
  }

  /** A supported file whose extracted text contains the query is listed in the
      results, with at least one match.  Pages and OCR text are tested line by
      line, so for them the query must hold no newline (`NewlineQueryMissed`). */
  lemma MatchingFileListed(listing: seq<DirEntry>, ex: Extractors, query: string, f: Path)
    requires f in SupportedFiles(listing) && ExtractedTextMatches(f, ex, query)
    requires '\n' in query ==> Lower(Suffix(f.name)) == ".docx" || Lower(Suffix(f.name)) == ".pptx"
    ensures DocRecords(f, ex, query) != []
    ensures FileResult(f, DocRecords(f, ex, query)) in SearchResults(listing, ex, query)
    ensures FileResult(f, DocRecords(f, ex, query)).matchCount >= 1
  {
    var ext := Lower(Suffix(f.name));
    if ext == ".pdf" {
      var pages := ex.pdfPages(f);
      var p :| 0 <= p < |pages| && pages[p] != "" && Matches(query, pages[p]);
      PdfMatchHasRecord(pages, p, query);
    } else if ext == ".docx" {
      var paragraphs := ex.docxParagraphs(f);
      var i :| 0 <= i < |paragraphs| && Matches(query, paragraphs[i]);
      DocxRecordsMembers(paragraphs, query);
      assert ParagraphRecord(paragraphs, i) in DocxRecords(paragraphs, query);
    } else if ext == ".pptx" {
      var slides := ex.pptxSlides(f);
      var i :| 0 <= i < |slides| && Matches(query, SlideText(slides[i]));
      PptxRecordsExactly(slides, query);
      assert SlideRecord(slides, i) in PptxRecords(slides, query);
    } else {
      PngMatchHasRecord(ex.ocrText(f).value, query);
    }
    ResultsAreMatchingFiles(listing, ex, query);
  }

  /** A supported extension lower-cases to one of the four, so its label is one of
      the four type names. */
  lemma KindOfSupported(f: Path)
    requires HasSupportedSuffix(f.name)
    ensures KindOf(Lower(Suffix(f.name))) in {"PDF", "DOCX", "PPTX", "PNG"}
  {
    var ext := Lower(Suffix(f.name));
    TypeLabels();
    if ext == ".pdf" {
      assert ext[1..] == "pdf";
    } else if ext == ".docx" {
      assert ext[1..] == "docx";
    } else if ext == ".pptx" {
      assert ext[1..] == "pptx";
    } else {
      assert ext[1..] == "png";
    }
  }

  /** The type labels of the four supported extensions. */
  lemma TypeLabels()
    ensures Upper("pdf") == "PDF" && Upper("docx") == "DOCX"
    ensures Upper("pptx") == "PPTX" && Upper("png") == "PNG"
  {
  }

  /** Every result entry has `match_count == len(matches) >= 1`, its `type` is one of
      "PDF", "DOCX", "PPTX", "PNG", and its name and path are those of the file. */
  lemma ResultEntriesWellFormed(listing: seq<DirEntry>, ex: Extractors, query: string)
    ensures forall r :: r in SearchResults(listing, ex, query) ==>
      r.matchCount == |r.matches| >= 1 && r.kind in {"PDF", "DOCX", "PPTX", "PNG"}
  {
    ResultsAreMatchingFiles(listing, ex, query);
    forall r | r in SearchResults(listing, ex, query)
      ensures r.matchCount == |r.matches| >= 1 && r.kind in {"PDF", "DOCX", "PPTX", "PNG"}
    {
      var f :| f in SupportedFiles(listing) && DocRecords(f, ex, query) != [] && r == FileResult(f, DocRecords(f, ex, query));
      KindOfSupported(f);
    }
  }

  /** The results are ranked by match count, most first, and entries with the same
      count keep the order in which their files were scanned. */
  lemma ResultsRanked(listing: seq<DirEntry>, ex: Extractors, query: string)
    ensures SortedByCount(SearchResults(listing, ex, query))
    ensures forall c: nat :: WithCount(SearchResults(listing, ex, query), c)
                          == WithCount(Collected(SupportedFiles(listing), ex, query), c)
  {
    var collected := Collected(SupportedFiles(listing), ex, query);
    SortByCountSorted(collected);
    forall c: nat ensures WithCount(SearchResults(listing, ex, query), c) == WithCount(collected, c) {
      SortByCountStable(collected, c);
    }
  }

  /** The number of records over all files. */
  function TotalRecords(files: seq<Path>, ex: Extractors, query: string): nat {
    if files == [] then 0
    else TotalRecords(files[..|files| - 1], ex, query) + |DocRecords(files[|files| - 1], ex, query)|
  }

  /** The number of files with at least one record. */
  function MatchingFiles(files: seq<Path>, ex: Extractors, query: string): nat {
    if files == [] then 0
    else MatchingFiles(files[..|files| - 1], ex, query) + (if DocRecords(files[|files| - 1], ex, query) == [] then 0 else 1)
  }

  /** Over the scanned entries, the count sum is the number of records of all files
      and the length is the number of files with a match. */
  lemma {:induction false} CollectedTotals(files: seq<Path>, ex: Extractors, query: string)
    ensures SumCounts(Collected(files, ex, query)) == TotalRecords(files, ex, query)
    ensures |Collected(files, ex, query)| == MatchingFiles(files, ex, query)
  {
    if files != [] {
      var pre := files[..|files| - 1];
      var f := files[|files| - 1];
      var m := DocRecords(f, ex, query);
      CollectedTotals(pre, ex, query);
      var tail := if m == [] then [] else [FileResult(f, m)];
      SumCountsAppend(Collected(pre, ex, query), tail);
      if m != [] {
        assert tail[1..] == [];
      }
    }
  }

  /** Ranking loses no entry and no match: `total_files` is the number of files with
      a match and `total_matches` the number of records over all files. */
  lemma ResultTotals(listing: seq<DirEntry>, ex: Extractors, query: string)
    ensures |SearchResults(listing, ex, query)| == MatchingFiles(SupportedFiles(listing), ex, query)
    ensures SumCounts(SearchResults(listing, ex, query)) == TotalRecords(SupportedFiles(listing), ex, query)
  {
    var collected := Collected(SupportedFiles(listing), ex, query);
    CollectedTotals(SupportedFiles(listing), ex, query);
    SumCountsSorted(collected);
    SortByCountPermutes(collected);
    assert |multiset(SearchResults(listing, ex, query))| == |multiset(collected)|;
  }

  /** A directory with no supported file gives no results. */
  lemma EmptyCorpus(listing: seq<DirEntry>, ex: Extractors, query: string)
    requires forall e :: e in listing ==> !e.isFile || !HasSupportedSuffix(e.path.name)
    ensures SearchResults(listing, ex, query) == []
  {
    EmptyListing(listing);
  }

  lemma {:induction false} EmptyListing(listing: seq<DirEntry>)
    requires forall e :: e in listing ==> !e.isFile || !HasSupportedSuffix(e.path.name)
    ensures SupportedFiles(listing) == []
  {
    if listing != [] {
      assert listing[0] in listing;
      EmptyListing(listing[1..]);
    }
  }

  /** Every context is at most 300 characters and every slide record's text at most 200. */
  predicate RecordsBounded(records: seq<MatchRecord>) {
    forall r :: r in records ==> |r.context| <= ContextLimit && (r.locator.Slide? ==> |r.text| <= SlideTextLimit)
  }

  lemma DocRecordsBounded(f: Path, ex: Extractors, query: string)
    ensures RecordsBounded(DocRecords(f, ex, query))
  {
    var ext := Lower(Suffix(f.name));
    if ext == ".pdf" {
      var pages := ex.pdfPages(f);
      PdfContextsBounded(pages, query);
      PdfRecordsInPageOrder(pages, query);
    } else if ext == ".docx" {
      var ps := ex.docxParagraphs(f);
      DocxContextsBounded(ps, query);
      DocxRecordsIncreasing(ps, query);
    } else if ext == ".pptx" {
      PptxRecordsMembers(ex.pptxSlides(f), query);
    } else if ext == ".png" {
      var ocr := ex.ocrText(f);
      if ocr.Some? {
        PngRecordsCount(ocr.value, query);
      }
    }
  }

  /** The bounds hold for every record of every result entry. */
  lemma ResultRecordsBounded(listing: seq<DirEntry>, ex: Extractors, query: string)
    ensures forall r :: r in SearchResults(listing, ex, query) ==> RecordsBounded(r.matches)
  {
    ResultsAreMatchingFiles(listing, ex, query);
    forall r | r in SearchResults(listing, ex, query) ensures RecordsBounded(r.matches) {
      var f :| f in SupportedFiles(listing) && DocRecords(f, ex, query) != [] && r == FileResult(f, DocRecords(f, ex, query));
      DocRecordsBounded(f, ex, query);
    }
  }

  // ---------------------------------------------------------------------------
  // Case-insensitivity

  lemma DocRecordsCase(f: Path, ex: Extractors, q1: string, q2: string)
    requires Lower(q1) == Lower(q2)
    ensures DocRecords(f, ex, q1) == DocRecords(f, ex, q2)
  {
    var ext := Lower(Suffix(f.name));
    if ext == ".pdf" {
      PdfRecordsCase(ex.pdfPages(f), q1, q2);
    } else if ext == ".docx" {
      DocxRecordsCase(ex.docxParagraphs(f), q1, q2);
    } else if ext == ".pptx" {
      PptxRecordsCase(ex.pptxSlides(f), q1, q2);
    } else if ext == ".png" {
      PngRecordsCase(ex.ocrText(f), q1, q2);
    }
  }

  lemma {:induction false} CollectedCase(files: seq<Path>, ex: Extractors, q1: string, q2: string)
    requires Lower(q1) == Lower(q2)
    ensures Collected(files, ex, q1) == Collected(files, ex, q2)
  {
    if files != [] {
      CollectedCase(files[..|files| - 1], ex, q1, q2);
      DocRecordsCase(files[|files| - 1], ex, q1, q2);
    }
  }

  /** Queries that lower-case alike ("Budget", "BUDGET", "budget") give the same results. */
  lemma SearchCaseInsensitive(listing: seq<DirEntry>, ex: Extractors, q1: string, q2: string)
    requires Lower(q1) == Lower(q2)
    ensures SearchResults(listing, ex, q1) == SearchResults(listing, ex, q2)
  {
    CollectedCase(SupportedFiles(listing), ex, q1, q2);
  }

  /** Searching for "BUDGET" finds exactly what searching for "budget" finds. */
  lemma QueryCaseExample(listing: seq<DirEntry>, ex: Extractors)
    ensures SearchResults(listing, ex, "BUDGET") == SearchResults(listing, ex, "budget")
  {
    assert Lower("BUDGET") == Lower("budget");
    SearchCaseInsensitive(listing, ex, "BUDGET", "budget");
  }

  // ---------------------------------------------------------------------------
  // The /search handler

  /** The response of `/search`: a 400 error, or the query with its results and totals. */
  datatype SearchResponse =
    | Rejected(status: nat, error: string)
    | Answered(query: string, results: seq<DocumentResult>, totalFiles: nat, totalMatches: nat)

  /** `search()`: `body` is the request's `query` field, if present.  A query that
      is empty once stripped is rejected with 400 before anything is searched. */
  method HandleSearch(body: Option<string>, listing: seq<DirEntry>, ex: Extractors)
    returns (resp: SearchResponse)
    ensures resp.Rejected? <==> forall k :: 0 <= k < |body.GetOr("")| ==> IsSpace(body.GetOr("")[k])
    ensures resp.Rejected? ==> resp == Rejected(400, "Please enter a search query")
    ensures resp.Answered? ==>
      && resp.query == Strip(body.GetOr(""))
      && resp.results == SearchResults(listing, ex, resp.query)
      && resp.totalFiles == |resp.results|
      && resp.totalMatches == SumCounts(resp.results)
  {
    var query := Strip(body.GetOr(""));
    StripEmptyIffAllSpace(body.GetOr(""));
    if query == "" {
      return Rejected(400, "Please enter a search query");
    }
    var results := SearchAllFiles(listing, ex, query);
    resp := Answered(query, results, |results|, SumCounts(results));
  }

  // ---------------------------------------------------------------------------
  // The /open-file path fallback

  /** Where `/open-file` ends up: no path given (400), not found (404, naming the
      file), or an existing file to open. */
  datatype OpenTarget = MissingPath | NotFound(name: string) | Found(path: Path)

  /** `body` is the request's `filepath` field, `searchDir` the search directory and
      `present` the paths that exist.  A path that does not exist is retried as the
      same file name inside the search directory. */
  function ResolveOpenTarget(body: Option<string>, searchDir: string, present: set<Path>): (t: OpenTarget)
    ensures t.MissingPath? <==> Strip(body.GetOr("")) == ""
    ensures t.Found? ==> t.path in present
    ensures t.Found? ==> (t.path == ParsePath(Strip(body.GetOr("")))
                       || t.path == InDir(searchDir, ParsePath(Strip(body.GetOr(""))).name))
    ensures t.NotFound? ==>
      && ParsePath(Strip(body.GetOr(""))) !in present
      && InDir(searchDir, ParsePath(Strip(body.GetOr(""))).name) !in present
      && t.name == ParsePath(Strip(body.GetOr(""))).name
  {
    var filepath := Strip(body.GetOr(""));
    if filepath == "" then MissingPath
    else
      var filePath := ParsePath(filepath);
      var altPath := InDir(searchDir, filePath.name);
      var resolved := if filePath !in present && altPath in present then altPath else filePath;
      if resolved !in present then NotFound(resolved.name) else Found(resolved)
  }

  /** The given path wins when it exists; the search-directory retry is used only
      when it does not; not-found means neither exists. */
  lemma OpenTargetPrecedence(body: Option<string>, searchDir: string, present: set<Path>)
    requires Strip(body.GetOr("")) != ""
    ensures var p := ParsePath(Strip(body.GetOr("")));
      && (p in present ==> ResolveOpenTarget(body, searchDir, present) == Found(p))
      && (p !in present && InDir(searchDir, p.name) in present ==>
            ResolveOpenTarget(body, searchDir, present) == Found(InDir(searchDir, p.name)))
      && (p !in present && InDir(searchDir, p.name) !in present ==>
            ResolveOpenTarget(body, searchDir, present) == NotFound(p.name))
  {
  }

  /** A path sent from another machine, "/Users/alice/Docs/report.pdf" padded with
      spaces, is opened as "report.pdf" in the search directory "/srv/docs" when only
      that copy exists. */
  lemma OpenFallbackExample()
    ensures ResolveOpenTarget(Some("  " + "/Users/alice/Docs/" + "report.pdf" + " "), "/srv/docs",
                              {InDir("/srv/docs", "report.pdf")})
         == Found(InDir("/srv/docs", "report.pdf"))
  {
    var given := Path("/Users/alice/Docs/", "report.pdf");
    var copy := InDir("/srv/docs", "report.pdf");
    assert given != copy by {
      assert |given.dir| != |copy.dir|;
    }
    assert "/Users/alice/Docs/"[0] == '/' && "report.pdf"[9] == 'f';
    FallbackToSearchDir("  ", "/Users/alice/Docs/", "report.pdf", " ", "/srv/docs", {copy});
  }

  /** A well-formed path, padded with whitespace, that does not exist while its file
      name does exist in the search directory resolves to the search directory's copy. */
  lemma FallbackToSearchDir(before: string, dir: string, name: string, after: string,
                            searchDir: string, present: set<Path>)
    requires forall k :: 0 <= k < |before| ==> IsSpace(before[k])
    requires forall k :: 0 <= k < |after| ==> IsSpace(after[k])
    requires dir != [] && !IsSpace(dir[0]) && WellFormedDir(dir)
    requires name != [] && !IsSpace(name[|name| - 1]) && '/' !in name
    requires Path(dir, name) !in present && InDir(searchDir, name) in present
    ensures ResolveOpenTarget(Some(before + dir + name + after), searchDir, present)
         == Found(InDir(searchDir, name))
  {
    var s := dir + name;
    assert s[0] == dir[0] && s[|s| - 1] == name[|name| - 1];
    assert before + dir + name + after == before + s + after;
    StripPadded(before, s, after);
    ParsePathText(Path(dir, name));
  }
}
