# Document search and PDF conversion, modelled in Dafny

This project models two scripts that share one directory of documents.

`search_files.py` is a small web service that searches that directory for a keyword.
- Word documents (`.docx`) are tested paragraph by paragraph.
- PDF documents are tested page by page, then line by line.
- Slide decks (`.pptx`) are tested slide by slide, on the text of the slide's shapes joined with spaces.
- PNG images are tested on the OCR text, line by line.
- Every test is case-insensitive.
- Each match becomes a record with a text and a context cut to 300 characters.
  - Page and paragraph records carry a 1-based number and the matched line or paragraph, stripped of surrounding whitespace.
  - Slide records carry a 1-based slide number and the first 200 characters of the joined shape text, not stripped.
  - Image records carry no number; their text is the matched OCR line, stripped, and their context is the start of the whole OCR text.
- Files with at least one match become result entries. The entries are ranked by match count, most first; entries with equal counts keep scan order.
- The `/search` handler rejects a query that is blank once stripped, and reports how many files matched and how many matches there were.
- The `/open-file` handler resolves a path. If the given path does not exist, it retries the same file name inside the search directory.

`convert_to_pdf.py` converts documents to PDF.
- `convert_to_pdf` is a chain of early returns: missing input, default output path, already a PDF, output already exists, then a choice of converter by extension and platform.
- `batch_convert` runs it over every supported file of a directory and counts converted, skipped and failed files.
- A file skipped because its output already exists is counted as *converted*: only `.pdf` inputs are counted as skipped.

## How the model is organised

- `wrappers.dfy` (`Wrappers`): `Option`.
- `text.dfy` (`Text`): Python's `lower`, `upper`, `strip`, `s[:n]`, `in` on strings, `split` on one character and `join`, with their algebra (split/join round trips, strip characterisation).
- `paths.dfy` (`Paths`): `Path(s)`, `name`, `suffix`, `stem`, `with_suffix`, and the supported-file filter both scripts apply to a directory listing.
- `matching.dfy` (`Matching`): the four per-format search functions. Each is a method with loops, proved equal to a specification function. Lemmas describe which records those functions produce.
- `ranking.dfy` (`Ranking`): result entries and their ranking. `SortByMatchCount` is an in-place insertion sort on an array, proved to produce `SortByCount`. `SortByCount` is proved sorted, a permutation, and stable.
- `search.dfy` (`Search`): `search_all_files`, the `/search` handler and the `/open-file` path fallback.
- `convert.dfy` (`Convert`): `convert_to_pdf` as a function over abstract converters, and `batch_convert` as a counting loop proved against a step-by-step specification.

Parameters stand in for what the scripts read from the outside world:
- the text the parsing libraries extract from each file (`Search.Extractors`);
- the directory listing (`Paths.DirEntry` sequences);
- the set of existing paths;
- the platform name;
- the converters, as functions that report success.

## Model

| member | source | states |
|---|---|---|
| Text.StripEmptyIffAllSpace | WEBSEC_MIDTERM/search_files.py:155-158 | a stripped string is empty exactly when every character of the original is whitespace |
| Text.StripPadded | WEBSEC_MIDTERM/search_files.py:155 | stripping removes exactly the whitespace before and after a text |
| Text.JoinSplit | WEBSEC_MIDTERM/search_files.py:32 | joining the pieces of `split(sep)` with `sep` gives back the string |
| Text.SplitJoin | WEBSEC_MIDTERM/search_files.py:32 | splitting a join of separator-free pieces gives the pieces back |
| Text.LineMatchImpliesTextMatch | WEBSEC_MIDTERM/search_files.py:99-102 | a query found in one line of a text is found in the whole text |
| Text.FirstPiecePrefix | WEBSEC_MIDTERM/search_files.py:32 | a prefix of a text without the separator is a prefix of the first piece of `split` |
| Text.SubstringInPiece | WEBSEC_MIDTERM/search_files.py:32 | a substring without the separator lies within one piece of `split` |
| Text.PieceOfTail | WEBSEC_MIDTERM/search_files.py:32 | what lies within a piece of `s[1:].split(sep)` lies within a piece of `s.split(sep)` |
| Text.TextMatchImpliesLineMatch | WEBSEC_MIDTERM/search_files.py:32-34 | a query without the separator that is found in a text, ignoring case, is found in one of its lines |
| Text.NoMatchWhenLonger | WEBSEC_MIDTERM/search_files.py:34 | a query longer than the text never matches it |
| Paths.ParsePathParts | WEBSEC_MIDTERM/search_files.py:187 | the parsed path prints back as the input text, its directory part is empty or ends in `/`, and its name has no `/` |
| Paths.ParsePathText | WEBSEC_MIDTERM/search_files.py:187 | parsing the text of a well-formed path gives the same path |
| Paths.Suffix | WEBSEC_MIDTERM/search_files.py:118-121 | the suffix is empty, or a proper ending of the name that starts with its only `.` and has at least one character after it |
| Paths.SupportedFiles | WEBSEC_MIDTERM/search_files.py:116-118 | a path is kept exactly when the listing has it as a regular file with a supported lower-cased suffix |
| Paths.SupportedNameNonEmpty | WEBSEC_MIDTERM/convert_to_pdf.py:157-158 | a file with a supported suffix has a non-empty name, so `with_suffix` cannot raise for it |
| Paths.WithPdfSuffix | WEBSEC_MIDTERM/convert_to_pdf.py:99-100 | the default output name has suffix `.pdf` and keeps the input's stem |
| Matching.SearchPdf | WEBSEC_MIDTERM/search_files.py:22-48 | the loop over pages and lines builds exactly the page records `PdfRecords` |
| Matching.SearchPage | WEBSEC_MIDTERM/search_files.py:30-44 | the loop over one page's lines builds exactly that page's records `PageRecords`, computing the context window with the script's `max`/`min` bounds |
| Matching.LineRecordAt | WEBSEC_MIDTERM/search_files.py:36-44 | the script's `context_start`/`context_end` bounds lie within the lines and select the window of the line before, the line and the line after |
| Matching.PageLineRecordsMembers | WEBSEC_MIDTERM/search_files.py:33-44 | a record of the first `k` lines is the record of a matching line among them, and every matching line has one |
| Matching.PageRecordsMembers | WEBSEC_MIDTERM/search_files.py:29-44 | a page's records are exactly the records of the matching lines of its text split on newlines; an empty page has none |
| Matching.PdfRecordsMembers | WEBSEC_MIDTERM/search_files.py:28-30 | a record of the document is a record of one of its pages, numbered from 1, and conversely |
| Matching.PdfRecordsFlatten | WEBSEC_MIDTERM/search_files.py:28-44 | a PDF's records are the records of its pages, page 1 first, one page's list after another |
| Matching.FlattenMembers | WEBSEC_MIDTERM/search_files.py:28-44 | a record of lists placed one after another is a record of one of the lists, and conversely |
| Matching.PageLineRecordsCount | WEBSEC_MIDTERM/search_files.py:33-44 | the first `k` lines of a page give exactly as many records as of them contain the query |
| Matching.PageRecordsCount | WEBSEC_MIDTERM/search_files.py:29-44 | a page gives one record per matching line of its text; an empty page gives none |
| Matching.PdfRecordsCount | WEBSEC_MIDTERM/search_files.py:28-44 | a PDF gives, over all its pages, one record per matching line |
| Matching.PdfRecordsInPageOrder | WEBSEC_MIDTERM/search_files.py:28-41 | page numbers never decrease along the records and lie between 1 and the page count |
| Matching.PageContextHoldsLine | WEBSEC_MIDTERM/search_files.py:36-43 | a context is the start of the window of lines around the match, joined with spaces, at most 300 long; whenever the matched line ends within the first 300 characters of the window (the line before it, a space and the line fit), the context holds the matched line and the query |
| Matching.LineKeptByCut | WEBSEC_MIDTERM/search_files.py:43 | a line that ends within the first 300 characters of a text survives the cut to 300 characters |
| Matching.PageRecordsOnPage | WEBSEC_MIDTERM/search_files.py:40-41 | every record of a page carries that page's number |
| Matching.PdfContextsBounded | WEBSEC_MIDTERM/search_files.py:43 | every page record's context is at most 300 characters |
| Matching.SearchDocx | WEBSEC_MIDTERM/search_files.py:50-65 | the loop over paragraphs builds exactly the paragraph records `DocxRecords` |
| Matching.DocxRecordsMembers | WEBSEC_MIDTERM/search_files.py:55-61 | a paragraph yields a record exactly when it matches; the record has its 1-based index, stripped text and first 300 characters |
| Matching.DocxRecordsIncreasing | WEBSEC_MIDTERM/search_files.py:55-58 | paragraph numbers strictly increase and lie between 1 and the paragraph count |
| Matching.DocxContextsBounded | WEBSEC_MIDTERM/search_files.py:60 | every paragraph record's context is at most 300 characters |
| Matching.SearchPptx | WEBSEC_MIDTERM/search_files.py:67-88 | the loops over slides and shapes build exactly the slide records `PptxRecords` |
| Matching.PptxRecordsMembers | WEBSEC_MIDTERM/search_files.py:72-84 | a slide yields a record exactly when its shape texts joined with a space match; numbers strictly increase, at most one record per slide, text at most 200 and a prefix of the context, context at most 300 |
| Matching.PptxRecordsExactly | WEBSEC_MIDTERM/search_files.py:72-84 | a record of the deck is the record of a slide whose joined shape text matches, and every such slide has one |
| Matching.PptxRecordsIncreasing | WEBSEC_MIDTERM/search_files.py:72-81 | slide numbers strictly increase and lie between 1 and the slide count |
| Matching.PptxRecordsAtMostOnePerSlide | WEBSEC_MIDTERM/search_files.py:72-84 | there are at most as many records as slides |
| Matching.SlideRecordBounded | WEBSEC_MIDTERM/search_files.py:82-83 | a slide record's text is at most 200 characters, its context at most 300, and the text is a prefix of the context |
| Matching.SearchPng | WEBSEC_MIDTERM/search_files.py:90-110 | the guarded loop over OCR lines builds exactly the image records `PngRecords` |
| Matching.ImageLineRecordsCount | WEBSEC_MIDTERM/search_files.py:101-106 | the first `k` OCR lines give one record per matching line, each with the whole text's first 300 characters as context |
| Matching.PngRecordsCount | WEBSEC_MIDTERM/search_files.py:99-106 | an image gives exactly one record per matching OCR line (the whole-text guard hides none), each with the whole text's first 300 characters as context |
| Matching.ImageLineRecordsMembers | WEBSEC_MIDTERM/search_files.py:101-106 | a record of the first `k` OCR lines is, for a matching line among them, that line stripped with no number and the start of the whole text as context, and every matching line gives one |
| Matching.PngRecordsMembers | WEBSEC_MIDTERM/search_files.py:99-106 | an image's records are exactly those of its matching OCR lines: the whole-text guard drops none |
| Matching.NoMatchingLine | WEBSEC_MIDTERM/search_files.py:99-102 | when the whole OCR text does not contain the query, none of its lines does |
| Matching.PageMatchHasRecord | WEBSEC_MIDTERM/search_files.py:29-44 | a non-empty page whose text contains a query without a newline gives at least one record |
| Matching.PdfMatchHasRecord | WEBSEC_MIDTERM/search_files.py:28-44 | a PDF with a non-empty page containing a query without a newline gives at least one record |
| Matching.PngMatchHasRecord | WEBSEC_MIDTERM/search_files.py:99-106 | an OCR text that contains a query without a newline gives at least one record |
| Matching.NewlineQueryMissed | WEBSEC_MIDTERM/search_files.py:32-34 | searching `a + "\n" + b` for itself: the whole text matches, yet the page and the image give no record, because each line is shorter than the query |
| Text.JoinStartsWithFirst | WEBSEC_MIDTERM/search_files.py:38 | a join of lines starts with the first line |
| Text.JoinSecondAt | WEBSEC_MIDTERM/search_files.py:38 | in a join, the second line starts right after the first line and the separator |
| Matching.PageLineRecordsCase | WEBSEC_MIDTERM/search_files.py:34 | queries that lower-case alike give the same line records |
| Matching.PdfRecordsCase | WEBSEC_MIDTERM/search_files.py:28-44 | queries that lower-case alike give the same page-document records |
| Matching.DocxRecordsCase | WEBSEC_MIDTERM/search_files.py:56 | queries that lower-case alike give the same paragraph records |
| Matching.PptxRecordsCase | WEBSEC_MIDTERM/search_files.py:79 | queries that lower-case alike give the same slide records |
| Matching.ImageLineRecordsCase | WEBSEC_MIDTERM/search_files.py:102 | queries that lower-case alike give the same OCR line records |
| Matching.PngRecordsCase | WEBSEC_MIDTERM/search_files.py:99-102 | queries that lower-case alike give the same image records |
| Search.QueryCaseExample | WEBSEC_MIDTERM/search_files.py:112-145 | searching any directory for "BUDGET" gives exactly the results of searching it for "budget" |
| Matching.PageExample | WEBSEC_MIDTERM/search_files.py:28-44 | the page "Hello / World Budget Plan / End" searched for "budget" gives one record on page 1 with context "Hello World Budget Plan End" |
| Matching.OnlyMiddleLineMatches | WEBSEC_MIDTERM/search_files.py:28-44 | a one-page document of three lines where only the middle line matches gives one record, on page 1, with the three lines joined by spaces as context |
| Matching.ThreeLines | WEBSEC_MIDTERM/search_files.py:32 | three newline-free lines joined by newlines split back into those three lines |
| Matching.MiddleLineRecord | WEBSEC_MIDTERM/search_files.py:36-44 | the middle of three lines has all three, joined by spaces, as its context |
| Matching.ParagraphExample | WEBSEC_MIDTERM/search_files.py:55-61 | paragraphs "Intro", "The Budget is tight", "Budget review" searched for "budget" give records for paragraphs 2 and 3 |
| Matching.LaterTwoOfThreeMatch | WEBSEC_MIDTERM/search_files.py:55-61 | a document whose second and third of three paragraphs match, and are short and unpadded, gives records for paragraphs 2 and 3 only |
| Matching.SlideExample | WEBSEC_MIDTERM/search_files.py:72-84 | a third slide with shapes "Q1 Revenue" and "Budget exceeded" is searched as "Q1 Revenue Budget exceeded" and is the only match |
| Matching.TwoShapesText | WEBSEC_MIDTERM/search_files.py:73-78 | a slide with two text shapes reads as the two texts joined by one space |
| Matching.NoTextSlides | WEBSEC_MIDTERM/search_files.py:73-78 | a slide with no shapes, or whose only shape has no text, reads as the empty string |
| Matching.OnlyThirdSlideMatches | WEBSEC_MIDTERM/search_files.py:72-84 | three slides of which only the third matches, with text of at most 200 characters, give one record, for slide 3 |
| Ranking.SortByCountPermutes | WEBSEC_MIDTERM/search_files.py:143 | the ranking is a permutation of the scanned entries |
| Ranking.SortByCountSorted | WEBSEC_MIDTERM/search_files.py:143 | the ranking has counts in descending order |
| Ranking.SortByCountStable | WEBSEC_MIDTERM/search_files.py:143 | for every count, the entries with that count appear in scan order |
| Ranking.SumCountsSorted | WEBSEC_MIDTERM/search_files.py:143 | ranking does not change the sum of the counts |
| Ranking.InsertSorted | WEBSEC_MIDTERM/search_files.py:143 | inserting an entry into a list ranked by count keeps it ranked |
| Ranking.ShiftSmaller | WEBSEC_MIDTERM/search_files.py:143 | the entries just before a position whose count is below the new entry's move one place right, and the hole left is after every entry of at least that count |
| Ranking.InsertLast | WEBSEC_MIDTERM/search_files.py:143 | one in-place insertion step turns a ranked prefix plus the next entry into the ranked prefix one longer, leaving the rest of the array alone |
| Ranking.SortByMatchCount | WEBSEC_MIDTERM/search_files.py:143 | the in-place sort leaves the array holding `SortByCount` of its old contents |
| Search.SearchFile | WEBSEC_MIDTERM/search_files.py:121-131 | a file's match list is the one of the search function chosen by its lower-cased suffix, and empty for any other suffix |
| Search.Scan | WEBSEC_MIDTERM/search_files.py:120-140 | the scan appends one entry per file with matches, in scan order |
| Search.Rank | WEBSEC_MIDTERM/search_files.py:143 | copying the entries to an array and sorting it in place gives `SortByCount` of them |
| Search.SearchAllFiles | WEBSEC_MIDTERM/search_files.py:112-145 | the results are the ranking of the entries of the supported files that have matches |
| Search.CollectedExtend | WEBSEC_MIDTERM/search_files.py:120-140 | scanning one more file appends that file's entry when it has matches, and nothing otherwise |
| Search.CollectedMembers | WEBSEC_MIDTERM/search_files.py:120-140 | the scanned entries are exactly those of the files with at least one match |
| Search.CollectedKept | WEBSEC_MIDTERM/search_files.py:120-140 | the scan keeps, in scan order, the entry of each file whose match list is not empty |
| Search.KeptMembers | WEBSEC_MIDTERM/search_files.py:133-140 | an entry is appended exactly when its match list is not empty |
| Search.ResultsAreMatchingFiles | WEBSEC_MIDTERM/search_files.py:116-145 | every supported file with a match has its entry in the results, and every result entry belongs to a supported file with a match; files with no match are absent |
| Search.MatchingFileListed | WEBSEC_MIDTERM/search_files.py:116-145 | a supported file whose extracted text (a non-empty page, a paragraph, a slide's shape text, the OCR text) contains the query is in the results with a match count of at least 1; for PDF and PNG files the query must hold no newline |
| Search.KindOfSupported | WEBSEC_MIDTERM/search_files.py:137 | a supported file's `type` is one of PDF, DOCX, PPTX, PNG |
| Search.ResultEntriesWellFormed | WEBSEC_MIDTERM/search_files.py:133-140 | every result entry has `match_count == len(matches) >= 1` and a `type` among PDF, DOCX, PPTX, PNG |
| Search.ResultsRanked | WEBSEC_MIDTERM/search_files.py:142-143 | results are in descending count order, and entries with equal counts keep scan order |
| Search.CollectedTotals | WEBSEC_MIDTERM/search_files.py:133-140 | the scanned entries number the files with matches, and their counts sum to the records over all files |
| Search.ResultTotals | WEBSEC_MIDTERM/search_files.py:160-166 | `total_files` is the number of files with a match and `total_matches` the number of records over all files |
| Search.EmptyCorpus | WEBSEC_MIDTERM/search_files.py:116-118 | a directory with no supported file gives no results |
| Search.EmptyListing | WEBSEC_MIDTERM/search_files.py:117-118 | a listing with no supported regular file yields no files to scan |
| Search.DocRecordsBounded | WEBSEC_MIDTERM/search_files.py:43 | every record of every format has a context of at most 300 characters, and slide records a text of at most 200 |
| Search.ResultRecordsBounded | WEBSEC_MIDTERM/search_files.py:133-140 | the same bounds hold for every record of every result entry |
| Search.DocRecordsCase | WEBSEC_MIDTERM/search_files.py:124-131 | queries that lower-case alike give the same match list for any file |
| Search.CollectedCase | WEBSEC_MIDTERM/search_files.py:120-140 | queries that lower-case alike give the same scanned entries |
| Search.SearchCaseInsensitive | WEBSEC_MIDTERM/search_files.py:112-145 | queries that lower-case alike give the same results |
| Search.HandleSearch | WEBSEC_MIDTERM/search_files.py:152-167 | a query blank after stripping (or missing) is rejected with 400 and the fixed message, exactly when it is all whitespace; otherwise the stripped query, its results, their number and their count sum |
| Search.ResolveOpenTarget | WEBSEC_MIDTERM/search_files.py:176-205 | no path exactly when the stripped field is empty; a found path exists and is the given one or its name in the search directory; not found means neither exists, reported with the name |
| Search.OpenTargetPrecedence | WEBSEC_MIDTERM/search_files.py:193-205 | an existing given path wins; the search-directory retry is used only when it does not exist; not found when neither does |
| Search.FallbackToSearchDir | WEBSEC_MIDTERM/search_files.py:185-205 | a well-formed path padded with whitespace that does not exist, while its file name exists in the search directory, resolves to that copy |
| Search.OpenFallbackExample | WEBSEC_MIDTERM/search_files.py:176-205 | "/Users/alice/Docs/report.pdf" padded with spaces resolves to report.pdf in the search directory "/srv/docs" when only that copy exists |
| Convert.ConvertToPdf | WEBSEC_MIDTERM/convert_to_pdf.py:90-138 | `ValueError` exactly for an existing input with an empty name and no output; True only from a skip or from a converter run while the output did not exist; False never from a skip |
| Convert.MissingInputFails | WEBSEC_MIDTERM/convert_to_pdf.py:94-96 | a missing input returns False before any other check |
| Convert.DefaultOutputPath | WEBSEC_MIDTERM/convert_to_pdf.py:99-102 | without an output path, the output is beside the input, with the same stem and suffix `.pdf` |
| Convert.PdfInputSkipped | WEBSEC_MIDTERM/convert_to_pdf.py:104-107 | an existing `.pdf` input in any letter case returns True without a converter, whether or not the output exists |
| Convert.ExistingOutputSkipped | WEBSEC_MIDTERM/convert_to_pdf.py:109-112 | any other existing input whose output exists returns True without a converter |
| Convert.Routing | WEBSEC_MIDTERM/convert_to_pdf.py:114-138 | images go to the image converter on any platform; Word and slide documents go to their converters on Darwin and fail elsewhere; any other extension fails |
| Convert.ConverterPreconditions | WEBSEC_MIDTERM/convert_to_pdf.py:104-134 | a converter runs only for an existing non-PDF input whose output does not exist, and only for an image or, on Darwin, a Word or slide document |
| Convert.Run | WEBSEC_MIDTERM/convert_to_pdf.py:166-178 | converted + skipped + errors equals the number of files processed, skipped is at most the number of `.pdf` files, and existing paths are never lost |
| Convert.RunExtend | WEBSEC_MIDTERM/convert_to_pdf.py:170-178 | processing one more file is one more step |
| Convert.StepSkips | WEBSEC_MIDTERM/convert_to_pdf.py:171-176 | one step adds to the skipped counter exactly for an existing `.pdf` file |
| Convert.ConvertAll | WEBSEC_MIDTERM/convert_to_pdf.py:166-178 | the counting loop ends with the counters of `Run` over the files |
| Convert.BatchConvert | WEBSEC_MIDTERM/convert_to_pdf.py:140-178 | a non-directory root or a directory without supported files counts nothing; otherwise the counters are those of `Run` over the supported files |
| Convert.ExistingOutputCountsAsConverted | WEBSEC_MIDTERM/convert_to_pdf.py:171-176 | a non-PDF file whose output exists is counted as converted, and nothing new is written |
| Convert.SkippedArePdfs | WEBSEC_MIDTERM/convert_to_pdf.py:171-176 | when every file exists, the skipped counter is exactly the number of `.pdf` files |
| Convert.StepCountsFailures | WEBSEC_MIDTERM/convert_to_pdf.py:177-178 | the error counter grows by one exactly when the conversion returned False |

## Left out

- PDF, Word, slide and image parsing and OCR are foreign libraries. Their output is a parameter: page texts, paragraph texts, per-shape optional texts, and optional OCR text.
- The search functions catch extraction exceptions and return the records gathered so far. The model follows that code: the extracted sequence holds the pages, paragraphs or slides read before the failure. An extractor that fails before yielding anything is the empty sequence, so that file contributes nothing.
- Search.MatchingFileListed: a PDF or PNG file is promised an entry only for a query without a newline. The `/search` handler strips only the ends of the query (WEBSEC_MIDTERM/search_files.py:155), and PDF pages and OCR text are tested line by line (:32-34, 101-102). A query with an inner newline can match a page or an OCR text and give no record; Matching.NewlineQueryMissed exhibits one.
- Matching.PageMatchHasRecord: requires a query without a newline, for the same reason.
- Matching.PdfMatchHasRecord: requires a query without a newline, for the same reason.
- Matching.PngMatchHasRecord: requires a query without a newline, for the same reason.
- Text.Lower, Text.Upper: ASCII letters only. Python's Unicode case mapping (final sigma, multi-character lower-casings) is not modelled.
- Text.Strip uses Python's `isspace` character set, not its full Unicode database.
- Directory enumeration (`iterdir`, `glob`, recursive or not, `is_file`) is an input listing in the order given. Existence (`exists`) is a set of paths.
- Path normalisation is not modelled: repeated or trailing separators, `.` and `..`, backslashes, and resolving relative paths against a working directory. A path is its text, split at its last `/`.
- Flask routing, JSON encoding, templates, `app.run` and the `/` page are HTTP plumbing. A body that is not JSON, or a field that is not a string, is not modelled; a missing field is `None`.
- Opening the resolved file (`open`, `os.startfile`, `xdg-open`), the unsupported-OS reply and the 500 error reply are OS dispatch.
- The converters (image mode handling, office automation, timeouts) are oracles returning a bool.
- Convert.Step: a converter that reports success is taken to have written its output path, and one that reports failure to have written nothing. A later file with the same output sees only the former as existing. A failed converter can still leave its output behind: a PIL save that raises partway through writing (WEBSEC_MIDTERM/convert_to_pdf.py:30, 33-35), or Word saving the PDF before `osascript` exits non-zero (WEBSEC_MIDTERM/convert_to_pdf.py:54-59). A later file with the same stem would then stop at "output exists"; the model does not capture this, because what a failing converter leaves on disk is not visible in the source.
- All printing and the command-line entry points of both scripts.
- Ranking.SortByMatchCount: `list.sort` is a library sort. The model sorts by insertion, which produces the same order, because a stable sort by one key has exactly one result.
- `SEARCH_DIR` is a parameter (`searchDir`), not the script's own directory.
