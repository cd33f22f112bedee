# epub2audiobook, modelled in Dafny

epub2audiobook turns EPUB books into text files and audiobooks. This project models two
parts of it and proves properties of the model.

- `epub2txts/epub2txts.py` converts an EPUB to text. Four SAX-style parsers read the
  archive's XML documents as streams of events:
  - `ContainerParser` finds the rootfile.
  - `BookParser` reads the package document: title, author, toc href, the spine and the two
    manifest maps.
  - `TocParser` reads an NCX navigation map.
  - `TocParserForEpub3` reads an EPUB 3 navigation document.

  `epub2txt.gao` scans spine files line by line between two anchored references.
  `epub2txt.convert` pairs consecutive toc entries into numbered chapter files.
- `epub2audiobook.py` turns an EPUB into MP3 chapters. The model covers:
  - the file-name sanitiser, fragment removal and `clearify_html` text cleanup;
  - the toc choice and the cover choice;
  - chapter naming in `extract_and_save_chapters`;
  - the speech-stream fold of `communicate_edge_tts` and its `retry` decorator;
  - track numbering in `text_to_speech`;
  - the `--select_epubs` parser and the per-file loop of the main program.

## How it is modelled

- **Parsers.** expat is an event stream: `XmlEvents.Event` is `Start(name, attrs)`, `Chars(data)` or `End(name)`.
  - Each parser class keeps the Python fields and has one handler method per callback. `Step` returns a `Result`: each handler's `ensures` matches on `Step(old(State()), event)`, giving the exception in `err` for an `Err` and the new `State()` for an `Ok`.
  - `Run` folds `Step` over a prefix of the stream. The `Parse…` method's loop keeps `Run(xml[..i]) == Ok(State())`.
  - Lemmas about `Run` state what the document makes of the state: stack depth, numbering, document order, when the parse fails.
  - A Python exception raised inside a handler (`KeyError`, `IndexError`, `AttributeError`) ends the parse. It is an `Err` of `Wrappers.Error`.
- **Aliasing.** A `NavPoint` object is shared between `stack`, `currentNP` and `toc`. The model stores its position in `toc` instead.
- **Imperative code.** Loops that update variables (`gao`, the `convert` pairing loop, the audiobook chapter loops, the `--select_epubs` parser, the per-file loop) are methods with `while` loops. Each is proved equal to a specification function or a closed form (the first item, the chapter of each link), and the properties are lemmas about that function.
- **Libraries.** Foreign code enters as function parameters:
  - `html2text` and `urllib.parse.unquote`;
  - the `\w` test of `re`;
  - expat's text-to-events parse;
  - BeautifulSoup's parse;
  - the speech stream of a text;
  - the random voice pick (an index).

## Quirks of the code the model keeps

- `replace_invalid_characters` uses the class `[\/:*?"<>|]` (epub2audiobook.py:32). There `\/` is an escaped slash, so backslash is not in the class and survives (`AudioText.SanitizeKeepsBackslash`).
- `--tts` has `default=True` (epub2audiobook.py:189), and the main program compares it with `True`. A value given on the command line is a string, so `--tts True` turns speech **off**; only the default keeps it on.
- `--preview_epubs_only` has `default=False` (epub2audiobook.py:193) and is tested for truth. `--preview_epubs_only False` is a non-empty string and turns preview **on** (`Batch.FlagStrings`).
- `remove_url_fragment` passes the query in the fragment slot of `urlunparse` (epub2audiobook.py:26-27), so `a.xhtml?q` becomes `a.xhtml#q` (see Findings).
- `extract_and_save_chapters` builds `txt_file` with `.txt` (epub2audiobook.py:134) but opens `os.path.join(output_folder, txt_file_name)` (line 135), so chapter text files are saved without an extension, under the name the model gives `Audiobook.ChapterName`.
- `gao` looks for an anchor with `line.find(flag)`. So a line matches when it contains the anchor text anywhere, not only as an `id` attribute.
- `epub2txt.convert`:
  - It reads the NCX parser's list first. It falls back to the navigation-document parser on the same file only when that list is empty.
  - The text of the last chapter is computed but its write is commented out (epub2txts/epub2txts.py:286), so the file is created empty.

## Model

| member | source | states |
|---|---|---|
| ContainerParsing.ContainerResult | epub2txts/epub2txts.py:16-19 | the parse fails exactly when some `rootfile` tag lacks `full-path`; otherwise it yields the `full-path` of the last `rootfile` tag, or "" when there is none |
| ContainerParsing.ContainerErrorSticks | epub2txts/epub2txts.py:21-25 | once a handler raises, the rest of the document does not change the outcome |
| ContainerParsing.ContainerParser.StartElement | epub2txts/epub2txts.py:16-19 | the handler sets `rootfile` as one step prescribes, or reports the KeyError |
| ContainerParsing.ContainerParser.ParseContainer | epub2txts/epub2txts.py:21-25 | the loop over the events returns exactly the result of folding the step over the document |
| BookParsing.BookResult | epub2txts/epub2txts.py:46-53 | after a successful parse: `ranks` is the `idref` of every `itemref` in order; `id2html` and `html2id` register exactly the XHTML items, later ones overwriting; `ncx` is the href of the last item with one of the five navigation ids |
| BookParsing.BookStepCollects | epub2txts/epub2txts.py:39-69 | one event appends at most its own `idref`, registers at most its own XHTML pair in both maps and changes `ncx` only for a navigation item |
| BookParsing.ItemCollects | epub2txts/epub2txts.py:46-51 | the `item` handler registers the pair only for media type `application/xhtml+xml` and sets `ncx` only for the five fixed ids |
| BookParsing.BookStepFails | epub2txts/epub2txts.py:39-69 | a step fails exactly on a missing `id`/`href`/`media-type`/`idref` or on a metadata end tag before any metadata tag created `buffer` |
| BookParsing.BookFailure | epub2txts/epub2txts.py:39-69 | the parse fails iff some event is such a fault given the events before it; after success `buffer` exists iff a metadata tag was met |
| BookParsing.BookErrorSticks | epub2txts/epub2txts.py:71-77 | an exception ends the parse: later events do not change the result |
| BookParsing.ManifestMapsInverse | epub2txts/epub2txts.py:49-51 | when no id and no href repeats among the XHTML items, `id2html` and `html2id` are mutually inverse |
| BookParsing.SharedHrefBreaksInverse | epub2txts/epub2txts.py:50-51 | two XHTML items sharing an href leave the maps not inverse |
| BookParsing.ForwardMapKeys | epub2txts/epub2txts.py:50 | an id is a key of `id2html` iff some XHTML item carries it |
| BookParsing.ForwardMapLast | epub2txts/epub2txts.py:50 | the id maps to the href of the last item with that id |
| BookParsing.BookParser.StartElement | epub2txts/epub2txts.py:39-53 | the start handler updates the fields as one step prescribes, or reports its exception |
| BookParsing.BookParser.Characters | epub2txts/epub2txts.py:55-59 | character data is added to `buffer` only inside a title or creator |
| BookParsing.BookParser.EndElement | epub2txts/epub2txts.py:61-69 | the end handler moves `buffer` into `title`/`author` |
| BookParsing.BookParser.ParseBook | epub2txts/epub2txts.py:71-77 | the parse returns exactly the fold of the step over the document |
| BookParsing.BookMetadata | epub2txts/epub2txts.py:39-69 | after a successful parse, `title` (`author`) is the character data between the start and end tags of the last `dc:title` (`dc:creator`) element, when that element holds no `dc:title` or `dc:creator` tag |
| BookParsing.BookMetadataUnset | epub2txts/epub2txts.py:30-69 | after a successful parse with no `dc:title` (`dc:creator`) end tag, `title` (`author`) is still "" |
| NavPoints.Numbered | epub2txts/epub2txts.py:104 | an id-less entry `k` has id `num_` followed by its play order, whose decimal value is `k`, and no content or title yet |
| NavPoints.NumberedDistinct | epub2txts/epub2txts.py:153 | different counters give different ids |
| NavPoints.SetContent | epub2txts/epub2txts.py:157 | setting the current entry's content changes that entry only |
| NavPoints.SetText | epub2txts/epub2txts.py:171 | setting the current entry's title changes that entry only |
| NavPoints.StackPush | epub2txts/epub2txts.py:154-155 | pushing the appended entry one level below the top keeps the stack's shape (levels 0,1,..., increasing positions) |
| NavPoints.StackPop | epub2txts/epub2txts.py:168 | popping keeps the stack's shape |
| NcxToc.NcxShape | epub2txts/epub2txts.py:146-155 | after a successful parse, entry `k` is the one the `k`-th `navPoint` start tag calls for: its own `id` and `playOrder`, or `num_n`/`n` where `n` counts the id-less tags so far from 1; its level is the number of `navPoint`s open before it; the counter is the id-less count; the stack is as deep as the current nesting |
| NcxToc.OpenStep | epub2txts/epub2txts.py:147-155 | a `navPoint` start tag appends exactly one entry, pushes it and makes it current |
| NcxToc.ShapedAfterOpen | epub2txts/epub2txts.py:147-155 | the shape is kept by a `navPoint` start tag |
| NcxToc.ShapedAfterClose | epub2txts/epub2txts.py:167-168 | the shape is kept by a `navPoint` end tag |
| NcxToc.NcxCloseMakesCurrent | epub2txts/epub2txts.py:167-168 | a `navPoint` end tag pops the stack and makes the entry it closes current, changing no entry |
| NcxToc.NcxNumberedIdsDistinct | epub2txts/epub2txts.py:149-153 | two different id-less entries never share an id |
| NcxToc.IdlessGrows | epub2txts/epub2txts.py:152 | every id-less `navPoint` raises the counter |
| NcxToc.NcxTextBuffer | epub2txts/epub2txts.py:158-164 | `inText` holds exactly inside a `text` element, and then `buffer` is the character data since its start tag |
| NcxToc.NcxEntryChanges | epub2txts/epub2txts.py:156-172 | ids, play orders and levels never change; a title is written only by a `text` end tag inside `text`, on the current entry, as the data since the start tag; a content link only by a `content` start tag, as the unquoted `src` |
| NcxToc.NcxStepEntries | epub2txts/epub2txts.py:156-172 | the same rule for one step, in terms of the state's own flag and buffer |
| NcxToc.NcxStepFails | epub2txts/epub2txts.py:146-172 | a step fails exactly on a missing `playOrder`/`src`, a `content` before any `navPoint`, or a `navPoint` end tag with an empty stack |
| NcxToc.NcxFailure | epub2txts/epub2txts.py:146-172 | the parse fails iff some event is such a fault given the events before it |
| NcxToc.NcxErrorSticks | epub2txts/epub2txts.py:174-180 | an exception ends the parse |
| NcxToc.TocParser.StartElement | epub2txts/epub2txts.py:146-160 | the start handler updates the fields as one step prescribes, or reports its exception |
| NcxToc.TocParser.Characters | epub2txts/epub2txts.py:162-164 | character data is appended only while `inText` |
| NcxToc.TocParser.EndElement | epub2txts/epub2txts.py:166-172 | the end handler pops, or moves `buffer` into the current title |
| NcxToc.TocParser.ParseToc | epub2txts/epub2txts.py:174-180 | the parse returns exactly the toc of the fold over the document |
| NavToc.NavShape | epub2txts/epub2txts.py:97-127 | after a successful parse the flag tells whether the document is inside a `nav` of type `toc`; entry `k` is `num_(k+1)` at the `li` depth of the `k`-th `li` inside the toc; the stack is as deep as the `li` nesting inside the toc |
| NavToc.ShapedPush | epub2txts/epub2txts.py:100-106 | a `li` start tag inside the toc appends the next numbered entry one level below the top and keeps the shape |
| NavToc.ShapedPop | epub2txts/epub2txts.py:120-122 | a `li` end tag inside the toc pops and keeps the shape |
| NavToc.NavOnlyInsideToc | epub2txts/epub2txts.py:98-111 | outside the toc no event touches the entries; only a `li` start tag inside it adds one; a `nav` end tag clears the flag |
| NavToc.NavTextBuffer | epub2txts/epub2txts.py:107-127 | `inText` holds exactly inside an `a` element in the toc, and then `buffer` is the character data since its start tag |
| NavToc.NavEntryChanges | epub2txts/epub2txts.py:107-127 | keys never change; a title is written only by an `a` end tag inside the toc, on the current entry, as the link's text; a content link only by an `a` start tag inside the toc, as the unquoted `href` |
| NavToc.NavStepFails | epub2txts/epub2txts.py:97-127 | a step fails exactly on a `nav` without `epub:type`, an `a` in the toc without `href` or before any entry, or a `li` end tag in the toc with an empty stack |
| NavToc.NavFailure | epub2txts/epub2txts.py:97-127 | the parse fails iff some event is such a fault given the events before it |
| NavToc.NavErrorSticks | epub2txts/epub2txts.py:129-135 | an exception ends the parse |
| NavToc.TocParserForEpub3.StartElement | epub2txts/epub2txts.py:97-111 | the start handler updates the fields as one step prescribes, or reports its exception |
| NavToc.TocParserForEpub3.Characters | epub2txts/epub2txts.py:113-115 | character data is appended only while `inText` |
| NavToc.TocParserForEpub3.EndElement | epub2txts/epub2txts.py:117-127 | the end handler clears the flag, pops, or moves `buffer` into the current title |
| NavToc.TocParserForEpub3.ParseToc | epub2txts/epub2txts.py:129-135 | the parse returns exactly the toc of the fold over the document |
| Extraction.FilePart | epub2txts/epub2txts.py:187-188 | the text before the first `#`, a prefix of the reference without `#` |
| Extraction.Anchor | epub2txts/epub2txts.py:189-194 | the flag has no `#`, and is "" when the reference has none |
| Extraction.AnchorOfRef | epub2txts/epub2txts.py:187-194 | `file#anchor` splits back into `file` and `anchor` |
| Extraction.AnchorStopsAtSecondHash | epub2txts/epub2txts.py:190-194 | the flag is the text between the first and the second `#` |
| Extraction.SpineIndex | epub2txts/epub2txts.py:187-188 | the first spine position of the file's id; an error exactly when the file is not a registered XHTML item or its id is not in the spine |
| Extraction.GaoRange | epub2txts/epub2txts.py:187-202 | the range runs from `start`'s spine index to `end`'s, one further exactly when `end` has a non-empty flag |
| Extraction.WithBreak | epub2txts/epub2txts.py:227-234 | the kept text is extended by `\n` exactly when its last character is neither a word character nor CJK |
| Extraction.KeptLine | epub2txts/epub2txts.py:215-234 | a collected line contributes nothing exactly when its cleaned form is empty; otherwise it never starts with `\n` and ends in `\n`, a word character or a CJK character |
| Extraction.ScanSkipsBeforeBody | epub2txts/epub2txts.py:205-210 | lines before the first line containing `body` are skipped |
| Extraction.ScanStopsAtEndAnchor | epub2txts/epub2txts.py:211-212 | a line containing the end flag stops the file before it: the scan equals the scan of the lines before it |
| Extraction.ScanNothingBeforeStart | epub2txts/epub2txts.py:213-215 | until a line contains the start flag nothing is collected |
| Extraction.ScanGrows | epub2txts/epub2txts.py:205-234 | the text only grows, collection once started persists, and the line-break rule is kept |
| Extraction.ScanFilesGrows | epub2txts/epub2txts.py:202-234 | the same across files |
| Extraction.GaoBreaksAfterPunctuation | epub2txts/epub2txts.py:186-236 | in the text `gao` returns, every `\n` follows a character that is neither a word character nor CJK |
| Extraction.GaoSameFileNoAnchor | epub2txts/epub2txts.py:198-202 | two references to the same file without an end anchor give "" |
| Extraction.GaoBackwardsRange | epub2txts/epub2txts.py:202 | an end before the start gives "" |
| Conversion.ChapterNumberDigits | epub2txts/epub2txts.py:281 | the number is decimal digits of value `num`, two wide below 100 |
| Conversion.OpsDir | epub2txts/epub2txts.py:249-251 | the directory prefix is "" or ends in `/` |
| Conversion.OpsDirOf | epub2txts/epub2txts.py:249-251 | `dir/name` gives `dir/`; a bare name gives "" |
| Conversion.PairStepKept | epub2txts/epub2txts.py:264-283 | a kept entry advances the number, names the next file `outpath/NN.title.txt` and writes the previous file with the text from the previous entry to this one |
| Conversion.PairedStep | epub2txts/epub2txts.py:264-283 | the loop keeps: one file per kept entry but the last, numbered from 1 in toc order, each holding the text to the next entry |
| Conversion.PairLoopWrites | epub2txts/epub2txts.py:264-283 | after the loop that invariant holds of the kept (non-`CONTENTS`) entries |
| Conversion.KeptContains | epub2txts/epub2txts.py:265-266 | every entry not titled `CONTENTS` is kept |
| Conversion.PairLoopUntitled | epub2txts/epub2txts.py:281 | an entry with no title makes the loop fail |
| Conversion.PairErrorSticks | epub2txts/epub2txts.py:264-283 | an exception ends the loop |
| Conversion.Finish | epub2txts/epub2txts.py:284-297 | after the loop the last file is created empty; errors pass through |
| Conversion.FinishWrites | epub2txts/epub2txts.py:259-297 | a successful pairing and finish leave one file per kept entry, the last one empty |
| Conversion.ConvertWrites | epub2txts/epub2txts.py:238-297 | a successful conversion writes the empty summary file and then one file per kept toc entry, in toc order, each but the last holding `gao` of its entry and the next |
| Conversion.Epub2Txt.SpinePosition | epub2txts/epub2txts.py:187-188 | `ranks.index(html2id[file])` |
| Conversion.Epub2Txt.KeepLine | epub2txts/epub2txts.py:215-234 | one collected line's contribution |
| Conversion.Epub2Txt.ScanFile | epub2txts/epub2txts.py:204-234 | the loop over one file's lines equals the scan specification |
| Conversion.Epub2Txt.ScanRange | epub2txts/epub2txts.py:202-234 | the loop over the spine range equals the scan specification |
| Conversion.Epub2Txt.Gao | epub2txts/epub2txts.py:186-236 | the method equals the `gao` specification |
| Conversion.Epub2Txt.LoadRootfile | epub2txts/epub2txts.py:240 | the rootfile the container names |
| Conversion.Epub2Txt.LoadPackage | epub2txts/epub2txts.py:241-252 | the parsed package document, stored in the fields with the directory prefix |
| Conversion.Epub2Txt.LoadToc | epub2txts/epub2txts.py:255-257 | the NCX toc, or the navigation-document toc of the same file when it is empty |
| Conversion.Epub2Txt.Load | epub2txts/epub2txts.py:239-257 | everything before the pairing loop |
| Conversion.Epub2Txt.PairChapters | epub2txts/epub2txts.py:259-283 | the loop equals the pairing specification |
| Conversion.Epub2Txt.FinishChapters | epub2txts/epub2txts.py:284-297 | equals the finish specification |
| Conversion.Epub2Txt.Convert | epub2txts/epub2txts.py:238-297 | the whole conversion equals its specification |
| Text.ParseIntOfNat | epub2audiobook.py:225-226 | `int()` reads back every decimal numeral |
| Text.ZFillOfNat | epub2audiobook.py:130 | `zfill` pads to the width with zeros and keeps the value |
| Text.SplitJoin | epub2audiobook.py:221 | splitting a `,`-join of parts without `,` gives the parts back |
| Text.JoinSplit | epub2audiobook.py:221 | joining a split gives the string back |
| Text.StripEmptyIff | epub2audiobook.py:171 | `strip()` is empty iff the text is all whitespace |
| Text.ContainsIff | epub2txts/epub2txts.py:207 | `find(sub) != -1` iff `sub` occurs somewhere |
| AudioText.ReplaceInvalidCharacters | epub2audiobook.py:30-35 | length is kept; each of `/ : * ? " < > \|` becomes `_` and every other character stays |
| AudioText.SanitizedIsValid | epub2audiobook.py:32-34 | the result has none of those characters |
| AudioText.SanitizeIdempotent | epub2audiobook.py:30-35 | sanitising twice is sanitising once |
| AudioText.SanitizeKeepsBackslash | epub2audiobook.py:32 | a backslash is kept, a slash is replaced |
| AudioText.SanitizedJoin | epub2audiobook.py:99-105 | a sanitised non-empty name is one path component below the folder |
| AudioText.UrlParse | epub2audiobook.py:24 | the path holds neither `?` nor `#`, and the query holds no `#`: the fragment is cut at the first `#`, the query at the first `?` before it |
| AudioText.UrlParseJoin | epub2audiobook.py:24 | path, `?query` and `#fragment` put back together give the href |
| AudioText.RemoveUrlFragment | epub2audiobook.py:23-28 | as written: an href without a query comes back up to its first `#`; a `#` in the result can only come from a query |
| AudioText.RemoveUrlFragmentOfFragment | epub2audiobook.py:23-28 | `path#fragment` gives `path` |
| AudioText.RemoveUrlFragmentOfQuery | epub2audiobook.py:26-27 | `path?query` gives `path#query`, or `path` for an empty query: the query goes into the fragment slot |
| AudioText.RemoveUrlFragmentOfBoth | epub2audiobook.py:26-27 | `path?query#fragment` gives `path#query`: the fragment is dropped and the query takes its place |
| AudioText.RemoveUrlFragmentMovesQuery | epub2audiobook.py:26-27 | a non-empty query moves into the fragment, where the href itself was meant, and a second call drops it, so the function is not idempotent |
| AudioText.RemoveUrlFragmentQueryExample | epub2audiobook.py:26-27 | `a.xhtml?q` gives `a.xhtml#q`, where `a.xhtml?q` was meant |
| AudioText.WithoutFragment | epub2audiobook.py:25 | intended: the href up to its first `#`, the query kept |
| AudioText.WithoutFragmentOf | epub2audiobook.py:25 | intended: `path#fragment` gives `path`, a `?query` in the path included |
| AudioText.WithoutFragmentIdempotent | epub2audiobook.py:25 | intended: removing the fragment twice is removing it once |
| AudioText.RemoveUrlFragmentAsIntended | epub2audiobook.py:23-28 | the code as written agrees with the intended removal exactly when the href has no query |
| AudioText.CleanupHasNoNewline | epub2audiobook.py:57-64 | the cleaned text has no `\n` |
| AudioText.UnwrapCrLf | epub2audiobook.py:60-61 | a `\r\n` becomes one space |
| AudioText.UnwrapLf | epub2audiobook.py:60-61 | a bare `\n` becomes one space |
| AudioText.ClearifyHtml | epub2audiobook.py:49-66 | the returned text is one line |
| AudioText.ChooseToc | epub2audiobook.py:42 | the legacy toc exactly when it is strictly longer; the navigation toc on a tie |
| Patterns.FindClose | epub2audiobook.py:54 | the non-greedy `.*?` stops at the first `</rt>` and never crosses a newline |
| Patterns.RemoveRubySpan | epub2audiobook.py:54 | `<rt>…</rt>` on one line is deleted, non-greedily |
| Patterns.RemoveRubyAbsent | epub2txts/epub2txts.py:216 | text without `<rt>` is unchanged |
| Patterns.RemoveRubyNewline | epub2audiobook.py:54 | a span broken by a newline is not deleted |
| Patterns.RemoveLinksSpan | epub2audiobook.py:63-64 | `![](target)` / `[](target)` with a non-empty target without `)` is deleted |
| Patterns.RemoveLinksEmptyTarget | epub2audiobook.py:64 | `[]()` is kept: the target must be non-empty |
| Patterns.RemoveLinksChars | epub2audiobook.py:63-64 | deleting links adds no character |
| Patterns.LinkPassOrder | epub2audiobook.py:63-64 | the image pass runs first: an image link disappears entirely, while the plain pass alone would leave its `!` |
| Audiobook.FirstItem | epub2audiobook.py:82-89 | the loop returns the first item, or None for none |
| Audiobook.ChooseCover | epub2audiobook.py:107-110 | the first cover item, else the first image, else none |
| Audiobook.Extension | epub2audiobook.py:113 | `splitext`'s extension is "" or a `.`-suffix of the last path component |
| Audiobook.ComponentStart | epub2audiobook.py:113 | the last path component starts after the last `/`, and no `/` follows |
| Audiobook.ExtensionRule | epub2audiobook.py:113 | the extension runs from the last `.` of the last component when a non-`.` character precedes it there, and is "" exactly when there is no such `.` |
| Audiobook.ExtensionAtCut | epub2audiobook.py:113 | at such a `.` the extension is the rest of the name |
| Audiobook.ExtensionHasCut | epub2audiobook.py:113 | a non-empty extension starts at such a `.` |
| Audiobook.ExtensionOfPicture | epub2audiobook.py:113 | `c/x.jpg` has the extension `.jpg` |
| Audiobook.ExtensionOfDotFile | epub2audiobook.py:113 | a leading dot does not start an extension |
| Audiobook.ChapterName | epub2audiobook.py:130-133 | the chapter file name is at least three characters longer than the title and holds none of the characters the sanitiser replaces |
| Audiobook.ChapterNameNumber | epub2audiobook.py:130-133 | chapter `i` below 100 is named with two digits of value `i` and a `.` |
| Audiobook.ChapterNamesDistinct | epub2audiobook.py:130-133 | two chapters below 100 never share a name |
| Audiobook.ChapterTitle | epub2audiobook.py:123 | the HTML title when non-empty, else the link's title |
| Audiobook.BookFolderNested | epub2audiobook.py:99-105 | the folder is `out/creator/title`, both sanitised |
| Audiobook.SaveChapters | epub2audiobook.py:118-141 | one chapter per toc link, in toc order, each named and titled by its position; AttributeError exactly when the href that `remove_url_fragment` gives back, as written, names no item |
| Audiobook.ExtractAndSaveChapters | epub2audiobook.py:92-141 | IndexError without creator, title or language; otherwise the chosen toc's chapters in order, in the nested folder, and the cover file `cover` + the extension of the first cover item, else the first image, in that folder with that item's bytes, or no cover file when there is neither |
| Audiobook.AudioOfConcat | epub2audiobook.py:148-150 | the audio of a stream is the concatenation in arrival order |
| Audiobook.CuesOfConcat | epub2audiobook.py:151-152 | cues come in arrival order |
| Audiobook.OtherChunksIgnored | epub2audiobook.py:148-152 | other chunk types change nothing |
| Audiobook.CuesCount | epub2audiobook.py:151-152 | one cue per `WordBoundary` chunk |
| Audiobook.CommunicateEdgeTts | epub2audiobook.py:143-155 | the loop writes the audio data and, unless the stream raised, the subtitle cues |
| Audiobook.RetryFrom | epub2audiobook.py:143 | a synchronous retry stops at the first attempt that does not raise, or at the last of the tries |
| Audiobook.AwaitedAsWritten | epub2audiobook.py:143-144 | as written: `retry` around an `async def` counts calls that never raise, so the awaited stream is one run (stated by `AsyncRetryRunsOnce`) |
| Audiobook.AwaitedRetried | epub2audiobook.py:143 | intended: runs are retried until one does not raise, at most five (stated by `RetryRecovers`) |
| Audiobook.AsyncRetryRunsOnce | epub2audiobook.py:143-144 | as written, the awaited stream is the first attempt's |
| Audiobook.RetryRecovers | epub2audiobook.py:143 | a retry around the awaited call succeeds when some attempt within the five tries succeeds |
| Audiobook.RetryDiscrepancy | epub2audiobook.py:143-144 | a stream that raises once fails as written and succeeds with the retry intended |
| Audiobook.SelectVoice | epub2audiobook.py:163-166 | with gender and language the voice is one of the matches (IndexError on none); otherwise the given voice |
| Audiobook.IsBlank | epub2audiobook.py:171 | the emptiness test of `text.strip()` |
| Audiobook.Spoken | epub2audiobook.py:168-172 | the chapters that are spoken, no more than there are chapters; its membership is stated by `SpokenNotBlank` and `SpokenKeeps` |
| Audiobook.SpokenNotBlank | epub2audiobook.py:168-172 | every spoken chapter has non-blank text and is one of the chapters |
| Audiobook.SpokenKeeps | epub2audiobook.py:168-172 | every chapter with non-blank text is spoken |
| Audiobook.SpokenPrefix | epub2audiobook.py:168-172 | the chapters spoken from a prefix are a prefix of those spoken |
| Audiobook.SpeakOne | epub2audiobook.py:174-178 | the audio and subtitle files of one chapter |
| Audiobook.SpeakChapters | epub2audiobook.py:168-183 | the spoken chapters get outputs in order; on success the tags are `(audio, title, creator, "1")`, `"2"`, ... over the non-blank chapters only; on failure the last output is the first stream that raised |
| Audiobook.TextToSpeech | epub2audiobook.py:158-183 | the voice is selected first; then the same as the loop above |
| Batch.Range | epub2audiobook.py:227-228 | `range(f, t+1)`: `t - f + 1` ascending values from `f`, none when `f > t` |
| Batch.ParseSelectEpubs | epub2audiobook.py:219-230 | the nested loops build exactly the index list the selection function defines |
| Batch.TokenIndexes | epub2audiobook.py:223-230 | one token's indexes: the inclusive range of its first two `-` pieces, or its single int, or ValueError (stated by `RangeTokenDecimal`, `SingleTokenDecimal`, `NegativeTokenFails`) |
| Batch.AppendToken | epub2audiobook.py:223-230 | one token adds its inclusive range or its single int, or raises ValueError |
| Batch.AppendRange | epub2audiobook.py:227-228 | the inner loop appends `Range(f, t)` |
| Batch.SelectionExample | epub2audiobook.py:194 | `0-3,5,7` gives `[0,1,2,3,5,7]` |
| Batch.NegativeTokenFails | epub2audiobook.py:223-226 | a token `-n` contains `-` and its empty first part raises ValueError |
| Batch.ReversedRangeEmpty | epub2audiobook.py:227 | `f-t` with `f > t` adds nothing |
| Batch.RangeTokenDecimal | epub2audiobook.py:223-228 | `f-t` adds `Range(f, t)` |
| Batch.SingleTokenDecimal | epub2audiobook.py:230 | a numeral adds its value |
| Batch.SelectionRoundTrip | epub2audiobook.py:219-230 | a `,`-join of decimals parses back to the same list, order and duplicates kept |
| Batch.FlagStrings | epub2audiobook.py:189-193 | `--tts True` disables speech and the default enables it; `--preview_epubs_only False` enables preview |
| Batch.FileStep | epub2audiobook.py:235-264 | one file as written: TypeError once `idx` is a string, preview listing, the selection filter, extraction, the closed-loop RuntimeError and the rebinding of `idx` (stated by `IdxOverwriteRaises`, `ClosedLoopRaises`, `PreviewListsAll`) |
| Batch.RunBatch | epub2audiobook.py:234-264 | the files in order, stopping at the first exception (stated by `ErrorSticks`, `AtMostOneVoiced`) |
| Batch.ProcessEpubs | epub2audiobook.py:233-264 | the loop over the files equals the as-written specification, stopping at the first exception |
| Batch.ProcessFile | epub2audiobook.py:234-264 | one pass of the loop body as written |
| Batch.LabelFiles | epub2audiobook.py:253-262 | one set of frames per tag, album only with a series name; `idx` is left holding the last tag's track string |
| Batch.ErrorSticks | epub2audiobook.py:233-264 | an exception ends the batch |
| Batch.AtMostOneVoiced | epub2audiobook.py:248-264 | as written, at most one file is ever spoken, and after it the loop is closed |
| Batch.IdxOverwriteRaises | epub2audiobook.py:236 | as written, the file after a spoken file with tags raises TypeError at `idx+=1` |
| Batch.ClosedLoopRaises | epub2audiobook.py:249-264 | as written, the file after a spoken file without tags raises RuntimeError on the closed event loop |
| Batch.SelectedBelow | epub2audiobook.py:241-242 | the indexes below `n` a selection admits, ascending |
| Batch.FixedProcessesSelected | epub2audiobook.py:233-264 | with a separate loop counter and a fresh event loop per file: no error, every selected file is converted and (with speech) spoken, in order |
| Batch.PreviewListsAll | epub2audiobook.py:237-239 | preview lists every file with its index and converts nothing |
| Batch.PreviewAsIntended | epub2audiobook.py:237-239 | in preview the as-written loop behaves as intended |
| Batch.WithoutSpeechAsIntended | epub2audiobook.py:241-248 | without speech the as-written loop behaves as intended |

## Left out

- Zip archive reads, `open`/`write`/`close`, `os.makedirs`, `os.path.exists` and `os.listdir`: files are values. The archive is a map from member names to decoded text, and a conversion's result is the list of files it wrote.
- `find_all_epub_files`: filesystem walking; the batch loop takes the file list as a parameter.
- utf-8 decoding and `chardet` detection: documents are already decoded strings, where the final encode/decode round trip of `clearify_html` is the identity.
- expat's tokenizer: a parameter turning a document into events or an ExpatError. pyexpat runs the handlers on the well-formed prefix of a malformed document before it reports the syntax error, so a KeyError or AttributeError raised in that prefix is what the program raises; the model reports ExpatError for the whole document instead, so only the choice of exception differs.
- `html2text`, BeautifulSoup's `title`/`get_text` and `ebooklib`'s book reading: parameters and abstract inputs (a `Book` value with its metadata, items and both tocs).
- `ebooklib`'s nested toc (sections as tuples): the toc is a flat list of links.
- `edge_tts.Communicate` networking: the stream is an input list of chunks and whether it raised. `SubMaker`'s VTT formatting: the subtitles are the cue list.
- `VoicesManager` and `random.choice`: the matching voices and the pick are parameters.
- Retry timing (`delay`, `backoff`): sleeps are not modelled, only which attempt's result is used.
- argparse, logging and `print(ncx)`: only the flag values the loop reads are modelled.
- mutagen: the ID3 frames are values, not written to MP3 files.
- `extract_and_save_chapters` and `text_to_speech` inside the batch loop: each file's outcome is a `work` input.
- asyncio: the model follows Python up to 3.13, where the policy's `get_event_loop` hands back the same closed loop.
- The `result` dictionary of `convert` and the `lat` variable: they are never returned or written.
- AudioText.RemoveUrlFragment: models `urlparse`/`urlunparse` for relative hrefs only. An href with a scheme (`x:`) or a `//` network location is not modelled. `urlsplit`'s stripping of leading control characters and spaces and its removal of tab, CR and LF are not modelled. An empty `;params` part that `urlunparse` drops (`a;` becomes `a`) is kept.
- `ContainerParser`'s unused `buffer` field.
- Python's `\w` test is a parameter, so Unicode character classes are not modelled. `int()` is modelled for ASCII digits, signs, spaces and underscores only.

## Findings

| source | as written | input that shows it | evidently intended | confidence | as-written member | corrected member |
|---|---|---|---|---|---|---|
| epub2audiobook.py:143-144 | `@retry` wraps an `async def`, so it retries only the call that creates the coroutine, which never raises | a speech stream that raises on the first attempt and succeeds on the second | an exception raised while the stream is awaited is retried, up to five tries | not executed | Audiobook.RetryDiscrepancy | Audiobook.RetryRecovers |
| epub2audiobook.py:236 | the tuple unpacking at line 254 rebinds the file counter `idx` to a track string, so the next `idx+=1` raises TypeError | two files, speech on, the first one spoken with at least one track | the loop counter is a variable of its own, and every selected file is processed | not executed | Batch.IdxOverwriteRaises | Batch.FixedProcessesSelected |
| epub2audiobook.py:249-264 | the event loop is closed in `finally`, and the next file gets the same closed loop, so `run_until_complete` raises RuntimeError | two files, speech on, the first one has no non-blank chapter | every file gets a usable event loop | not executed | Batch.ClosedLoopRaises | Batch.FixedProcessesSelected |
| epub2audiobook.py:26-27 | `urlunparse` gets `''` in the query slot and the query in the fragment slot, so a query becomes the fragment | the href `a.xhtml?q` gives `a.xhtml#q` | the fragment is removed and the query kept: `a.xhtml?q` | not executed | AudioText.RemoveUrlFragmentQueryExample | AudioText.WithoutFragmentIdempotent |
