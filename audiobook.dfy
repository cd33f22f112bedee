/** The audiobook pipeline of epub2audiobook.py: picking the cover, saving one text file per
    table-of-contents link, synthesising one MP3 and one subtitle file per non-empty chapter,
    and the numbering of chapters and tracks. The book is what ebooklib read from the EPUB;
    the speech stream and the HTML parser are inputs. */
module Audiobook {
  import opened Wrappers
  import opened Text
  import opened AudioText

  // ---------------------------------------------------------------------------
  // The book

  /** A table-of-contents link (`epub.Link`). */
  datatype Link = Link(href: string, title: string)

  /** A manifest item with a file name and raw content. */
  datatype Item = Item(name: string, content: seq<bv8>)

  /** What the pipeline reads from an `EpubBook`: the first value of each Dublin Core
      entry list, the documents by href (decoded), the cover and image items, and the two
      tables of contents (`book.toc` with and without the NCX). */
  datatype Book = Book(
    creators: seq<string>,
    titles: seq<string>,
    languages: seq<string>,
    documents: map<string, string>,
    covers: seq<Item>,
    images: seq<Item>,
    legacyToc: seq<Link>,
    navToc: seq<Link>)

  // ---------------------------------------------------------------------------
  // get_first_image_item

  /** `get_first_image_item`: the loop keeps the first item and breaks on the next one
      (items are always truthy). */
  method FirstItem(items: seq<Item>) returns (r: Option<Item>)
    ensures |items| == 0 <==> r.None?
    ensures |items| > 0 ==> r == Some(items[0])
  {
    r := None;
    var i := 0;
    while i < |items|
      invariant 0 <= i <= |items|
      invariant i == 0 ==> r.None?
      invariant i > 0 ==> r == Some(items[0])
      decreases |items| - i
    {
      if r.Some? {
        break;
      }
      r := Some(items[i]);
      i := i + 1;
    }
  }

  /** The last index of `c` in `s`. */
  function LastIndex(s: string, c: char): (r: Option<nat>)
    ensures r.None? <==> c !in s
    ensures r.Some? ==> r.value < |s| && s[r.value] == c && c !in s[r.value + 1..]
  {
    if |s| == 0 then None
    else if s[|s| - 1] == c then Some(|s| - 1)
    else LastIndex(s[..|s| - 1], c)
  }

  /** The first index of the last path component of `name`. */
  function ComponentStart(name: string): (b: nat)
    ensures b <= |name|
    ensures forall j :: b <= j < |name| ==> name[j] != '/'
    ensures b > 0 ==> name[b - 1] == '/'
  {
    match LastIndex(name, '/')
    case None => 0
    case Some(k) =>
      assert forall j :: k + 1 <= j < |name| ==> name[j] == name[k + 1..][j - k - 1];
      k + 1
  }

  /** `os.path.splitext(name)[1]`: from the last `.` of the last path component, provided
      that component has a character other than `.` before it; otherwise "". */
  function Extension(name: string): (ext: string)
    ensures ext == "" || (ext[0] == '.' && '/' !in ext && |ext| <= |name| && ext == name[|name| - |ext|..])
  {
    var base := ComponentStart(name);
    match LastIndex(name, '.')
    case None => ""
    case Some(d) =>
      if d < base then ""
      else if forall j :: base <= j < d ==> name[j] == '.' then ""
      else
        assert '/' !in name[d..];
        name[d..]
  }

  /** `d` is where `splitext` cuts `name`: its last `.`, in its last path component, with a
      character other than `.` before it in that component. */
  predicate CutsAt(name: string, d: nat) {
    && d < |name| && name[d] == '.' && '.' !in name[d + 1..] && '/' !in name[d..]
    && exists i :: 0 <= i < d && name[i] != '.' && '/' !in name[i..d]
  }

  /** The extension is the name from the cut on, and it is empty exactly when there is no
      cut. */
  lemma ExtensionRule(name: string)
    ensures forall d: nat :: CutsAt(name, d) ==> Extension(name) == name[d..]
    ensures Extension(name) != "" <==> exists d: nat :: CutsAt(name, d)
  {
    forall d: nat | CutsAt(name, d) ensures Extension(name) == name[d..] {
      ExtensionAtCut(name, d);
    }
    if Extension(name) != "" {
      ExtensionHasCut(name);
    }
  }

  /** At a cut, the extension is the name from the cut on. */
  lemma ExtensionAtCut(name: string, d: nat)
    requires CutsAt(name, d)
    ensures Extension(name) == name[d..]
  {
    var i :| 0 <= i < d && name[i] != '.' && '/' !in name[i..d];
    assert LastIndex(name, '.') == Some(d);
    var b := ComponentStart(name);
    assert b <= i < d && name[i] != '.';
  }

  /** A non-empty extension starts at a cut. */
  lemma ExtensionHasCut(name: string)
    requires Extension(name) != ""
    ensures CutsAt(name, LastIndex(name, '.').value)
  {
    var d := LastIndex(name, '.').value;
    var b := ComponentStart(name);
    assert d >= b;
    var j :| b <= j < d && name[j] != '.';
    assert '/' !in name[d..];
    assert '/' !in name[j..d];
  }

  /** `x.jpg` keeps `.jpg`. */
  lemma ExtensionOfPicture()
    ensures Extension("c/x.jpg") == ".jpg"
  {
    assert LastIndex("c/x.jpg", '/') == Some(1);
    assert LastIndex("c/x.jpg", '.') == Some(3);
    assert "c/x.jpg"[2] != '.';
  }

  /** A dot-file such as `.jpg` has no extension, nor has a bare name. */
  lemma ExtensionOfDotFile()
    ensures Extension("c/.jpg") == ""
    ensures Extension("x") == ""
  {
    assert LastIndex("c/.jpg", '/') == Some(1);
    assert LastIndex("c/.jpg", '.') == Some(2);
  }

  // ---------------------------------------------------------------------------
  // extract_and_save_chapters

  /** An entry of `text_and_file_names`: the cleaned text and the file name it was saved
      under (in the book folder, without an extension). */
  datatype Chapter = Chapter(raw: string, name: string)

  /** What `extract_and_save_chapters` returns, with the cover file it wrote, if any. */
  datatype Extracted = Extracted(
    folder: string,
    creator: string,
    title: string,
    language: string,
    cover: Option<(string, seq<bv8>)>,
    chapters: seq<Chapter>)

  /** The name of the `i`-th chapter (0-based): two-digit number, `.`, title, sanitised. */
  function ChapterName(i: nat, title: string): (name: string)
    ensures |name| >= |title| + 3
    ensures forall k :: 0 <= k < |name| ==> !IsInvalid(name[k])
  {
    var z := ZFill(NatToString(i), 2);
    assert |z| >= 2;
    SanitizedIsValid(z + "." + title);
    ReplaceInvalidCharacters(z + "." + title)
  }

  /** Below 100 chapters the name starts with the two-digit number and the dot: the
      sanitiser keeps digits and `.`. */
  lemma ChapterNameNumber(i: nat, title: string)
    requires i < 100
    ensures var name := ChapterName(i, title);
      |name| >= 3 && AllDigits(name[..2]) && DigitsValue(name[..2]) == i && name[2] == '.'
  {
    ZFillOfNat(i, 2);
    var z := ZFill(NatToString(i), 2);
    var s := z + "." + title;
    assert |NatToString(i)| <= 2 by {
      if i >= 10 {
        assert NatToString(i) == NatToString(i / 10) + [DigitChar(i % 10)];
      }
    }
    var name := ReplaceInvalidCharacters(s);
    assert name[..2] == z by {
      assert s[0] == z[0] && s[1] == z[1];
      assert !IsInvalid(z[0]) && !IsInvalid(z[1]);
    }
    assert name[2] == '.' by {
      assert s[2] == '.';
    }
  }

  /** Chapters below 100 get different names whatever their titles. */
  lemma ChapterNamesDistinct(i: nat, j: nat, ti: string, tj: string)
    requires i < 100 && j < 100 && i != j
    ensures ChapterName(i, ti) != ChapterName(j, tj)
  {
    ChapterNameNumber(i, ti);
    ChapterNameNumber(j, tj);
  }

  /** The chapter title: the HTML `<title>` if non-empty, otherwise the link title. */
  function ChapterTitle(htmlTitle: string, link: Link): (t: string)
    ensures htmlTitle != "" ==> t == htmlTitle
    ensures htmlTitle == "" ==> t == link.title
  {
    if htmlTitle != "" then htmlTitle else link.title
  }

  /** The document a link points to, without its fragment; `get_item_with_href` gives None
      for a missing one, and `.get_content()` on it raises AttributeError. */
  function LinkDocument(book: Book, link: Link): Result<string>
  {
    var href := RemoveUrlFragment(link.href);
    if href in book.documents then Ok(book.documents[href]) else Err(AttributeError)
  }

  /** The `i`-th chapter saved for `link`. */
  function ChapterFor(book: Book, link: Link, i: nat, parse: string -> Soup): Result<Chapter>
  {
    match LinkDocument(book, link)
    case Err(e) => Err(e)
    case Ok(content) =>
      var (title, raw) := ClearifyHtml(content, parse);
      Ok(Chapter(raw, ChapterName(i, ChapterTitle(title, link))))
  }

  /** A link whose document exists gives the chapter of that document. */
  lemma ChapterForResolved(book: Book, link: Link, i: nat, parse: string -> Soup)
    ensures var href := RemoveUrlFragment(link.href);
      && (LinkDocument(book, link).Ok? <==> href in book.documents)
      && (href in book.documents ==>
            var (title, raw) := ClearifyHtml(book.documents[href], parse);
            ChapterFor(book, link, i, parse) == Ok(Chapter(raw, ChapterName(i, ChapterTitle(title, link)))))
  {
  }

  /** `os.path.join(os.path.join(out, sanitised creator), sanitised title)`. */
  function BookFolder(out: string, creator: string, title: string): string
  {
    PathJoin(PathJoin(out, ReplaceInvalidCharacters(creator)), ReplaceInvalidCharacters(title))
  }

  /** A non-empty creator and title become two directory levels below the output folder. */
  lemma BookFolderNested(out: string, creator: string, title: string)
    requires |out| > 0 && out[|out| - 1] != '/' && |creator| > 0 && |title| > 0
    ensures BookFolder(out, creator, title)
         == out + "/" + ReplaceInvalidCharacters(creator) + "/" + ReplaceInvalidCharacters(title)
  {
    SanitizedJoin(out, creator);
    var dir := out + "/" + ReplaceInvalidCharacters(creator);
    assert dir[|dir| - 1] == ReplaceInvalidCharacters(creator)[|creator| - 1];
    SanitizedJoin(dir, title);
  }

  /** Every link whose document exists. */
  predicate AllLinksResolve(book: Book, toc: seq<Link>) {
    forall i :: 0 <= i < |toc| ==> LinkDocument(book, toc[i]).Ok?
  }

  /** The first `|chapters|` links of `toc` give `chapters`, in order. */
  predicate SavedAs(book: Book, toc: seq<Link>, parse: string -> Soup, chapters: seq<Chapter>) {
    && |chapters| <= |toc|
    && forall i :: 0 <= i < |chapters| ==> ChapterFor(book, toc[i], i, parse) == Ok(chapters[i])
  }

  /** The chapter of the next link extends the saved chapters. */
  lemma SavedExtend(book: Book, toc: seq<Link>, parse: string -> Soup, chapters: seq<Chapter>, c: Chapter)
    requires SavedAs(book, toc, parse, chapters) && |chapters| < |toc|
    requires ChapterFor(book, toc[|chapters|], |chapters|, parse) == Ok(c)
    ensures SavedAs(book, toc, parse, chapters + [c])
  {
    var next := chapters + [c];
    forall i | 0 <= i < |next| ensures ChapterFor(book, toc[i], i, parse) == Ok(next[i]) {
      if i < |chapters| {
        assert ChapterFor(book, toc[i], i, parse) == Ok(chapters[i]);
        assert next[i] == chapters[i];
      } else {
        assert i == |chapters| && next[i] == c;
      }
    }
  }

  /** The loop of `extract_and_save_chapters` over the links. */
  method SaveChapters(book: Book, toc: seq<Link>, parse: string -> Soup) returns (r: Result<seq<Chapter>>)
    ensures r.Ok? <==> AllLinksResolve(book, toc)
    ensures r.Err? ==> r.error == AttributeError
    ensures r.Ok? ==>
      && |r.value| == |toc|
      && forall i :: 0 <= i < |toc| ==> ChapterFor(book, toc[i], i, parse) == Ok(r.value[i])
  {
    var chapters: seq<Chapter> := [];
    var num := 0;
    while num < |toc|
      invariant 0 <= num <= |toc| && |chapters| == num
      invariant SavedAs(book, toc, parse, chapters)
      decreases |toc| - num
    {
      var link := toc[num];
      var href := RemoveUrlFragment(link.href);
      ChapterForResolved(book, link, num, parse);
      if href !in book.documents {
        assert !LinkDocument(book, toc[num]).Ok?;
        return Err(AttributeError);
      }
      var (title, raw) := ClearifyHtml(book.documents[href], parse);
      var chapterTitle := if title != "" then title else link.title;
      var name := ReplaceInvalidCharacters(ZFill(NatToString(num), 2) + "." + chapterTitle);
      SavedExtend(book, toc, parse, chapters, Chapter(raw, name));
      chapters := chapters + [Chapter(raw, name)];
      num := num + 1;
    }
    r := Ok(chapters);
  }

  /** `extract_and_save_chapters`: the toc is the one `get_toc` chooses; the metadata lists
      must be non-empty (`[0][0]`); the cover is the first cover item, else the first image;
      then one chapter per link, in toc order, numbered from 0. */
  method ExtractAndSaveChapters(book: Book, out: string, parse: string -> Soup) returns (r: Result<Extracted>)
    ensures |book.creators| == 0 || |book.titles| == 0 || |book.languages| == 0 ==> r == Err(IndexError)
    ensures r.Ok? <==>
      && |book.creators| > 0 && |book.titles| > 0 && |book.languages| > 0
      && AllLinksResolve(book, ChooseToc(book.legacyToc, book.navToc))
    ensures r.Ok? ==>
      var toc := ChooseToc(book.legacyToc, book.navToc);
      && r.value.creator == book.creators[0] && r.value.title == book.titles[0]
      && r.value.language == book.languages[0]
      && r.value.folder == BookFolder(out, book.creators[0], book.titles[0])
      && |r.value.chapters| == |toc|
      && (forall i :: 0 <= i < |toc| ==> ChapterFor(book, toc[i], i, parse) == Ok(r.value.chapters[i]))
    ensures r.Ok? ==>
      var folder := BookFolder(out, book.creators[0], book.titles[0]);
      r.value.cover ==
        if |book.covers| > 0 then Some((PathJoin(folder, "cover" + Extension(book.covers[0].name)), book.covers[0].content))
        else if |book.images| > 0 then Some((PathJoin(folder, "cover" + Extension(book.images[0].name)), book.images[0].content))
        else None
  {
    var toc := ChooseToc(book.legacyToc, book.navToc);
    if |book.creators| == 0 || |book.titles| == 0 || |book.languages| == 0 {
      return Err(IndexError);
    }
    var creator, bookTitle, language := book.creators[0], book.titles[0], book.languages[0];
    var folder := PathJoin(out, ReplaceInvalidCharacters(creator));
    folder := PathJoin(folder, ReplaceInvalidCharacters(bookTitle));
    var coverItem := ChooseCover(book);
    var cover: Option<(string, seq<bv8>)> := None;
    if coverItem.Some? {
      cover := Some((PathJoin(folder, "cover" + Extension(coverItem.value.name)), coverItem.value.content));
    }
    var chapters := SaveChapters(book, toc, parse);
    if chapters.Err? {
      return Err(chapters.error);
    }
    r := Ok(Extracted(folder, creator, bookTitle, language, cover, chapters.value));
  }

  /** The cover is the first cover item, or the first image when there is none. */
  method ChooseCover(book: Book) returns (r: Option<Item>)
    ensures |book.covers| > 0 ==> r == Some(book.covers[0])
    ensures |book.covers| == 0 && |book.images| > 0 ==> r == Some(book.images[0])
    ensures r.None? <==> |book.covers| == 0 && |book.images| == 0
  {
    r := FirstItem(book.covers);
    if r.None? {
      r := FirstItem(book.images);
    }
  }

  // ---------------------------------------------------------------------------
  // communicate_edge_tts

  /** A chunk of the `edge_tts` stream. */
  datatype Chunk =
    | Audio(data: seq<bv8>)
    | WordBoundary(offset: int, duration: int, text: string)
    | OtherChunk(kind: string)

  /** One subtitle cue as `SubMaker.create_sub` receives it. */
  datatype Cue = Cue(offset: int, duration: int, text: string)

  /** One run of the stream: the chunks that arrived, and whether it then raised. */
  datatype Stream = Stream(chunks: seq<Chunk>, raised: bool)

  /** The audio file's bytes after the chunks: the audio data in arrival order. */
  function AudioOf(chunks: seq<Chunk>): seq<bv8>
  {
    if |chunks| == 0 then []
    else AudioOf(chunks[..|chunks| - 1]) + match chunks[|chunks| - 1] case Audio(d) => d case _ => []
  }

  /** The cues after the chunks: one per word boundary, in arrival order. */
  function CuesOf(chunks: seq<Chunk>): seq<Cue>
  {
    if |chunks| == 0 then []
    else CuesOf(chunks[..|chunks| - 1]) + match chunks[|chunks| - 1]
      case WordBoundary(o, d, t) => [Cue(o, d, t)] case _ => []
  }

  /** Splitting a stream splits the audio: the fold is a homomorphism. */
  lemma {:induction false} AudioOfConcat(a: seq<Chunk>, b: seq<Chunk>)
    ensures AudioOf(a + b) == AudioOf(a) + AudioOf(b)
    decreases |b|
  {
    if |b| == 0 {
      assert a + b == a;
    } else {
      assert (a + b)[..|a + b| - 1] == a + b[..|b| - 1];
      AudioOfConcat(a, b[..|b| - 1]);
    }
  }

  /** And the cues. */
  lemma {:induction false} CuesOfConcat(a: seq<Chunk>, b: seq<Chunk>)
    ensures CuesOf(a + b) == CuesOf(a) + CuesOf(b)
    decreases |b|
  {
    if |b| == 0 {
      assert a + b == a;
    } else {
      assert (a + b)[..|a + b| - 1] == a + b[..|b| - 1];
      CuesOfConcat(a, b[..|b| - 1]);
    }
  }

  /** Other chunk types contribute nothing. */
  lemma OtherChunksIgnored(chunks: seq<Chunk>, kind: string)
    ensures AudioOf(chunks + [OtherChunk(kind)]) == AudioOf(chunks)
    ensures CuesOf(chunks + [OtherChunk(kind)]) == CuesOf(chunks)
  {
    assert (chunks + [OtherChunk(kind)])[..|chunks|] == chunks;
  }

  /** There is one cue per word-boundary chunk. */
  function BoundaryCount(chunks: seq<Chunk>): nat
  {
    if |chunks| == 0 then 0
    else BoundaryCount(chunks[..|chunks| - 1]) + if chunks[|chunks| - 1].WordBoundary? then 1 else 0
  }

  lemma {:induction false} CuesCount(chunks: seq<Chunk>)
    ensures |CuesOf(chunks)| == BoundaryCount(chunks)
    decreases |chunks|
  {
    if |chunks| > 0 {
      CuesCount(chunks[..|chunks| - 1]);
    }
  }

  /** What one call leaves: the audio file, and the cues of the subtitle file, which is
      written only after the stream ended without raising. */
  datatype Speech = Speech(audio: seq<bv8>, subtitles: Option<seq<Cue>>)

  /** `communicate_edge_tts` on one stream: audio chunks are written as they arrive and
      word boundaries become cues; a raise leaves the audio written so far and no subtitle
      file. */
  method CommunicateEdgeTts(s: Stream) returns (sp: Speech)
    ensures sp.audio == AudioOf(s.chunks)
    ensures sp.subtitles == if s.raised then None else Some(CuesOf(s.chunks))
  {
    var audio: seq<bv8> := [];
    var cues: seq<Cue> := [];
    var i := 0;
    while i < |s.chunks|
      invariant 0 <= i <= |s.chunks|
      invariant audio == AudioOf(s.chunks[..i]) && cues == CuesOf(s.chunks[..i])
      decreases |s.chunks| - i
    {
      var chunk := s.chunks[i];
      assert s.chunks[..i + 1][..i] == s.chunks[..i];
      match chunk {
        case Audio(data) =>
          audio := audio + data;
        case WordBoundary(offset, duration, text) =>
          cues := cues + [Cue(offset, duration, text)];
        case OtherChunk(_) =>
      }
      i := i + 1;
    }
    assert s.chunks[..i] == s.chunks;
    sp := Speech(audio, if s.raised then None else Some(cues));
  }

  // ---------------------------------------------------------------------------
  // @retry(tries=5, delay=1, backoff=3)

  const Tries: nat := 5

  /** The `retry` loop: call number `k`, `k + 1`, ... until one returns without raising or
      the last of `tries` calls has raised; the result is the index of the last call. */
  function RetryFrom(raises: nat -> bool, k: nat, tries: nat): (n: nat)
    requires k < tries
    ensures k <= n < tries
    ensures !raises(n) || n == tries - 1
    ensures forall j :: k <= j < n ==> raises(j)
    decreases tries - k
  {
    if !raises(k) || k + 1 == tries then k else RetryFrom(raises, k + 1, tries)
  }

  /** As written: the decorated function is `async def`, so calling it only creates a
      coroutine, which never raises; `retry` returns after the first call and the body runs
      once, when the coroutine is awaited. `attempt(k)` is the stream of the `k`-th run. */
  function AwaitedAsWritten(attempt: nat -> Stream): Stream
  {
    var calls := RetryFrom((k: nat) => false, 0, Tries);
    attempt(calls)
  }

  /** The intended behaviour: the body is retried until a run does not raise, at most five
      runs (a synchronous call, or an asynchronous retry). */
  function AwaitedRetried(attempt: nat -> Stream): Stream
  {
    attempt(RetryFrom((k: nat) => attempt(k).raised, 0, Tries))
  }

  /** As written, only the first run happens, whatever it does. */
  lemma AsyncRetryRunsOnce(attempt: nat -> Stream)
    ensures AwaitedAsWritten(attempt) == attempt(0)
  {
  }

  /** Retried, the call succeeds whenever one of the five runs would. */
  lemma RetryRecovers(attempt: nat -> Stream, k: nat)
    requires k < Tries && !attempt(k).raised
    ensures !AwaitedRetried(attempt).raised
  {
  }

  /** A first run that fails and a second that succeeds: as written the failure propagates,
      retried it does not. */
  lemma RetryDiscrepancy()
    ensures AwaitedAsWritten(k => Stream([], k == 0)).raised
    ensures !AwaitedRetried(k => Stream([], k == 0)).raised
  {
    RetryRecovers((k: nat) => Stream([], k == 0), 1);
  }

  // ---------------------------------------------------------------------------
  // text_to_speech

  /** The ID3 data for one MP3: file, book title, creator and track number. */
  datatype Tag = Tag(audioFile: string, bookTitle: string, creator: string, track: string)

  /** The voice: when both gender and language are set, a random voice among those found
      for them (`random.choice` is `pick`, and raises IndexError on an empty list);
      otherwise the given voice name. */
  function SelectVoice(voice: Option<string>, gender: string, language: string, voices: seq<string>,
                       pick: nat): (r: Result<Option<string>>)
    ensures r.Err? <==> gender != "" && language != "" && |voices| == 0
    ensures r.Ok? && gender != "" && language != "" ==> r.value.Some? && r.value.value in voices
    ensures gender == "" || language == "" ==> r == Ok(voice)
  {
    if gender != "" && language != "" then
      if |voices| == 0 then Err(IndexError) else Ok(Some(voices[pick % |voices|]))
    else Ok(voice)
  }

  /** Text made only of whitespace, which is what `len(text.strip()) == 0` tests
      (`Text.StripEmptyIff`). */
  predicate Blank(text: string) {
    forall i :: 0 <= i < |text| ==> IsSpace(text[i])
  }

  /** The test `len(text.strip()) == 0`. */
  method IsBlank(text: string) returns (b: bool)
    ensures b == Blank(text)
  {
    StripEmptyIff(text);
    b := |Strip(text)| == 0;
  }

  /** The chapters that are spoken: those whose text is not blank. */
  function Spoken(chapters: seq<Chapter>): (s: seq<Chapter>)
    ensures |s| <= |chapters|
  {
    if |chapters| == 0 then []
    else
      var last := chapters[|chapters| - 1];
      Spoken(chapters[..|chapters| - 1]) + (if Blank(last.raw) then [] else [last])
  }

  /** One more chapter: appended when not blank. */
  lemma SpokenStep(chapters: seq<Chapter>, i: nat)
    requires i < |chapters|
    ensures Spoken(chapters[..i + 1]) == Spoken(chapters[..i]) + (if Blank(chapters[i].raw) then [] else [chapters[i]])
  {
    assert chapters[..i + 1][..i] == chapters[..i];
  }

  /** Only chapters with a non-blank text are spoken, and each comes from the input. */
  lemma {:induction false} SpokenNotBlank(chapters: seq<Chapter>, k: nat)
    requires k < |Spoken(chapters)|
    ensures !Blank(Spoken(chapters)[k].raw)
    ensures Spoken(chapters)[k] in chapters
    decreases |chapters|
  {
    var n := |chapters|;
    var prefix := chapters[..n - 1];
    SpokenStep(chapters, n - 1);
    assert chapters[..n] == chapters;
    if k < |Spoken(prefix)| {
      SpokenNotBlank(prefix, k);
      assert Spoken(chapters)[k] == Spoken(prefix)[k];
      assert Spoken(prefix)[k] in prefix;
    } else {
      assert Spoken(chapters)[k] == chapters[n - 1];
    }
  }

  /** Every chapter with a non-blank text is spoken. */
  lemma {:induction false} SpokenKeeps(chapters: seq<Chapter>, i: nat)
    requires i < |chapters| && !Blank(chapters[i].raw)
    ensures chapters[i] in Spoken(chapters)
    decreases |chapters|
  {
    var n := |chapters|;
    SpokenStep(chapters, n - 1);
    assert chapters[..n] == chapters;
    if i < n - 1 {
      assert chapters[..n - 1][i] == chapters[i];
      SpokenKeeps(chapters[..n - 1], i);
    }
  }

  /** The files of a spoken chapter. */
  function AudioPath(folder: string, c: Chapter): string { PathJoin(folder, c.name + ".mp3") }
  function SubtitlePath(folder: string, c: Chapter): string { PathJoin(folder, c.name + ".vtt") }

  /** The audio and subtitle files written for one spoken chapter. */
  datatype Output = Output(audioFile: string, subtitleFile: string, speech: Speech)

  function OutputFor(folder: string, c: Chapter, s: Stream): Output
  {
    Output(AudioPath(folder, c), SubtitlePath(folder, c),
           Speech(AudioOf(s.chunks), if s.raised then None else Some(CuesOf(s.chunks))))
  }

  /** Tag `k` (0-based) of the spoken chapters: track `k + 1`. */
  predicate TaggedInOrder(tags: seq<Tag>, folder: string, bookTitle: string, creator: string, spoken: seq<Chapter>)
  {
    && |tags| == |spoken|
    && forall k :: 0 <= k < |tags| ==>
         tags[k] == Tag(AudioPath(folder, spoken[k]), bookTitle, creator, NatToString(k + 1))
  }

  /** The outputs of the first chapters of `spoken`, each from its own stream. */
  predicate OutputsInOrder(outputs: seq<Output>, folder: string, spoken: seq<Chapter>,
                           speak: (string, Option<string>) -> Stream, v: Option<string>)
  {
    && |outputs| <= |spoken|
    && forall k :: 0 <= k < |outputs| ==> outputs[k] == OutputFor(folder, spoken[k], speak(spoken[k].raw, v))
  }

  /** One spoken chapter: its two files, and whether the stream raised. */
  method SpeakOne(folder: string, c: Chapter, v: Option<string>, speak: (string, Option<string>) -> Stream)
    returns (out: Output, raised: bool)
    ensures out == OutputFor(folder, c, speak(c.raw, v)) && raised == speak(c.raw, v).raised
  {
    var audioFile := PathJoin(folder, c.name + ".mp3");
    var subtitleFile := PathJoin(folder, c.name + ".vtt");
    var stream := speak(c.raw, v);
    var sp := CommunicateEdgeTts(stream);
    out := Output(audioFile, subtitleFile, sp);
    raised := stream.raised;
  }

  /** No spoken chapter's stream raises. */
  predicate NoneRaise(spoken: seq<Chapter>, speak: (string, Option<string>) -> Stream, v: Option<string>) {
    forall k :: 0 <= k < |spoken| ==> !speak(spoken[k].raw, v).raised
  }

  /** Chapter `n` is the first whose stream raises. */
  predicate FirstRaise(spoken: seq<Chapter>, n: nat, speak: (string, Option<string>) -> Stream, v: Option<string>) {
    n < |spoken| && speak(spoken[n].raw, v).raised && NoneRaise(spoken[..n], speak, v)
  }

  lemma FirstRaiseExtends(a: seq<Chapter>, b: seq<Chapter>, n: nat,
                          speak: (string, Option<string>) -> Stream, v: Option<string>)
    requires a <= b && FirstRaise(a, n, speak, v)
    ensures FirstRaise(b, n, speak, v) && !NoneRaise(b, speak, v)
  {
    assert a[..n] == b[..n];
    assert a[n] == b[n];
  }

  /** The loop of `text_to_speech` with the voice chosen. */
  method SpeakChapters(folder: string, creator: string, bookTitle: string, chapters: seq<Chapter>,
                       v: Option<string>, speak: (string, Option<string>) -> Stream)
    returns (r: Result<seq<Tag>>, outputs: seq<Output>)
    ensures OutputsInOrder(outputs, folder, Spoken(chapters), speak, v)
    ensures r.Ok? ==>
      && |outputs| == |Spoken(chapters)| && NoneRaise(Spoken(chapters), speak, v)
      && TaggedInOrder(r.value, folder, bookTitle, creator, Spoken(chapters))
    ensures r.Err? ==>
      && r.error == SynthesisError && |outputs| > 0 && FirstRaise(Spoken(chapters), |outputs| - 1, speak, v)
      && !NoneRaise(Spoken(chapters), speak, v)
  {
    outputs := [];
    var tags: seq<Tag> := [];
    var idx := 1;
    var i := 0;
    ghost var spoken: seq<Chapter> := [];
    while i < |chapters|
      invariant 0 <= i <= |chapters| && spoken == Spoken(chapters[..i])
      invariant idx == |tags| + 1 && |outputs| == |tags|
      invariant TaggedInOrder(tags, folder, bookTitle, creator, spoken)
      invariant OutputsInOrder(outputs, folder, spoken, speak, v)
      invariant NoneRaise(spoken, speak, v)
      decreases |chapters| - i
    {
      var c := chapters[i];
      SpokenStep(chapters, i);
      var blank := IsBlank(c.raw);
      if blank {
        i := i + 1;
        continue;
      }
      ghost var before := spoken;
      var out, raised := SpeakOne(folder, c, v, speak);
      if raised {
        RaiseStops(chapters, i, before, outputs, out, folder, speak, v);
        return Err(SynthesisError), outputs + [out];
      }
      var tag := Tag(out.audioFile, bookTitle, creator, NatToString(idx));
      SpokenGrows(before, c, tags, outputs, tag, out, folder, bookTitle, creator, speak, v);
      spoken := spoken + [c];
      outputs := outputs + [out];
      tags := tags + [tag];
      idx := idx + 1;
      i := i + 1;
    }
    assert chapters[..i] == chapters;
    r := Ok(tags);
  }

  /** A chapter spoken without a raise extends the tags and the outputs in order. */
  lemma SpokenGrows(spoken: seq<Chapter>, c: Chapter, tags: seq<Tag>, outputs: seq<Output>, tag: Tag, out: Output,
                    folder: string, bookTitle: string, creator: string,
                    speak: (string, Option<string>) -> Stream, v: Option<string>)
    requires TaggedInOrder(tags, folder, bookTitle, creator, spoken) && |outputs| == |tags|
    requires OutputsInOrder(outputs, folder, spoken, speak, v) && NoneRaise(spoken, speak, v)
    requires out == OutputFor(folder, c, speak(c.raw, v)) && !speak(c.raw, v).raised
    requires tag == Tag(out.audioFile, bookTitle, creator, NatToString(|tags| + 1))
    ensures TaggedInOrder(tags + [tag], folder, bookTitle, creator, spoken + [c])
    ensures OutputsInOrder(outputs + [out], folder, spoken + [c], speak, v)
    ensures NoneRaise(spoken + [c], speak, v)
  {
    var s := spoken + [c];
    assert forall k :: 0 <= k < |spoken| ==> s[k] == spoken[k];
  }

  /** A raising stream ends the loop: the outputs so far are the first ones of the whole
      spoken list, and the last of them is the first raise. */
  lemma RaiseStops(chapters: seq<Chapter>, i: nat, before: seq<Chapter>, outputs: seq<Output>, out: Output,
                   folder: string, speak: (string, Option<string>) -> Stream, v: Option<string>)
    requires i < |chapters| && !Blank(chapters[i].raw)
    requires before == Spoken(chapters[..i]) && NoneRaise(before, speak, v)
    requires OutputsInOrder(outputs, folder, before, speak, v) && |outputs| == |before|
    requires out == OutputFor(folder, chapters[i], speak(chapters[i].raw, v)) && speak(chapters[i].raw, v).raised
    ensures OutputsInOrder(outputs + [out], folder, Spoken(chapters), speak, v)
    ensures FirstRaise(Spoken(chapters), |before|, speak, v) && !NoneRaise(Spoken(chapters), speak, v)
  {
    var c := chapters[i];
    var spoken := before + [c];
    SpokenStep(chapters, i);
    RaiseAtEnd(before, c, outputs, out, folder, speak, v);
    SpokenPrefix(chapters, i + 1);
    FirstRaiseExtends(spoken, Spoken(chapters), |before|, speak, v);
    OutputsExtend(outputs + [out], folder, spoken, Spoken(chapters), speak, v);
  }

  lemma RaiseAtEnd(before: seq<Chapter>, c: Chapter, outputs: seq<Output>, out: Output,
                   folder: string, speak: (string, Option<string>) -> Stream, v: Option<string>)
    requires NoneRaise(before, speak, v)
    requires OutputsInOrder(outputs, folder, before, speak, v) && |outputs| == |before|
    requires out == OutputFor(folder, c, speak(c.raw, v)) && speak(c.raw, v).raised
    ensures FirstRaise(before + [c], |before|, speak, v)
    ensures OutputsInOrder(outputs + [out], folder, before + [c], speak, v)
  {
    var spoken := before + [c];
    assert spoken[..|before|] == before;
    var o := outputs + [out];
    assert forall k :: 0 <= k < |before| ==> spoken[k] == before[k] && o[k] == outputs[k];
  }

  lemma OutputsExtend(outputs: seq<Output>, folder: string, a: seq<Chapter>, b: seq<Chapter>,
                      speak: (string, Option<string>) -> Stream, v: Option<string>)
    requires a <= b && OutputsInOrder(outputs, folder, a, speak, v)
    ensures OutputsInOrder(outputs, folder, b, speak, v)
  {
    assert forall k :: 0 <= k < |a| ==> a[k] == b[k];
  }

  lemma SpokenPrefixAt(a: seq<Chapter>, b: seq<Chapter>)
    requires a <= b
    ensures forall k :: 0 <= k < |a| ==> a[k] == b[k]
  {
  }

  /** `text_to_speech`: `speak(text, voice)` is the stream that the awaited call runs
      (see `AwaitedAsWritten`). Blank chapters are skipped; the others are spoken in order
      and tagged with track numbers 1, 2, ... counted over the spoken chapters only. A
      raising stream ends the whole call with its exception. */
  method TextToSpeech(folder: string, creator: string, bookTitle: string, chapters: seq<Chapter>,
                      voice: Option<string>, gender: string, language: string, voices: seq<string>, pick: nat,
                      speak: (string, Option<string>) -> Stream)
    returns (r: Result<seq<Tag>>, outputs: seq<Output>)
    ensures SelectVoice(voice, gender, language, voices, pick).Err? ==> r == Err(IndexError) && outputs == []
    ensures SelectVoice(voice, gender, language, voices, pick).Ok? ==>
      var v := SelectVoice(voice, gender, language, voices, pick).value;
      && OutputsInOrder(outputs, folder, Spoken(chapters), speak, v)
      && (r.Ok? <==> NoneRaise(Spoken(chapters), speak, v))
      && (r.Ok? ==> TaggedInOrder(r.value, folder, bookTitle, creator, Spoken(chapters)))
      && (r.Err? ==> r == Err(SynthesisError) && |outputs| > 0 && FirstRaise(Spoken(chapters), |outputs| - 1, speak, v))
  {
    var selected := SelectVoice(voice, gender, language, voices, pick);
    if selected.Err? {
      return Err(IndexError), [];
    }
    r, outputs := SpeakChapters(folder, creator, bookTitle, chapters, selected.value, speak);
  }

  /** The spoken chapters of a prefix are a prefix of the spoken chapters. */
  lemma {:induction false} SpokenPrefix(chapters: seq<Chapter>, i: nat)
    requires i <= |chapters|
    ensures Spoken(chapters[..i]) <= Spoken(chapters)
    decreases |chapters| - i
  {
    if i < |chapters| {
      SpokenPrefix(chapters, i + 1);
      SpokenStep(chapters, i);
    } else {
      assert chapters[..i] == chapters;
    }
  }
}
