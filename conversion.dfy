/** `epub2txt` (epub2txts/epub2txts.py): opens the archive, runs the four parsers and writes
    one text file per table-of-contents entry, named by its position and title, holding the
    text between that entry's reference and the next one's. */
module Conversion {
  import opened Wrappers
  import opened Text
  import opened XmlEvents
  import opened ContainerParsing
  import opened BookParsing
  import opened NavPoints
  import opened NcxToc
  import opened NavToc
  import opened Extraction

  /** A file left behind by `open(path, "w")` and what was written to it. */
  datatype FileWrite = FileWrite(path: string, content: string)

  /** Every file the conversion wrote, in the order it opened them, and the exception that
      ended it, if any. */
  datatype Outcome = Outcome(writes: seq<FileWrite>, error: Option<Error>)

  const ContainerPath: string := "META-INF/container.xml"
  const ContentsTitle: string := "CONTENTS"

  // ---------------------------------------------------------------------------
  // Names

  /** The chapter number in a file name: `str(num).zfill(2)`. */
  function ChapterNumber(num: nat): string
  {
    ZFill(NatToString(num), 2)
  }

  /** Numbers below 100 get exactly two digits and read back as themselves; larger ones are
      written in full. */
  lemma ChapterNumberDigits(num: nat)
    ensures AllDigits(ChapterNumber(num)) && DigitsValue(ChapterNumber(num)) == num
    ensures num < 100 ==> |ChapterNumber(num)| == 2
    ensures num >= 10 ==> ChapterNumber(num) == NatToString(num)
  {
    ZFillOfNat(num, 2);
    if num < 100 {
      NatToStringShort(num);
    } else {
      NatToStringLong(num);
    }
    if num >= 10 {
      NatToStringLong(num);
    }
  }

  lemma NatToStringShort(num: nat)
    requires num < 100
    ensures |NatToString(num)| <= 2
  {
  }

  lemma NatToStringLong(num: nat)
    requires num >= 10
    ensures |NatToString(num)| >= 2
  {
  }

  /** `os.path.join(outpath, str(num).zfill(2) + "." + text + ".txt")`. */
  function ChapterPath(outpath: string, num: nat, text: string): string
  {
    PathJoin(outpath, ChapterNumber(num) + "." + text + ".txt")
  }

  /** `"/".join(rootfile.split("/")[:-1])`, with a trailing `/` when not empty: the
      directory of the package document. */
  function OpsDir(rootfile: string): (ops: string)
    ensures ops == "" || ops[|ops| - 1] == '/'
  {
    var parts := Split(rootfile, '/');
    var dir := Join(parts[..|parts| - 1], '/');
    if dir != "" then dir + "/" else ""
  }

  /** The directory of a package document in a sub-directory is that sub-directory. */
  lemma OpsDirOf(dir: string, name: string)
    requires '/' !in dir && '/' !in name
    ensures OpsDir(dir + "/" + name) == (if dir == "" then "" else dir + "/")
    ensures OpsDir(name) == ""
  {
    SplitTwo(dir, name, '/');
    assert dir + "/" + name == dir + ['/'] + name;
    SplitHead(name, '/');
  }

  // ---------------------------------------------------------------------------
  // The pairing loop

  /** The entries the loop does not skip. */
  function Kept(toc: seq<NavPoint>): seq<NavPoint>
  {
    if |toc| == 0 then []
    else Kept(toc[..|toc| - 1]) + if toc[|toc| - 1].text == Some(ContentsTitle) then [] else [toc[|toc| - 1]]
  }

  /** The loop variables `last`, `lastfile` and `num`, the files written so far and the
      exception that stopped the loop. `last` is None when an entry had no content. */
  datatype Pairing = Pairing(last: Option<string>, lastfile: string, num: nat, writes: seq<FileWrite>,
                             error: Option<Error>)

  const PairInit := Pairing(Some(""), "", 0, [], None)

  /** One pass of the loop body over entry `t`: the previous entry's file is opened (and so
      created empty) before `gao` runs, and gets its text if `gao` succeeds; an entry with
      no title raises TypeError in the name. */
  function PairStep(pkg: Package, outpath: string, html2text: string -> string, isWordChar: char -> bool,
                    p: Pairing, t: NavPoint): Pairing
  {
    if p.error.Some? || t.text == Some(ContentsTitle) then p
    else
      var p1 :=
        if p.lastfile == "" then p
        else match Gao(pkg, p.last, t.content, html2text, isWordChar)
          case Ok(strr) => p.(writes := p.writes + [FileWrite(p.lastfile, strr)])
          case Err(e) => p.(writes := p.writes + [FileWrite(p.lastfile, "")], error := Some(e));
      if p1.error.Some? then p1
      else if t.text.None? then p1.(num := p1.num + 1, error := Some(TypeError))
      else p1.(num := p1.num + 1, lastfile := ChapterPath(outpath, p1.num + 1, t.text.value), last := t.content)
  }

  /** The loop after a prefix of the toc. */
  function PairLoop(pkg: Package, outpath: string, html2text: string -> string, isWordChar: char -> bool,
                    toc: seq<NavPoint>): Pairing
  {
    if |toc| == 0 then PairInit
    else PairStep(pkg, outpath, html2text, isWordChar, PairLoop(pkg, outpath, html2text, isWordChar, toc[..|toc| - 1]), toc[|toc| - 1])
  }

  /** The file for kept entry `k` (0-based): number `k + 1`, the entry's title. */
  predicate ChapterFile(w: FileWrite, outpath: string, kept: seq<NavPoint>, k: nat)
    requires k < |kept|
  {
    kept[k].text.Some? && w.path == ChapterPath(outpath, k + 1, kept[k].text.value)
  }

  /** What a successful pass has left: the kept entries numbered 1, 2, ..., the file of
      every kept entry but the last written with the text from its reference to the next kept
      entry's reference, and the last one pending in `lastfile`. */
  predicate Paired(pkg: Package, outpath: string, html2text: string -> string, isWordChar: char -> bool,
                   p: Pairing, kept: seq<NavPoint>)
  {
    && p.error.None?
    && p.num == |kept|
    && (forall k :: 0 <= k < |kept| ==> kept[k].text.Some?)
    && |p.writes| == (if |kept| == 0 then 0 else |kept| - 1)
    && (forall k :: 0 <= k < |p.writes| ==>
          && ChapterFile(p.writes[k], outpath, kept, k)
          && Gao(pkg, kept[k].content, kept[k + 1].content, html2text, isWordChar) == Ok(p.writes[k].content))
    && (|kept| == 0 ==> p.lastfile == "")
    && (|kept| > 0 ==>
          && p.lastfile == ChapterPath(outpath, |kept|, kept[|kept| - 1].text.value)
          && p.last == kept[|kept| - 1].content)
  }

  /** One successful step over an entry that is not skipped. */
  lemma PairStepKept(pkg: Package, outpath: string, html2text: string -> string, isWordChar: char -> bool,
                     p: Pairing, t: NavPoint)
    requires p.error.None? && t.text != Some(ContentsTitle)
    requires PairStep(pkg, outpath, html2text, isWordChar, p, t).error.None?
    ensures var q := PairStep(pkg, outpath, html2text, isWordChar, p, t);
      && t.text.Some? && q.num == p.num + 1
      && q.lastfile == ChapterPath(outpath, p.num + 1, t.text.value) && q.last == t.content
      && (p.lastfile == "" ==> q.writes == p.writes)
      && (p.lastfile != "" ==>
            && Gao(pkg, p.last, t.content, html2text, isWordChar).Ok?
            && q.writes == p.writes + [FileWrite(p.lastfile, Gao(pkg, p.last, t.content, html2text, isWordChar).value)])
  {
  }

  lemma {:induction false} PairedStep(pkg: Package, outpath: string, html2text: string -> string,
                                      isWordChar: char -> bool, p: Pairing, kept: seq<NavPoint>, t: NavPoint)
    requires Paired(pkg, outpath, html2text, isWordChar, p, kept) && t.text != Some(ContentsTitle)
    requires PairStep(pkg, outpath, html2text, isWordChar, p, t).error.None?
    ensures Paired(pkg, outpath, html2text, isWordChar, PairStep(pkg, outpath, html2text, isWordChar, p, t), kept + [t])
  {
    var q := PairStep(pkg, outpath, html2text, isWordChar, p, t);
    PairStepKept(pkg, outpath, html2text, isWordChar, p, t);
    ChapterPathNonEmpty(outpath, |kept|, t.text.value);
    PairedExtend(pkg, outpath, html2text, isWordChar, p, q, kept, t);
  }

  /** The closed form one kept entry further, from the fields of the new state. */
  lemma PairedExtend(pkg: Package, outpath: string, html2text: string -> string, isWordChar: char -> bool,
                     p: Pairing, q: Pairing, kept: seq<NavPoint>, t: NavPoint)
    requires Paired(pkg, outpath, html2text, isWordChar, p, kept) && t.text.Some?
    requires q.error.None? && q.num == p.num + 1
    requires q.lastfile == ChapterPath(outpath, p.num + 1, t.text.value) && q.last == t.content
    requires p.lastfile == "" ==> q.writes == p.writes
    requires p.lastfile != "" ==>
      && Gao(pkg, p.last, t.content, html2text, isWordChar).Ok?
      && q.writes == p.writes + [FileWrite(p.lastfile, Gao(pkg, p.last, t.content, html2text, isWordChar).value)]
    ensures Paired(pkg, outpath, html2text, isWordChar, q, kept + [t])
  {
    var kept1 := kept + [t];
    assert forall k :: 0 <= k < |kept| ==> kept1[k] == kept[k];
    if |kept| > 0 {
      ChapterPathNonEmpty(outpath, |kept|, kept[|kept| - 1].text.value);
      var g := Gao(pkg, p.last, t.content, html2text, isWordChar).value;
      WritesExtend(pkg, outpath, html2text, isWordChar, p.writes, q.writes, kept, t, FileWrite(p.lastfile, g));
    }
  }

  /** The written files one kept entry further: the pending file gets the text up to `t`. */
  lemma WritesExtend(pkg: Package, outpath: string, html2text: string -> string, isWordChar: char -> bool,
                     writes: seq<FileWrite>, writes1: seq<FileWrite>, kept: seq<NavPoint>, t: NavPoint, w: FileWrite)
    requires |kept| > 0 && |writes| == |kept| - 1 && writes1 == writes + [w]
    requires forall k :: 0 <= k < |writes| ==>
      && ChapterFile(writes[k], outpath, kept, k)
      && Gao(pkg, kept[k].content, kept[k + 1].content, html2text, isWordChar) == Ok(writes[k].content)
    requires ChapterFile(w, outpath, kept, |kept| - 1)
    requires Gao(pkg, kept[|kept| - 1].content, t.content, html2text, isWordChar) == Ok(w.content)
    ensures forall k :: 0 <= k < |writes1| ==>
      && ChapterFile(writes1[k], outpath, kept + [t], k)
      && Gao(pkg, (kept + [t])[k].content, (kept + [t])[k + 1].content, html2text, isWordChar) == Ok(writes1[k].content)
  {
    var kept1 := kept + [t];
    forall k | 0 <= k < |writes1|
      ensures ChapterFile(writes1[k], outpath, kept1, k)
      ensures Gao(pkg, kept1[k].content, kept1[k + 1].content, html2text, isWordChar) == Ok(writes1[k].content)
    {
      if k < |writes| {
        assert writes1[k] == writes[k] && kept1[k] == kept[k] && kept1[k + 1] == kept[k + 1];
      } else {
        assert writes1[k] == w && kept1[k] == kept[k] && kept1[k + 1] == t;
      }
    }
  }

  /** A pass that ends without an exception has paired the kept entries. */
  lemma {:induction false} PairLoopWrites(pkg: Package, outpath: string, html2text: string -> string,
                                          isWordChar: char -> bool, toc: seq<NavPoint>)
    requires PairLoop(pkg, outpath, html2text, isWordChar, toc).error.None?
    ensures Paired(pkg, outpath, html2text, isWordChar, PairLoop(pkg, outpath, html2text, isWordChar, toc), Kept(toc))
    decreases |toc|
  {
    if |toc| > 0 {
      var prefix := toc[..|toc| - 1];
      var t := toc[|toc| - 1];
      var p0 := PairLoop(pkg, outpath, html2text, isWordChar, prefix);
      assert p0.error.None?;
      PairLoopWrites(pkg, outpath, html2text, isWordChar, prefix);
      if t.text != Some(ContentsTitle) {
        PairedStep(pkg, outpath, html2text, isWordChar, p0, Kept(prefix), t);
      }
    }
  }

  lemma ChapterPathNonEmpty(outpath: string, num: nat, text: string)
    ensures ChapterPath(outpath, num, text) != ""
  {
  }

  /** An entry without a title that is not skipped stops the loop. */
  lemma {:induction false} PairLoopUntitled(pkg: Package, outpath: string, html2text: string -> string,
                                            isWordChar: char -> bool, toc: seq<NavPoint>, k: nat)
    requires k < |toc| && toc[k].text.None?
    ensures PairLoop(pkg, outpath, html2text, isWordChar, toc).error.Some?
  {
    if PairLoop(pkg, outpath, html2text, isWordChar, toc).error.None? {
      PairLoopWrites(pkg, outpath, html2text, isWordChar, toc);
      KeptContains(toc, k);
    }
  }

  lemma {:induction false} KeptContains(toc: seq<NavPoint>, k: nat)
    requires k < |toc| && toc[k].text != Some(ContentsTitle)
    ensures toc[k] in Kept(toc)
    decreases |toc|
  {
    if k < |toc| - 1 {
      assert toc[..|toc| - 1][k] == toc[k];
      KeptContains(toc[..|toc| - 1], k);
    }
  }

  /** Once the loop has failed, later entries change nothing. */
  lemma {:induction false} PairErrorSticks(pkg: Package, outpath: string, html2text: string -> string,
                                           isWordChar: char -> bool, toc: seq<NavPoint>, i: nat)
    requires i <= |toc| && PairLoop(pkg, outpath, html2text, isWordChar, toc[..i]).error.Some?
    ensures PairLoop(pkg, outpath, html2text, isWordChar, toc) == PairLoop(pkg, outpath, html2text, isWordChar, toc[..i])
    decreases |toc| - i
  {
    if i < |toc| {
      assert toc[..i + 1][..i] == toc[..i];
      PairErrorSticks(pkg, outpath, html2text, isWordChar, toc, i + 1);
    } else {
      assert toc[..i] == toc;
    }
  }

  /** After the loop: the last entry's file is opened (`open("")` raises FileNotFoundError
      when no entry was kept) and stays empty, because the write of the final `gao` is
      commented out; that `gao` still runs and can raise (IndexError on an empty spine). */
  function Finish(pkg: Package, html2text: string -> string, isWordChar: char -> bool, p: Pairing): (o: Outcome)
    ensures p.error.Some? ==> o == Outcome(p.writes, p.error)
    ensures p.error.None? && p.lastfile != "" ==> o.writes == p.writes + [FileWrite(p.lastfile, "")]
  {
    if p.error.Some? then Outcome(p.writes, p.error)
    else if p.lastfile == "" then Outcome(p.writes, Some(FileNotFoundError))
    else
      var writes := p.writes + [FileWrite(p.lastfile, "")];
      if |pkg.ranks| == 0 then Outcome(writes, Some(IndexError))
      else
        var lastId := pkg.ranks[|pkg.ranks| - 1];
        if lastId !in pkg.id2html then Outcome(writes, Some(KeyError(lastId)))
        else match Gao(pkg, p.last, Some(pkg.id2html[lastId]), html2text, isWordChar)
          case Err(e) => Outcome(writes, Some(e))
          case Ok(_) => Outcome(writes, None)
  }

  // ---------------------------------------------------------------------------
  // The whole conversion

  /** The event stream of an archive member; `parseXml` stands for expat. */
  function ReadEvents(archive: map<string, string>, path: string,
                      parseXml: string -> Result<seq<Event>>): Result<seq<Event>>
  {
    if path !in archive then Err(KeyError(path)) else parseXml(archive[path])
  }

  /** Everything up to the toc: the rootfile, the parsed package document and the toc list
      (the NCX parser's, or the navigation-document parser's when that is empty). */
  datatype Prepared = Prepared(rootfile: string, book: BookState, toc: seq<NavPoint>)

  function Prepare(archive: map<string, string>, parseXml: string -> Result<seq<Event>>,
                   unquote: string -> string): Result<Prepared>
  {
    match ReadPackage(archive, parseXml)
    case Err(e) => Err(e)
    case Ok(front) =>
      match ReadToc(archive, OpsDir(front.0) + front.1.ncx, parseXml, unquote)
      case Err(e) => Err(e)
      case Ok(toc) => Ok(Prepared(front.0, front.1, toc))
  }

  /** The container names the rootfile, whose package document is then parsed. */
  function ReadPackage(archive: map<string, string>, parseXml: string -> Result<seq<Event>>): Result<(string, BookState)>
  {
    match ReadRootfile(archive, parseXml)
    case Err(e) => Err(e)
    case Ok(rootfile) =>
      match ReadEvents(archive, rootfile, parseXml)
      case Err(e) => Err(e)
      case Ok(bev) =>
        match RunBook(bev)
        case Err(e) => Err(e)
        case Ok(book) => Ok((rootfile, book))
  }

  /** The rootfile path `META-INF/container.xml` names. */
  function ReadRootfile(archive: map<string, string>, parseXml: string -> Result<seq<Event>>): Result<string>
  {
    match ReadEvents(archive, ContainerPath, parseXml)
    case Err(e) => Err(e)
    case Ok(cev) => RunContainer(cev)
  }

  /** The toc document read by the NCX parser and, when that finds no entry, by the
      navigation-document parser. */
  function ReadToc(archive: map<string, string>, tocPath: string, parseXml: string -> Result<seq<Event>>,
                   unquote: string -> string): Result<seq<NavPoint>>
  {
    match ReadEvents(archive, tocPath, parseXml)
    case Err(e) => Err(e)
    case Ok(tev) =>
      match NcxTocOf(unquote, tev)
      case Err(e) => Err(e)
      case Ok(toc) =>
        if |toc| > 0 then Ok(toc) else NavTocOf(unquote, tev)
  }

  /** The summary file `title_author.txt`, created and left empty. */
  function SummaryPath(book: BookState): string
  {
    book.title + "_" + book.author + ".txt"
  }

  function PackageOf(archive: map<string, string>, p: Prepared): Package
  {
    Package(p.book.ranks, p.book.html2id, p.book.id2html, OpsDir(p.rootfile), archive)
  }

  /** `convert(outpath)`. */
  function ConversionOf(archive: map<string, string>, outpath: string, parseXml: string -> Result<seq<Event>>,
                   unquote: string -> string, html2text: string -> string, isWordChar: char -> bool): Outcome
  {
    match Prepare(archive, parseXml, unquote)
    case Err(e) => Outcome([], Some(e))
    case Ok(prep) =>
      var pkg := PackageOf(archive, prep);
      var p := PairLoop(pkg, outpath, html2text, isWordChar, prep.toc);
      var o := Finish(pkg, html2text, isWordChar, p);
      Outcome([FileWrite(SummaryPath(prep.book), "")] + o.writes, o.error)
  }

  /** A successful conversion writes the empty summary file, then one file per kept toc
      entry, numbered from 1 in toc order; each but the last holds the text from its entry
      to the next, and the last one is created empty. */
  lemma ConvertWrites(archive: map<string, string>, outpath: string, parseXml: string -> Result<seq<Event>>,
                      unquote: string -> string, html2text: string -> string, isWordChar: char -> bool)
    requires ConversionOf(archive, outpath, parseXml, unquote, html2text, isWordChar).error.None?
    ensures var o := ConversionOf(archive, outpath, parseXml, unquote, html2text, isWordChar);
      var prep := Prepare(archive, parseXml, unquote).value;
      var kept := Kept(prep.toc);
      var chapters := o.writes[1..];
      && |kept| > 0 && |chapters| == |kept|
      && o.writes[0] == FileWrite(SummaryPath(prep.book), "")
      && (forall k :: 0 <= k < |kept| ==> ChapterFile(chapters[k], outpath, kept, k))
      && (forall k :: 0 <= k < |kept| - 1 ==>
            Gao(PackageOf(archive, prep), kept[k].content, kept[k + 1].content, html2text, isWordChar)
              == Ok(chapters[k].content))
      && chapters[|kept| - 1].content == ""
  {
    var prep := Prepare(archive, parseXml, unquote).value;
    var pkg := PackageOf(archive, prep);
    var o := Finish(pkg, html2text, isWordChar, PairLoop(pkg, outpath, html2text, isWordChar, prep.toc));
    FinishWrites(pkg, outpath, html2text, isWordChar, prep.toc);
    var all := ConversionOf(archive, outpath, parseXml, unquote, html2text, isWordChar);
    assert all.writes == [FileWrite(SummaryPath(prep.book), "")] + o.writes;
    assert all.writes[1..] == o.writes;
  }

  /** The loop and its finish, without an exception: one file per kept entry. */
  lemma FinishWrites(pkg: Package, outpath: string, html2text: string -> string, isWordChar: char -> bool,
                     toc: seq<NavPoint>)
    requires Finish(pkg, html2text, isWordChar, PairLoop(pkg, outpath, html2text, isWordChar, toc)).error.None?
    ensures var o := Finish(pkg, html2text, isWordChar, PairLoop(pkg, outpath, html2text, isWordChar, toc));
      var kept := Kept(toc);
      && |kept| > 0 && |o.writes| == |kept|
      && (forall k :: 0 <= k < |kept| ==> ChapterFile(o.writes[k], outpath, kept, k))
      && (forall k :: 0 <= k < |kept| - 1 ==>
            Gao(pkg, kept[k].content, kept[k + 1].content, html2text, isWordChar) == Ok(o.writes[k].content))
      && o.writes[|kept| - 1].content == ""
  {
    var p := PairLoop(pkg, outpath, html2text, isWordChar, toc);
    FinishAppends(pkg, html2text, isWordChar, p);
    PairLoopWrites(pkg, outpath, html2text, isWordChar, toc);
    PairedFinal(pkg, outpath, html2text, isWordChar, p, Kept(toc));
  }

  /** A finish without an exception adds the empty last file. */
  lemma FinishAppends(pkg: Package, html2text: string -> string, isWordChar: char -> bool, p: Pairing)
    requires Finish(pkg, html2text, isWordChar, p).error.None?
    ensures p.error.None? && p.lastfile != ""
    ensures Finish(pkg, html2text, isWordChar, p).writes == p.writes + [FileWrite(p.lastfile, "")]
  {
  }

  lemma PairedFinal(pkg: Package, outpath: string, html2text: string -> string, isWordChar: char -> bool,
                    p: Pairing, kept: seq<NavPoint>)
    requires Paired(pkg, outpath, html2text, isWordChar, p, kept) && p.lastfile != ""
    ensures var writes := p.writes + [FileWrite(p.lastfile, "")];
      && |kept| > 0 && |writes| == |kept|
      && (forall k :: 0 <= k < |kept| ==> ChapterFile(writes[k], outpath, kept, k))
      && (forall k :: 0 <= k < |kept| - 1 ==>
            Gao(pkg, kept[k].content, kept[k + 1].content, html2text, isWordChar) == Ok(writes[k].content))
      && writes[|kept| - 1].content == ""
  {
    var writes := p.writes + [FileWrite(p.lastfile, "")];
    assert forall k :: 0 <= k < |p.writes| ==> writes[k] == p.writes[k];
  }

  // ---------------------------------------------------------------------------
  // The converter object

  class Epub2Txt {
    /** The opened archive, member path to decoded text. */
    const file: map<string, string>
    /** expat, `urllib.parse.unquote`, `html2text.html2text`, and the `\w` test. */
    const parseXml: string -> Result<seq<Event>>
    const unquote: string -> string
    const html2text: string -> string
    const isWordChar: char -> bool
    var title: string
    var author: string
    var ncx: string
    var html2id: map<string, string>
    var id2html: map<string, string>
    var ranks: seq<string>
    var ops: string

    constructor(file: map<string, string>, parseXml: string -> Result<seq<Event>>, unquote: string -> string,
                html2text: string -> string, isWordChar: char -> bool)
      ensures this.file == file && this.parseXml == parseXml && this.unquote == unquote
      ensures this.html2text == html2text && this.isWordChar == isWordChar
      ensures ranks == [] && html2id == map[] && id2html == map[] && ops == ""
    {
      this.file := file;
      this.parseXml := parseXml;
      this.unquote := unquote;
      this.html2text := html2text;
      this.isWordChar := isWordChar;
      title, author, ncx := "", "", "";
      html2id, id2html := map[], map[];
      ranks := [];
      ops := "";
    }

    function Pkg(): Package
      reads this
    {
      Package(ranks, html2id, id2html, ops, file)
    }

    /** The spine position of the file a reference points into (`ranks.index(html2id[..])`). */
    method SpinePosition(ref: string) returns (r: Result<nat>)
      ensures r == SpineIndex(Pkg(), ref)
    {
      var parts := Split(ref, '#');
      var fileName := parts[0];
      if fileName !in html2id {
        return Err(KeyError(fileName));
      }
      var found := IndexOf(ranks, html2id[fileName]);
      if found.None? {
        return Err(ValueError);
      }
      r := Ok(found.value);
    }

    /** The text one collected line adds to `strr`. */
    method KeepLine(line: string) returns (r: Result<string>)
      ensures r == KeptLine(line, html2text, isWordChar)
    {
      var strtmp := html2text(Patterns.RemoveRuby(line));
      if Cleaned(strtmp) == "" {
        return Ok("");
      }
      var str2 := ReplaceAll(Strip(strtmp), "\n", "");
      if |str2| == 0 {
        return Err(IndexError);
      }
      ReplaceCharRemoves(Strip(strtmp), '\n', "");
      var out := str2;
      var c := str2[|str2| - 1];
      if !isWordChar(c) && !Patterns.IsCjk(c) {
        out := out + "\n";
      }
      r := Ok(out);
    }

    /** The inner loop of `gao` over the lines of one spine file. */
    method ScanFile(lines: seq<string>, flag0: bool, strr0: string, startflag: string, endflag: string)
      returns (r: Result<Scan>)
      ensures r == ScanLines(lines, 0, false, Scan(flag0, strr0), startflag, endflag, html2text, isWordChar)
    {
      var flag, strr := flag0, strr0;
      var flagbody := false;
      var j := 0;
      while j < |lines|
        invariant 0 <= j <= |lines|
        invariant ScanLines(lines, 0, false, Scan(flag0, strr0), startflag, endflag, html2text, isWordChar)
               == ScanLines(lines, j, flagbody, Scan(flag, strr), startflag, endflag, html2text, isWordChar)
        decreases |lines| - j
      {
        var line := lines[j];
        if Contains(line, "body") {
          flagbody := true;
        }
        if !flagbody {
          j := j + 1;
          continue;
        }
        if endflag != "" && Contains(line, endflag) {
          break;
        }
        if !flag && Contains(line, startflag) {
          flag := true;
        }
        if flag {
          var out := KeepLine(line);
          if out.Err? {
            return Err(out.error);
          }
          strr := strr + out.value;
        }
        j := j + 1;
      }
      r := Ok(Scan(flag, strr));
    }

    /** The outer loop of `gao` over the spine files `startnum` to `endnum - 1`. */
    method ScanRange(startnum: nat, endnum: nat, flag0: bool, startflag: string, endflag: string)
      returns (r: Result<Scan>)
      requires endnum <= |ranks|
      ensures r == ScanFiles(Pkg(), startnum, endnum, Scan(flag0, ""), startflag, endflag, html2text, isWordChar)
    {
      var flag, strr := flag0, "";
      var i := startnum;
      while i < endnum
        invariant ScanFiles(Pkg(), startnum, endnum, Scan(flag0, ""), startflag, endflag, html2text, isWordChar)
               == ScanFiles(Pkg(), i, endnum, Scan(flag, strr), startflag, endflag, html2text, isWordChar)
        decreases endnum - i
      {
        var id := ranks[i];
        if id !in id2html {
          return Err(KeyError(id));
        }
        var path := ops + id2html[id];
        if path !in file {
          return Err(KeyError(path));
        }
        var scanned := ScanFile(Split(file[path], '\n'), flag, strr, startflag, endflag);
        if scanned.Err? {
          return Err(scanned.error);
        }
        flag, strr := scanned.value.collecting, scanned.value.text;
        i := i + 1;
      }
      r := Ok(Scan(flag, strr));
    }

    /** `gao(start, end)`: the spine range and the anchors, then the scan. */
    method Gao(start: Option<string>, end: Option<string>) returns (r: Result<string>)
      ensures r == Extraction.Gao(Pkg(), start, end, html2text, isWordChar)
    {
      if start.None? {
        return Err(AttributeError);
      }
      var startPos := SpinePosition(start.value);
      if startPos.Err? {
        return Err(startPos.error);
      }
      if end.None? {
        return Err(AttributeError);
      }
      var endPos := SpinePosition(end.value);
      if endPos.Err? {
        return Err(endPos.error);
      }
      var startnum, endnum := startPos.value, endPos.value;
      var startParts := Split(start.value, '#');
      var startflag := if |startParts| > 1 then startParts[1] else "";
      var endParts := Split(end.value, '#');
      var endflag := if |endParts| > 1 then endParts[1] else "";
      var flag := startflag == "";
      if endflag != "" {
        endnum := endnum + 1;
      }
      assert startflag == Anchor(start.value) && endflag == Anchor(end.value);
      assert GaoRange(Pkg(), start.value, end.value) == Ok((startnum, endnum));
      var scanned := ScanRange(startnum, endnum, flag, startflag, endflag);
      if scanned.Err? {
        return Err(scanned.error);
      }
      r := Ok(scanned.value.text);
    }

    /** The first half of `convert`: the container, the package document and the toc,
        leaving the package fields of the object set. */
    method Load() returns (r: Result<Prepared>)
      modifies this
      ensures r == Prepare(file, parseXml, unquote)
      ensures r.Ok? ==> Pkg() == PackageOf(file, r.value) && title == r.value.book.title && author == r.value.book.author
    {
      var front := LoadPackage();
      if front.Err? {
        return Err(front.error);
      }
      var toc := LoadToc(ops + ncx);
      if toc.Err? {
        return Err(toc.error);
      }
      r := Ok(Prepared(front.value.0, front.value.1, toc.value));
    }

    /** The container and package documents: the spine, the manifest maps, the metadata and
        the toc document's name go into the fields. */
    method LoadPackage() returns (r: Result<(string, BookState)>)
      modifies this
      ensures r == ReadPackage(file, parseXml)
      ensures r.Ok? ==>
        && title == r.value.1.title && author == r.value.1.author && ncx == r.value.1.ncx
        && Pkg() == Package(r.value.1.ranks, r.value.1.html2id, r.value.1.id2html, OpsDir(r.value.0), file)
    {
      var rootfile := LoadRootfile();
      if rootfile.Err? {
        return Err(rootfile.error);
      }
      var bev := ReadEvents(file, rootfile.value, parseXml);
      if bev.Err? {
        return Err(bev.error);
      }
      var bookParser := new BookParser(bev.value);
      var book := bookParser.ParseBook();
      if book.Err? {
        return Err(book.error);
      }
      title, author, ncx := book.value.title, book.value.author, book.value.ncx;
      html2id, id2html, ranks := book.value.html2id, book.value.id2html, book.value.ranks;
      ops := OpsDir(rootfile.value);
      r := Ok((rootfile.value, book.value));
    }

    method LoadRootfile() returns (r: Result<string>)
      ensures r == ReadRootfile(file, parseXml)
    {
      var cev := ReadEvents(file, ContainerPath, parseXml);
      if cev.Err? {
        return Err(cev.error);
      }
      var containerParser := new ContainerParser(cev.value);
      r := containerParser.ParseContainer();
    }

    /** The NCX parser, then the navigation-document parser when it found no entry. */
    method LoadToc(tocPath: string) returns (r: Result<seq<NavPoint>>)
      ensures r == ReadToc(file, tocPath, parseXml, unquote)
    {
      var tev := ReadEvents(file, tocPath, parseXml);
      if tev.Err? {
        return Err(tev.error);
      }
      var tocParser := new TocParser(tev.value, unquote);
      var toc := tocParser.ParseToc();
      if toc.Err? {
        return Err(toc.error);
      }
      if |toc.value| > 0 {
        return Ok(toc.value);
      }
      var navParser := new TocParserForEpub3(tev.value, unquote);
      r := navParser.ParseToc();
    }

    /** The `for t in toc` loop of `convert`. */
    method PairChapters(outpath: string, toc: seq<NavPoint>) returns (p: Pairing)
      ensures p == PairLoop(Pkg(), outpath, html2text, isWordChar, toc)
    {
      var last: Option<string> := Some("");
      var lastfile := "";
      var num := 0;
      var writes: seq<FileWrite> := [];
      var k := 0;
      while k < |toc|
        invariant k <= |toc|
        invariant PairLoop(Pkg(), outpath, html2text, isWordChar, toc[..k]) == Pairing(last, lastfile, num, writes, None)
        decreases |toc| - k
      {
        var t := toc[k];
        assert toc[..k + 1][..k] == toc[..k];
        if t.text == Some(ContentsTitle) {
          k := k + 1;
          continue;
        }
        if lastfile != "" {
          var strr := Gao(last, t.content);
          if strr.Err? {
            p := Pairing(last, lastfile, num, writes + [FileWrite(lastfile, "")], Some(strr.error));
            PairErrorSticks(Pkg(), outpath, html2text, isWordChar, toc, k + 1);
            return;
          }
          writes := writes + [FileWrite(lastfile, strr.value)];
        }
        num := num + 1;
        if t.text.None? {
          p := Pairing(last, lastfile, num, writes, Some(TypeError));
          PairErrorSticks(Pkg(), outpath, html2text, isWordChar, toc, k + 1);
          return;
        }
        lastfile := ChapterPath(outpath, num, t.text.value);
        last := t.content;
        k := k + 1;
      }
      assert toc[..k] == toc;
      p := Pairing(last, lastfile, num, writes, None);
    }

    /** What `convert` does after the loop. */
    method FinishChapters(p: Pairing) returns (o: Outcome)
      ensures o == Finish(Pkg(), html2text, isWordChar, p)
    {
      if p.error.Some? {
        return Outcome(p.writes, p.error);
      }
      if p.lastfile == "" {
        return Outcome(p.writes, Some(FileNotFoundError));
      }
      var writes := p.writes + [FileWrite(p.lastfile, "")];
      if |ranks| == 0 {
        return Outcome(writes, Some(IndexError));
      }
      var lastId := ranks[|ranks| - 1];
      if lastId !in id2html {
        return Outcome(writes, Some(KeyError(lastId)));
      }
      var strr := Gao(p.last, Some(id2html[lastId]));
      o := Outcome(writes, if strr.Err? then Some(strr.error) else None);
    }

    /** `convert(outpath)`. */
    method Convert(outpath: string) returns (o: Outcome)
      modifies this
      ensures o == ConversionOf(file, outpath, parseXml, unquote, html2text, isWordChar)
    {
      var prep := Load();
      if prep.Err? {
        return Outcome([], Some(prep.error));
      }
      var summary := FileWrite(title + "_" + author + ".txt", "");
      var p := PairChapters(outpath, prep.value.toc);
      var rest := FinishChapters(p);
      o := Outcome([summary] + rest.writes, rest.error);
    }
  }
}
