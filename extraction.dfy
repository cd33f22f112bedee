/** `epub2txt.gao(start, end)` (epub2txts/epub2txts.py) as specification functions: the text
    of a chapter, scanned line by line from the spine file of `start` to that of `end`. The
    loop version is `Conversion.Epub2Txt.Gao`, proved equal to `Gao` below. */
module Extraction {
  import opened Wrappers
  import opened Text
  import opened Patterns

  /** What `gao` reads from the converter: the spine, the manifest maps, the directory of
      the package document, and the archive as a map from member path to decoded text. */
  datatype Package = Package(
    ranks: seq<string>,
    html2id: map<string, string>,
    id2html: map<string, string>,
    ops: string,
    archive: map<string, string>)

  /** `ref.split('#')[0]`: the file part of a TOC reference. */
  function FilePart(ref: string): (r: string)
    ensures r <= ref && '#' !in r
  {
    SplitHead(ref, '#');
    Split(ref, '#')[0]
  }

  /** The anchor `gao` looks for: `ref.split('#')[1]` when there is a `#`, else "". */
  function Anchor(ref: string): (r: string)
    ensures '#' !in r
    ensures '#' !in ref ==> r == ""
  {
    SplitHead(ref, '#');
    var parts := Split(ref, '#');
    if |parts| > 1 then parts[1] else ""
  }

  /** For `file#anchor` with one `#`, the two parts come back. */
  lemma AnchorOfRef(file: string, anchor: string)
    requires '#' !in file && '#' !in anchor
    ensures FilePart(file + "#" + anchor) == file && Anchor(file + "#" + anchor) == anchor
  {
    SplitTwo(file, anchor, '#');
  }

  /** With a second `#`, the anchor stops there: only the text between the first two `#`s is
      used, not all of the text after the first. */
  lemma AnchorStopsAtSecondHash(file: string, a: string, b: string)
    requires '#' !in file && '#' !in a && '#' !in b
    ensures Anchor(file + "#" + a + "#" + b) == a
  {
    var s := file + "#" + a + "#" + b;
    SplitTwo(a, b, '#');
    assert s == file + ['#'] + (a + "#" + b);
    SplitHeadLater(file, a + "#" + b);
  }

  lemma {:induction false} SplitHeadLater(a: string, rest: string)
    requires '#' !in a
    ensures Split(a + "#" + rest, '#') == [a] + Split(rest, '#')
  {
    var s := a + "#" + rest;
    assert s[|a|] == '#' && s[..|a|] == a;
    FirstIndexAt(s, '#', |a|);
    assert s[|a| + 1..] == rest;
  }

  /** The spine position of the file a reference points into; KeyError when the file is
      not an XHTML manifest item, ValueError when its id is not in the spine. */
  function SpineIndex(pkg: Package, ref: string): (r: Result<nat>)
    ensures r.Ok? ==>
      && r.value < |pkg.ranks| && FilePart(ref) in pkg.html2id
      && pkg.ranks[r.value] == pkg.html2id[FilePart(ref)]
      && pkg.html2id[FilePart(ref)] !in pkg.ranks[..r.value]
    ensures r.Err? ==> FilePart(ref) !in pkg.html2id || pkg.html2id[FilePart(ref)] !in pkg.ranks
  {
    var file := FilePart(ref);
    if file !in pkg.html2id then Err(KeyError(file))
    else match IndexOf(pkg.ranks, pkg.html2id[file])
      case None => Err(ValueError)
      case Some(i) => Ok(i)
  }

  // ---------------------------------------------------------------------------
  // One line

  /** The text of a converted line with spaces, line breaks and empty-text links removed: a
      line whose text is only these contributes nothing. */
  function Cleaned(strtmp: string): string
  {
    var str1 := ReplaceAll(ReplaceAll(ReplaceAll(strtmp, "\r\n", ""), "\n", ""), " ", "");
    RemoveLinks(RemoveLinks(str1, ImageLink), PlainLink)
  }

  /** Every line break follows a character that is neither a newline, a word character nor
      CJK: the breaks the extractor adds after lines ending in punctuation. */
  predicate BreaksAfterPunctuation(s: string, isWordChar: char -> bool) {
    forall i :: 0 <= i < |s| && s[i] == '\n' ==>
      i > 0 && s[i - 1] != '\n' && !isWordChar(s[i - 1]) && !IsCjk(s[i - 1])
  }

  /** A stripped, break-free line with the break the extractor adds after punctuation. */
  function WithBreak(str2: string, isWordChar: char -> bool): (out: string)
    requires |str2| > 0 && '\n' !in str2
    ensures str2 <= out && out[0] != '\n'
    ensures BreaksAfterPunctuation(out, isWordChar)
    ensures out[|out| - 1] != '\n' ==> isWordChar(out[|out| - 1]) || IsCjk(out[|out| - 1])
  {
    var c := str2[|str2| - 1];
    if !isWordChar(c) && !IsCjk(c) then
      assert (str2 + "\n")[|str2| - 1] == c;
      str2 + "\n"
    else str2
  }

  /** What a collected line adds to the chapter: nothing when `Cleaned` is empty; otherwise
      the stripped converted text without line breaks, followed by one line break when its
      last character is neither a word character nor CJK. `str2[-1]` on an empty `str2`
      raises IndexError. */
  function KeptLine(line: string, html2text: string -> string, isWordChar: char -> bool): (r: Result<string>)
    ensures r.Ok? ==> BreaksAfterPunctuation(r.value, isWordChar)
    ensures r.Ok? && r.value != "" ==> r.value[0] != '\n'
    ensures r.Ok? && r.value != "" && r.value[|r.value| - 1] != '\n' ==>
      isWordChar(r.value[|r.value| - 1]) || IsCjk(r.value[|r.value| - 1])
    ensures r == Ok("") <==> Cleaned(html2text(RemoveRuby(line))) == ""
  {
    var strtmp := html2text(RemoveRuby(line));
    if Cleaned(strtmp) == "" then Ok("")
    else
      var str2 := ReplaceAll(Strip(strtmp), "\n", "");
      ReplaceCharRemoves(Strip(strtmp), '\n', "");
      if |str2| == 0 then Err(IndexError)
      else Ok(WithBreak(str2, isWordChar))
  }

  // ---------------------------------------------------------------------------
  // One file

  /** The scan state carried from line to line and from file to file: whether the start
      anchor has been reached (`flag`) and the text so far (`strr`). */
  datatype Scan = Scan(collecting: bool, text: string)

  /** The inner loop from line `i` on, `bodySeen` being `flagbody`. */
  function ScanLines(lines: seq<string>, i: nat, bodySeen: bool, scan: Scan, startflag: string,
                     endflag: string, html2text: string -> string, isWordChar: char -> bool): Result<Scan>
    requires i <= |lines|
    decreases |lines| - i
  {
    if i == |lines| then Ok(scan)
    else
      var line := lines[i];
      var body := bodySeen || Contains(line, "body");
      if !body then ScanLines(lines, i + 1, false, scan, startflag, endflag, html2text, isWordChar)
      else if endflag != "" && Contains(line, endflag) then Ok(scan)
      else if !(scan.collecting || Contains(line, startflag)) then
        ScanLines(lines, i + 1, true, scan, startflag, endflag, html2text, isWordChar)
      else match KeptLine(line, html2text, isWordChar)
        case Err(e) => Err(e)
        case Ok(out) => ScanLines(lines, i + 1, true, Scan(true, scan.text + out), startflag, endflag, html2text, isWordChar)
  }

  /** Lines before the first one containing `body` are skipped without effect. */
  lemma {:induction false} ScanSkipsBeforeBody(lines: seq<string>, i: nat, k: nat, scan: Scan, startflag: string,
                                                endflag: string, html2text: string -> string, isWordChar: char -> bool)
    requires i <= k <= |lines|
    requires forall j :: i <= j < k ==> !Contains(lines[j], "body")
    ensures ScanLines(lines, i, false, scan, startflag, endflag, html2text, isWordChar)
         == ScanLines(lines, k, false, scan, startflag, endflag, html2text, isWordChar)
    decreases k - i
  {
    if i < k {
      ScanSkipsBeforeBody(lines, i + 1, k, scan, startflag, endflag, html2text, isWordChar);
    }
  }

  /** A line containing the end anchor (once the body has begun) ends the file: the lines
      from it on have no effect, the line itself included. */
  lemma {:induction false} ScanStopsAtEndAnchor(lines: seq<string>, i: nat, k: nat, bodySeen: bool, scan: Scan,
                                                 startflag: string, endflag: string,
                                                 html2text: string -> string, isWordChar: char -> bool)
    requires i <= k < |lines| && endflag != "" && Contains(lines[k], endflag)
    requires bodySeen || exists j :: i <= j <= k && Contains(lines[j], "body")
    ensures ScanLines(lines, i, bodySeen, scan, startflag, endflag, html2text, isWordChar)
         == ScanLines(lines[..k], i, bodySeen, scan, startflag, endflag, html2text, isWordChar)
    decreases k - i
  {
    var pre := lines[..k];
    if i == k {
    } else {
      assert pre[i] == lines[i];
      var line := lines[i];
      var body := bodySeen || Contains(line, "body");
      if !body {
        ScanStopsAtEndAnchor(lines, i + 1, k, false, scan, startflag, endflag, html2text, isWordChar);
      } else if endflag != "" && Contains(line, endflag) {
      } else if !(scan.collecting || Contains(line, startflag)) {
        ScanStopsAtEndAnchor(lines, i + 1, k, true, scan, startflag, endflag, html2text, isWordChar);
      } else if KeptLine(line, html2text, isWordChar).Ok? {
        var out := KeptLine(line, html2text, isWordChar).value;
        ScanStopsAtEndAnchor(lines, i + 1, k, true, Scan(true, scan.text + out), startflag, endflag, html2text, isWordChar);
      }
    }
  }

  /** Before the start anchor nothing is collected: with no line containing it, the scan
      state comes back unchanged. */
  lemma {:induction false} ScanNothingBeforeStart(lines: seq<string>, i: nat, bodySeen: bool, scan: Scan,
                                                   startflag: string, endflag: string,
                                                   html2text: string -> string, isWordChar: char -> bool)
    requires i <= |lines| && !scan.collecting
    requires forall j :: i <= j < |lines| ==> !Contains(lines[j], startflag)
    ensures ScanLines(lines, i, bodySeen, scan, startflag, endflag, html2text, isWordChar) == Ok(scan)
    decreases |lines| - i
  {
    if i < |lines| {
      var body := bodySeen || Contains(lines[i], "body");
      ScanNothingBeforeStart(lines, i + 1, body, scan, startflag, endflag, html2text, isWordChar);
    }
  }

  /** The text only grows, collecting once begun stays on, and the line-break rule holds
      for everything added. */
  lemma {:induction false} ScanGrows(lines: seq<string>, i: nat, bodySeen: bool, scan: Scan,
                                      startflag: string, endflag: string,
                                      html2text: string -> string, isWordChar: char -> bool)
    requires i <= |lines|
    requires ScanLines(lines, i, bodySeen, scan, startflag, endflag, html2text, isWordChar).Ok?
    ensures var r := ScanLines(lines, i, bodySeen, scan, startflag, endflag, html2text, isWordChar).value;
      && scan.text <= r.text
      && (scan.collecting ==> r.collecting)
      && (BreaksAfterPunctuation(scan.text, isWordChar) ==> BreaksAfterPunctuation(r.text, isWordChar))
    decreases |lines| - i
  {
    if i < |lines| {
      var line := lines[i];
      var body := bodySeen || Contains(line, "body");
      if !body {
        ScanGrows(lines, i + 1, false, scan, startflag, endflag, html2text, isWordChar);
      } else if endflag != "" && Contains(line, endflag) {
      } else if !(scan.collecting || Contains(line, startflag)) {
        ScanGrows(lines, i + 1, true, scan, startflag, endflag, html2text, isWordChar);
      } else {
        var out := KeptLine(line, html2text, isWordChar).value;
        var next := Scan(true, scan.text + out);
        if BreaksAfterPunctuation(scan.text, isWordChar) {
          BreaksConcat(scan.text, out, isWordChar);
        }
        ScanGrows(lines, i + 1, true, next, startflag, endflag, html2text, isWordChar);
      }
    }
  }

  lemma BreaksConcat(a: string, b: string, isWordChar: char -> bool)
    requires BreaksAfterPunctuation(a, isWordChar) && BreaksAfterPunctuation(b, isWordChar)
    requires b == "" || b[0] != '\n'
    ensures BreaksAfterPunctuation(a + b, isWordChar)
  {
    var s := a + b;
    forall i | 0 <= i < |s| && s[i] == '\n'
      ensures i > 0 && s[i - 1] != '\n' && !isWordChar(s[i - 1]) && !IsCjk(s[i - 1])
    {
      if i >= |a| {
        assert s[i] == b[i - |a|];
        assert i - |a| > 0;
        assert s[i - 1] == b[i - 1 - |a|];
      } else {
        assert s[i] == a[i] && s[i - 1] == a[i - 1];
      }
    }
  }

  // ---------------------------------------------------------------------------
  // The file range

  /** The outer loop from spine position `i` up to, not including, `hi`. A spine id that is
      not an XHTML item, or a path missing from the archive, raises KeyError. */
  function ScanFiles(pkg: Package, i: nat, hi: nat, scan: Scan, startflag: string, endflag: string,
                     html2text: string -> string, isWordChar: char -> bool): Result<Scan>
    requires hi <= |pkg.ranks|
    decreases hi - i
  {
    if i >= hi then Ok(scan)
    else
      var id := pkg.ranks[i];
      if id !in pkg.id2html then Err(KeyError(id))
      else
        var path := pkg.ops + pkg.id2html[id];
        if path !in pkg.archive then Err(KeyError(path))
        else match ScanLines(Split(pkg.archive[path], '\n'), 0, false, scan, startflag, endflag, html2text, isWordChar)
          case Err(e) => Err(e)
          case Ok(next) => ScanFiles(pkg, i + 1, hi, next, startflag, endflag, html2text, isWordChar)
  }

  lemma {:induction false} ScanFilesGrows(pkg: Package, i: nat, hi: nat, scan: Scan, startflag: string, endflag: string,
                                           html2text: string -> string, isWordChar: char -> bool)
    requires hi <= |pkg.ranks|
    requires ScanFiles(pkg, i, hi, scan, startflag, endflag, html2text, isWordChar).Ok?
    ensures var r := ScanFiles(pkg, i, hi, scan, startflag, endflag, html2text, isWordChar).value;
      && scan.text <= r.text
      && (scan.collecting ==> r.collecting)
      && (BreaksAfterPunctuation(scan.text, isWordChar) ==> BreaksAfterPunctuation(r.text, isWordChar))
    decreases hi - i
  {
    if i < hi {
      var path := pkg.ops + pkg.id2html[pkg.ranks[i]];
      var lines := Split(pkg.archive[path], '\n');
      ScanGrows(lines, 0, false, scan, startflag, endflag, html2text, isWordChar);
      var next := ScanLines(lines, 0, false, scan, startflag, endflag, html2text, isWordChar).value;
      ScanFilesGrows(pkg, i + 1, hi, next, startflag, endflag, html2text, isWordChar);
    }
  }

  /** The spine range `gao` scans: from the file of `start` to the file of `end`, the end
      file itself included exactly when `end` has an anchor. */
  function GaoRange(pkg: Package, start: string, end: string): (r: Result<(nat, nat)>)
    ensures r.Ok? ==> r.value.1 <= |pkg.ranks|
    ensures r.Ok? ==>
      && SpineIndex(pkg, start) == Ok(r.value.0) && SpineIndex(pkg, end).Ok?
      && r.value.1 == SpineIndex(pkg, end).value + if Anchor(end) != "" then 1 else 0
  {
    match SpineIndex(pkg, start)
    case Err(e) => Err(e)
    case Ok(lo) =>
      match SpineIndex(pkg, end)
      case Err(e) => Err(e)
      case Ok(endnum) => Ok((lo, if Anchor(end) != "" then endnum + 1 else endnum))
  }

  /** `gao(start, end)`: a None reference (a TOC entry without content) raises
      AttributeError at `.split`. */
  function Gao(pkg: Package, start: Option<string>, end: Option<string>,
               html2text: string -> string, isWordChar: char -> bool): Result<string>
  {
    if start.None? then Err(AttributeError)
    else if SpineIndex(pkg, start.value).Err? then Err(SpineIndex(pkg, start.value).error)
    else if end.None? then Err(AttributeError)
    else match GaoRange(pkg, start.value, end.value)
      case Err(e) => Err(e)
      case Ok(range) =>
        var init := Scan(Anchor(start.value) == "", "");
        match ScanFiles(pkg, range.0, range.1, init, Anchor(start.value), Anchor(end.value), html2text, isWordChar)
        case Err(e) => Err(e)
        case Ok(scan) => Ok(scan.text)
  }

  /** Every line break in the chapter text follows punctuation. */
  lemma GaoBreaksAfterPunctuation(pkg: Package, start: Option<string>, end: Option<string>,
                                  html2text: string -> string, isWordChar: char -> bool)
    requires Gao(pkg, start, end, html2text, isWordChar).Ok?
    ensures BreaksAfterPunctuation(Gao(pkg, start, end, html2text, isWordChar).value, isWordChar)
  {
    var range := GaoRange(pkg, start.value, end.value).value;
    var init := Scan(Anchor(start.value) == "", "");
    ScanFilesGrows(pkg, range.0, range.1, init, Anchor(start.value), Anchor(end.value), html2text, isWordChar);
  }

  /** Two references into the same file, the second without an anchor, give the empty
      chapter: the end file is then excluded and the range is empty. */
  lemma GaoSameFileNoAnchor(pkg: Package, start: string, end: string,
                            html2text: string -> string, isWordChar: char -> bool)
    requires FilePart(start) == FilePart(end) && Anchor(end) == ""
    requires SpineIndex(pkg, start).Ok?
    ensures Gao(pkg, Some(start), Some(end), html2text, isWordChar) == Ok("")
  {
  }

  /** References whose end file precedes the start file give the empty chapter. */
  lemma GaoBackwardsRange(pkg: Package, start: string, end: string,
                          html2text: string -> string, isWordChar: char -> bool)
    requires SpineIndex(pkg, start).Ok? && SpineIndex(pkg, end).Ok?
    requires SpineIndex(pkg, end).value < SpineIndex(pkg, start).value
    ensures Gao(pkg, Some(start), Some(end), html2text, isWordChar) == Ok("")
  {
  }
}
