/** `BookParser` (epub2txts/epub2txts.py): reads the package document (OPF) and collects the
    title, the author, the navigation document's href, the spine order and the two maps
    between manifest ids and hrefs of the XHTML content documents. */
module BookParsing {
  import opened Wrappers
  import opened XmlEvents

  /** Manifest ids under which the navigation document is looked for. */
  const NcxIds: set<string> := {"ncx", "toc", "ncxtoc", "toc.ncx", "nav"}

  const XhtmlType: string := "application/xhtml+xml"

  /** The parser's fields. `buffer` is None until the first assignment, because Python raises
      AttributeError when a `dc:` end tag is met before any `dc:` start tag has created it. */
  datatype BookState = BookState(
    title: string,
    author: string,
    inTitle: bool,
    inAuthor: bool,
    ncx: string,
    ranks: seq<string>,
    html2id: map<string, string>,
    id2html: map<string, string>,
    buffer: Option<string>)

  const BookInit := BookState("", "", false, false, "", [], map[], map[], None)

  /** The `item` handler: `id` is required; the navigation href is taken for the five fixed
      ids; XHTML items are registered in both maps. */
  function ItemStep(s: BookState, attrs: map<string, string>): Result<BookState>
  {
    if "id" !in attrs then Err(KeyError("id"))
    else
      var id := attrs["id"];
      if id in NcxIds && "href" !in attrs then Err(KeyError("href"))
      else
        var s1 := if id in NcxIds then s.(ncx := attrs["href"]) else s;
        if "media-type" !in attrs then Err(KeyError("media-type"))
        else if attrs["media-type"] != XhtmlType then Ok(s1)
        else if "href" !in attrs then Err(KeyError("href"))
        else
          var href := attrs["href"];
          Ok(s1.(id2html := s1.id2html[id := href], html2id := s1.html2id[href := id]))
  }

  /** `startElement`, `characters` and `endElement` as one function of the event. */
  function BookStep(s: BookState, e: Event): Result<BookState>
  {
    match e
    case Start(name, attrs) =>
      if name == "dc:title" then Ok(s.(buffer := Some(""), inTitle := true))
      else if name == "dc:creator" then Ok(s.(buffer := Some(""), inAuthor := true))
      else if name == "item" then ItemStep(s, attrs)
      else if name == "itemref" then
        if "idref" in attrs then Ok(s.(ranks := s.ranks + [attrs["idref"]])) else Err(KeyError("idref"))
      else Ok(s)
    case Chars(data) =>
      if s.inTitle || s.inAuthor then
        if s.buffer.None? then Err(AttributeError) else Ok(s.(buffer := Some(s.buffer.value + data)))
      else Ok(s)
    case End(name) =>
      if name == "dc:title" then
        if s.buffer.None? then Err(AttributeError)
        else Ok(s.(inTitle := false, title := s.buffer.value, buffer := Some("")))
      else if name == "dc:creator" then
        if s.buffer.None? then Err(AttributeError)
        else Ok(s.(inAuthor := false, author := s.buffer.value, buffer := Some("")))
      else Ok(s)
  }

  /** The parser's state after a prefix of the event stream. */
  function RunBook(events: seq<Event>): Result<BookState>
  {
    if |events| == 0 then Ok(BookInit)
    else match RunBook(events[..|events| - 1])
      case Err(err) => Err(err)
      case Ok(s) => BookStep(s, events[|events| - 1])
  }

  lemma {:induction false} BookErrorSticks(events: seq<Event>, i: nat)
    requires i <= |events| && RunBook(events[..i]).Err?
    ensures RunBook(events) == RunBook(events[..i])
    decreases |events| - i
  {
    if i < |events| {
      assert events[..i + 1][..i] == events[..i];
      BookErrorSticks(events, i + 1);
    } else {
      assert events[..i] == events;
    }
  }

  // ---------------------------------------------------------------------------
  // What the document says, read off the event history

  /** The spine reference an event contributes: the `idref` of an `itemref` start tag. */
  function SpineRef(e: Event): seq<string>
  {
    if IsStart(e, "itemref") && "idref" in e.attrs then [e.attrs["idref"]] else []
  }

  /** The (id, href) pair an event contributes: an `item` start tag of XHTML media type. */
  function XhtmlItem(e: Event): seq<(string, string)>
  {
    if IsStart(e, "item") && "id" in e.attrs && "href" in e.attrs && "media-type" in e.attrs
       && e.attrs["media-type"] == XhtmlType
    then [(e.attrs["id"], e.attrs["href"])] else []
  }

  /** An `item` start tag carrying one of the navigation ids and an href. */
  predicate IsNavItem(e: Event) {
    IsStart(e, "item") && "id" in e.attrs && e.attrs["id"] in NcxIds && "href" in e.attrs
  }

  /** The `idref` of every `itemref` start tag, in document order. */
  function SpineRefs(events: seq<Event>): seq<string>
  {
    if |events| == 0 then [] else SpineRefs(events[..|events| - 1]) + SpineRef(events[|events| - 1])
  }

  /** The (id, href) pair of every XHTML manifest item, in document order. */
  function XhtmlItems(events: seq<Event>): seq<(string, string)>
  {
    if |events| == 0 then [] else XhtmlItems(events[..|events| - 1]) + XhtmlItem(events[|events| - 1])
  }

  /** The href of the last manifest item whose id is one of `NcxIds`, or "". */
  function NavHref(events: seq<Event>): string
  {
    if |events| == 0 then ""
    else if IsNavItem(events[|events| - 1]) then events[|events| - 1].attrs["href"]
    else NavHref(events[..|events| - 1])
  }

  /** The map built by registering the pairs left to right: a later pair overwrites. */
  function ForwardMap(pairs: seq<(string, string)>): map<string, string>
  {
    if |pairs| == 0 then map[]
    else ForwardMap(pairs[..|pairs| - 1])[pairs[|pairs| - 1].0 := pairs[|pairs| - 1].1]
  }

  /** The map from second to first components, registered left to right. */
  function BackwardMap(pairs: seq<(string, string)>): map<string, string>
  {
    if |pairs| == 0 then map[]
    else BackwardMap(pairs[..|pairs| - 1])[pairs[|pairs| - 1].1 := pairs[|pairs| - 1].0]
  }

  /** What one successful step does to the collected package data. */
  lemma BookStepCollects(s: BookState, e: Event)
    requires BookStep(s, e).Ok?
    ensures var t := BookStep(s, e).value;
      && t.ranks == s.ranks + SpineRef(e)
      && (XhtmlItem(e) == [] ==> t.id2html == s.id2html && t.html2id == s.html2id)
      && (XhtmlItem(e) != [] ==>
            var p := XhtmlItem(e)[0];
            t.id2html == s.id2html[p.0 := p.1] && t.html2id == s.html2id[p.1 := p.0])
      && t.ncx == if IsNavItem(e) then e.attrs["href"] else s.ncx
  {
    if IsStart(e, "item") {
      ItemCollects(s, e.attrs);
    }
  }

  /** What a successful `item` handler does. */
  lemma ItemCollects(s: BookState, attrs: map<string, string>)
    requires ItemStep(s, attrs).Ok?
    ensures var t := ItemStep(s, attrs).value;
      && t.ranks == s.ranks
      && (XhtmlItem(Start("item", attrs)) == [] ==> t.id2html == s.id2html && t.html2id == s.html2id)
      && (XhtmlItem(Start("item", attrs)) != [] ==>
            t.id2html == s.id2html[attrs["id"] := attrs["href"]]
            && t.html2id == s.html2id[attrs["href"] := attrs["id"]])
      && t.ncx == if IsNavItem(Start("item", attrs)) then attrs["href"] else s.ncx
  {
  }

  /** After a successful parse, `ranks` lists the spine in document order, the maps hold
      exactly the XHTML items (later items overwriting earlier ones) and `ncx` is the href
      of the last item with one of the five navigation ids. */
  lemma {:induction false} BookResult(events: seq<Event>)
    requires RunBook(events).Ok?
    ensures var s := RunBook(events).value;
      && s.ranks == SpineRefs(events)
      && s.id2html == ForwardMap(XhtmlItems(events))
      && s.html2id == BackwardMap(XhtmlItems(events))
      && s.ncx == NavHref(events)
    decreases |events|
  {
    if |events| > 0 {
      var prefix := events[..|events| - 1];
      var e := events[|events| - 1];
      BookResult(prefix);
      BookStepCollects(RunBook(prefix).value, e);
      var items := XhtmlItems(events);
      if XhtmlItem(e) != [] {
        assert items[..|items| - 1] == XhtmlItems(prefix);
      } else {
        assert items == XhtmlItems(prefix);
      }
    }
  }

  // ---------------------------------------------------------------------------
  // Title and author

  /** The character data of the events strictly between positions `j` and `n`, concatenated. */
  function CharsBetween(events: seq<Event>, j: int, n: int): string
    requires n <= |events|
    decreases n
  {
    if n <= j + 1 || n <= 0 then ""
    else CharsBetween(events, j, n - 1) + (if events[n - 1].Chars? then events[n - 1].data else "")
  }

  /** The field an end tag of `tag` fills: `title` for `dc:title`, `author` for `dc:creator`. */
  function MetadataOf(s: BookState, tag: string): string {
    if tag == "dc:title" then s.title else s.author
  }

  /** The flag a start tag of `tag` sets. */
  predicate ReadingOf(s: BookState, tag: string) {
    if tag == "dc:title" then s.inTitle else s.inAuthor
  }

  /** A successful stream succeeds on every prefix, and each prefix is one step longer. */
  lemma RunBookSnoc(events: seq<Event>, n: nat)
    requires n < |events| && RunBook(events[..n + 1]).Ok?
    ensures RunBook(events[..n]).Ok?
    ensures RunBook(events[..n + 1]) == BookStep(RunBook(events[..n]).value, events[n])
  {
    assert events[..n + 1][..n] == events[..n];
  }

  lemma OkPrefix(events: seq<Event>, n: nat)
    requires n <= |events| && RunBook(events).Ok?
    ensures RunBook(events[..n]).Ok?
  {
    if RunBook(events[..n]).Err? {
      BookErrorSticks(events, n);
    }
  }

  /** From a start tag of `tag` on, with no metadata tag in between, the buffer holds the
      character data read since that start tag and the flag stays set. */
  lemma {:induction false} BufferCollects(events: seq<Event>, tag: string, j: nat, n: nat)
    requires tag == "dc:title" || tag == "dc:creator"
    requires j < n <= |events| && RunBook(events[..n]).Ok?
    requires IsStart(events[j], tag)
    requires forall m :: j < m < n ==> !IsMetadataTag(events[m])
    ensures RunBook(events[..n]).value.buffer == Some(CharsBetween(events, j, n))
    ensures ReadingOf(RunBook(events[..n]).value, tag)
    decreases n - j
  {
    RunBookSnoc(events, n - 1);
    if n > j + 1 {
      BufferCollects(events, tag, j, n - 1);
      var s := RunBook(events[..n - 1]).value;
      var e := events[n - 1];
      assert !IsMetadataTag(e);
      assert CharsBetween(events, j, n) == CharsBetween(events, j, n - 1) + (if e.Chars? then e.data else "");
      if !e.Chars? {
        assert CharsBetween(events, j, n - 1) + "" == CharsBetween(events, j, n - 1);
        assert RunBook(events[..n]) == BookStep(s, e);
        assert BookStep(s, e).value.buffer == s.buffer;
      }
    }
  }

  /** Events other than an end tag of `tag` leave the field it fills unchanged. */
  lemma {:induction false} MetadataKept(events: seq<Event>, tag: string, i: nat, n: nat)
    requires tag == "dc:title" || tag == "dc:creator"
    requires i <= n <= |events| && RunBook(events[..n]).Ok?
    requires forall m :: i <= m < n ==> !IsEnd(events[m], tag)
    ensures RunBook(events[..i]).Ok?
    ensures MetadataOf(RunBook(events[..n]).value, tag) == MetadataOf(RunBook(events[..i]).value, tag)
    decreases n - i
  {
    assert events[..n][..i] == events[..i];
    OkPrefix(events[..n], i);
    if n > i {
      RunBookSnoc(events, n - 1);
      MetadataKept(events, tag, i, n - 1);
    }
  }

  /** After a successful parse, `title` (for `dc:title`) or `author` (for `dc:creator`) is
      the character data of the last such element, when that element holds no `dc:title` or
      `dc:creator` tag: `j` is its start tag, `k` its end tag, and no end tag of the same
      name follows. */
  lemma BookMetadata(events: seq<Event>, tag: string, j: nat, k: nat)
    requires tag == "dc:title" || tag == "dc:creator"
    requires RunBook(events).Ok?
    requires j < k < |events| && IsStart(events[j], tag) && IsEnd(events[k], tag)
    requires forall m :: j < m < k ==> !IsMetadataTag(events[m])
    requires forall m :: k < m < |events| ==> !IsEnd(events[m], tag)
    ensures tag == "dc:title" ==> RunBook(events).value.title == CharsBetween(events, j, k)
    ensures tag == "dc:creator" ==> RunBook(events).value.author == CharsBetween(events, j, k)
  {
    assert events[..|events|] == events;
    OkPrefix(events, k + 1);
    RunBookSnoc(events, k);
    BufferCollects(events, tag, j, k);
    MetadataKept(events, tag, k + 1, |events|);
  }

  /** After a successful parse with no end tag of `dc:title` (`dc:creator`), `title`
      (`author`) keeps its initial value "". */
  lemma BookMetadataUnset(events: seq<Event>, tag: string)
    requires tag == "dc:title" || tag == "dc:creator"
    requires RunBook(events).Ok?
    requires forall m :: 0 <= m < |events| ==> !IsEnd(events[m], tag)
    ensures tag == "dc:title" ==> RunBook(events).value.title == ""
    ensures tag == "dc:creator" ==> RunBook(events).value.author == ""
  {
    assert events[..|events|] == events;
    assert events[..0] == [];
    MetadataKept(events, tag, 0, |events|);
  }

  /** A manifest entry or spine reference lacking an attribute the handler reads. */
  predicate MissingAttribute(e: Event) {
    || (IsStart(e, "item") && "id" !in e.attrs)
    || (IsStart(e, "item") && "id" in e.attrs && e.attrs["id"] in NcxIds && "href" !in e.attrs)
    || (IsStart(e, "item") && "id" in e.attrs && (e.attrs["id"] in NcxIds ==> "href" in e.attrs)
        && ("media-type" !in e.attrs || (e.attrs["media-type"] == XhtmlType && "href" !in e.attrs)))
    || (IsStart(e, "itemref") && "idref" !in e.attrs)
  }

  /** A start or end tag of `dc:title` or `dc:creator`: the events that touch `buffer`. */
  predicate IsMetadataTag(e: Event) {
    IsStart(e, "dc:title") || IsStart(e, "dc:creator") || IsEnd(e, "dc:title") || IsEnd(e, "dc:creator")
  }

  predicate NoMetadataTag(events: seq<Event>) {
    forall j :: 0 <= j < |events| ==> !IsMetadataTag(events[j])
  }

  /** An end tag of `dc:title` or `dc:creator`. */
  predicate IsMetadataEnd(e: Event) {
    IsEnd(e, "dc:title") || IsEnd(e, "dc:creator")
  }

  /** A buffer exists whenever a title or author is being read. */
  predicate BufferReady(s: BookState) {
    s.inTitle || s.inAuthor ==> s.buffer.Some?
  }

  /** One step fails exactly on a missing attribute or on a metadata end tag met before any
      buffer exists; it keeps `BufferReady`, and a buffer appears at the first metadata tag. */
  lemma BookStepFails(s: BookState, e: Event)
    requires BufferReady(s)
    ensures BookStep(s, e).Err? <==> MissingAttribute(e) || (IsMetadataEnd(e) && s.buffer.None?)
    ensures BookStep(s, e).Ok? ==>
      BufferReady(BookStep(s, e).value)
      && (BookStep(s, e).value.buffer.None? <==> s.buffer.None? && !IsMetadataTag(e))
  {
  }

  /** A fault: a missing attribute, or a metadata end tag before any metadata tag. */
  predicate BookFault(prefix: seq<Event>, e: Event) {
    MissingAttribute(e) || (IsMetadataEnd(e) && NoMetadataTag(prefix))
  }

  lemma NoMetadataTagSnoc(events: seq<Event>)
    requires |events| > 0
    ensures NoMetadataTag(events) <==>
      NoMetadataTag(events[..|events| - 1]) && !IsMetadataTag(events[|events| - 1])
  {
    var prefix := events[..|events| - 1];
    if !NoMetadataTag(prefix) {
      var j :| 0 <= j < |prefix| && IsMetadataTag(prefix[j]);
      assert events[j] == prefix[j];
    }
  }

  /** After a successful prefix with the buffer shaped as described, the last event fails
      exactly when it is a fault, and the description carries over. */
  lemma BookLastStep(events: seq<Event>)
    requires |events| > 0
    requires var s := RunBook(events[..|events| - 1]);
      s.Ok? && BufferReady(s.value) && (s.value.buffer.None? <==> NoMetadataTag(events[..|events| - 1]))
    ensures RunBook(events).Err? <==> BookFault(events[..|events| - 1], events[|events| - 1])
    ensures RunBook(events).Ok? ==>
      BufferReady(RunBook(events).value) && (RunBook(events).value.buffer.None? <==> NoMetadataTag(events))
  {
    var prefix := events[..|events| - 1];
    var s := RunBook(prefix).value;
    assert RunBook(events) == BookStep(s, events[|events| - 1]);
    BookStepFails(s, events[|events| - 1]);
    NoMetadataTagSnoc(events);
  }

  /** A fault in the prefix is a fault of the whole stream, and the error sticks. */
  lemma BookFaultInPrefix(events: seq<Event>)
    requires |events| > 0 && RunBook(events[..|events| - 1]).Err?
    requires var prefix := events[..|events| - 1];
      exists i :: 0 <= i < |prefix| && BookFault(prefix[..i], prefix[i])
    ensures RunBook(events).Err?
    ensures exists i :: 0 <= i < |events| && BookFault(events[..i], events[i])
  {
    var prefix := events[..|events| - 1];
    var i :| 0 <= i < |prefix| && BookFault(prefix[..i], prefix[i]);
    assert prefix[..i] == events[..i] && prefix[i] == events[i];
  }

  /** With no fault in a successful prefix, the stream fails exactly on a fault at its end. */
  lemma BookFaultAtEnd(events: seq<Event>)
    requires |events| > 0
    requires var s := RunBook(events[..|events| - 1]);
      s.Ok? && BufferReady(s.value) && (s.value.buffer.None? <==> NoMetadataTag(events[..|events| - 1]))
    requires var prefix := events[..|events| - 1];
      forall i :: 0 <= i < |prefix| ==> !BookFault(prefix[..i], prefix[i])
    ensures RunBook(events).Err? <==> exists i :: 0 <= i < |events| && BookFault(events[..i], events[i])
    ensures RunBook(events).Ok? ==>
      BufferReady(RunBook(events).value) && (RunBook(events).value.buffer.None? <==> NoMetadataTag(events))
  {
    var n := |events| - 1;
    var prefix := events[..n];
    BookLastStep(events);
    forall i | 0 <= i < n
      ensures !BookFault(events[..i], events[i])
    {
      assert prefix[..i] == events[..i] && prefix[i] == events[i];
    }
  }

  /** The parse fails exactly when some event lacks a required attribute, or when the first
      `dc:title`/`dc:creator` tag of the document is an end tag (no buffer exists yet). */
  lemma {:induction false} BookFailure(events: seq<Event>)
    ensures RunBook(events).Err? <==> exists i :: 0 <= i < |events| && BookFault(events[..i], events[i])
    ensures RunBook(events).Ok? ==>
      BufferReady(RunBook(events).value) && (RunBook(events).value.buffer.None? <==> NoMetadataTag(events))
    decreases |events|
  {
    if |events| > 0 {
      BookFailure(events[..|events| - 1]);
      if RunBook(events[..|events| - 1]).Err? {
        BookFaultInPrefix(events);
      } else {
        BookFaultAtEnd(events);
      }
    }
  }

  // ---------------------------------------------------------------------------
  // The two manifest maps

  predicate DistinctIds(pairs: seq<(string, string)>) {
    forall i, j :: 0 <= i < j < |pairs| ==> pairs[i].0 != pairs[j].0
  }

  predicate DistinctHrefs(pairs: seq<(string, string)>) {
    forall i, j :: 0 <= i < j < |pairs| ==> pairs[i].1 != pairs[j].1
  }

  /** Every registered id is a key, mapped to the href of the LAST pair with that id. */
  lemma {:induction false} ForwardMapLast(pairs: seq<(string, string)>, k: nat)
    requires k < |pairs| && forall j :: k < j < |pairs| ==> pairs[j].0 != pairs[k].0
    ensures pairs[k].0 in ForwardMap(pairs) && ForwardMap(pairs)[pairs[k].0] == pairs[k].1
    decreases |pairs|
  {
    if k < |pairs| - 1 {
      ForwardMapLast(pairs[..|pairs| - 1], k);
    }
  }

  lemma {:induction false} ForwardMapKeys(pairs: seq<(string, string)>)
    ensures forall id :: id in ForwardMap(pairs) <==> exists k :: 0 <= k < |pairs| && pairs[k].0 == id
    decreases |pairs|
  {
    if |pairs| > 0 {
      var prefix := pairs[..|pairs| - 1];
      ForwardMapKeys(prefix);
      forall id | exists k :: 0 <= k < |pairs| && pairs[k].0 == id
        ensures id in ForwardMap(pairs)
      {
        var k :| 0 <= k < |pairs| && pairs[k].0 == id;
        if k < |pairs| - 1 {
          assert prefix[k].0 == id;
        }
      }
    }
  }

  lemma {:induction false} BackwardMapKeys(pairs: seq<(string, string)>)
    ensures forall h :: h in BackwardMap(pairs) <==> exists k :: 0 <= k < |pairs| && pairs[k].1 == h
    decreases |pairs|
  {
    if |pairs| > 0 {
      var prefix := pairs[..|pairs| - 1];
      BackwardMapKeys(prefix);
      forall h | exists k :: 0 <= k < |pairs| && pairs[k].1 == h
        ensures h in BackwardMap(pairs)
      {
        var k :| 0 <= k < |pairs| && pairs[k].1 == h;
        if k < |pairs| - 1 {
          assert prefix[k].1 == h;
        }
      }
    }
  }

  lemma {:induction false} BackwardMapLast(pairs: seq<(string, string)>, k: nat)
    requires k < |pairs| && forall j :: k < j < |pairs| ==> pairs[j].1 != pairs[k].1
    ensures pairs[k].1 in BackwardMap(pairs) && BackwardMap(pairs)[pairs[k].1] == pairs[k].0
    decreases |pairs|
  {
    if k < |pairs| - 1 {
      BackwardMapLast(pairs[..|pairs| - 1], k);
    }
  }

  /** With no id and no href repeated among the XHTML items, `id2html` and `html2id` are
      mutually inverse. */
  lemma ManifestMapsInverse(pairs: seq<(string, string)>)
    requires DistinctIds(pairs) && DistinctHrefs(pairs)
    ensures forall id :: id in ForwardMap(pairs) ==>
      ForwardMap(pairs)[id] in BackwardMap(pairs) && BackwardMap(pairs)[ForwardMap(pairs)[id]] == id
    ensures forall h :: h in BackwardMap(pairs) ==>
      BackwardMap(pairs)[h] in ForwardMap(pairs) && ForwardMap(pairs)[BackwardMap(pairs)[h]] == h
  {
    ForwardMapKeys(pairs);
    BackwardMapKeys(pairs);
    forall id | id in ForwardMap(pairs)
      ensures ForwardMap(pairs)[id] in BackwardMap(pairs) && BackwardMap(pairs)[ForwardMap(pairs)[id]] == id
    {
      var k :| 0 <= k < |pairs| && pairs[k].0 == id;
      ForwardMapLast(pairs, k);
      BackwardMapLast(pairs, k);
    }
    forall h | h in BackwardMap(pairs)
      ensures BackwardMap(pairs)[h] in ForwardMap(pairs) && ForwardMap(pairs)[BackwardMap(pairs)[h]] == h
    {
      var k :| 0 <= k < |pairs| && pairs[k].1 == h;
      ForwardMapLast(pairs, k);
      BackwardMapLast(pairs, k);
    }
  }

  /** Without the distinctness the maps need not be inverse: two XHTML items sharing an href
      leave the first id pointing at an href that maps back to the second id. */
  lemma SharedHrefBreaksInverse()
    ensures var pairs := [("a", "x.xhtml"), ("b", "x.xhtml")];
      ForwardMap(pairs)["a"] == "x.xhtml" && BackwardMap(pairs)["x.xhtml"] == "b"
  {
    var pairs := [("a", "x.xhtml"), ("b", "x.xhtml")];
    assert pairs[..1] == [("a", "x.xhtml")];
    assert pairs[..1][..0] == [];
  }

  // ---------------------------------------------------------------------------
  // The parser object

  class BookParser {
    var title: string
    var author: string
    var inTitle: bool
    var inAuthor: bool
    var ncx: string
    var ranks: seq<string>
    var html2id: map<string, string>
    var id2html: map<string, string>
    var buffer: Option<string>
    /** The event stream of the package document. */
    const xml: seq<Event>

    function State(): BookState
      reads this
    {
      BookState(title, author, inTitle, inAuthor, ncx, ranks, html2id, id2html, buffer)
    }

    constructor(xml: seq<Event>)
      ensures this.xml == xml && State() == BookInit
    {
      this.xml := xml;
      title, author := "", "";
      inTitle, inAuthor := false, false;
      ncx := "";
      ranks := [];
      html2id, id2html := map[], map[];
      buffer := None;
    }

    method StartElement(name: string, attrs: map<string, string>) returns (err: Option<Error>)
      modifies this
      ensures match BookStep(old(State()), Start(name, attrs))
                case Ok(s) => err == None && State() == s
                case Err(e) => err == Some(e)
    {
      err := None;
      if name == "dc:title" {
        buffer := Some("");
        inTitle := true;
      } else if name == "dc:creator" {
        buffer := Some("");
        inAuthor := true;
      } else if name == "item" {
        if "id" !in attrs {
          return Some(KeyError("id"));
        }
        var id := attrs["id"];
        if id in NcxIds {
          if "href" !in attrs {
            return Some(KeyError("href"));
          }
          ncx := attrs["href"];
        }
        if "media-type" !in attrs {
          return Some(KeyError("media-type"));
        }
        if attrs["media-type"] == XhtmlType {
          if "href" !in attrs {
            return Some(KeyError("href"));
          }
          id2html := id2html[id := attrs["href"]];
          html2id := html2id[attrs["href"] := id];
        }
      } else if name == "itemref" {
        if "idref" !in attrs {
          return Some(KeyError("idref"));
        }
        ranks := ranks + [attrs["idref"]];
      }
    }

    method Characters(data: string) returns (err: Option<Error>)
      modifies this
      ensures match BookStep(old(State()), Chars(data))
                case Ok(s) => err == None && State() == s
                case Err(e) => err == Some(e)
    {
      err := None;
      if inTitle || inAuthor {
        if buffer.None? {
          return Some(AttributeError);
        }
        buffer := Some(buffer.value + data);
      }
    }

    method EndElement(name: string) returns (err: Option<Error>)
      modifies this
      ensures match BookStep(old(State()), End(name))
                case Ok(s) => err == None && State() == s
                case Err(e) => err == Some(e)
    {
      err := None;
      if name == "dc:title" {
        inTitle := false;
        if buffer.None? {
          return Some(AttributeError);
        }
        title := buffer.value;
        buffer := Some("");
      } else if name == "dc:creator" {
        inAuthor := false;
        if buffer.None? {
          return Some(AttributeError);
        }
        author := buffer.value;
        buffer := Some("");
      }
    }

    /** Feeds the stream to the three handlers; the result is the final state. */
    method ParseBook() returns (r: Result<BookState>)
      requires State() == BookInit
      modifies this
      ensures r == RunBook(xml)
    {
      var i := 0;
      while i < |xml|
        invariant 0 <= i <= |xml|
        invariant RunBook(xml[..i]) == Ok(State())
        decreases |xml| - i
      {
        assert xml[..i + 1][..i] == xml[..i];
        var err: Option<Error>;
        match xml[i] {
          case Start(name, attrs) => err := StartElement(name, attrs);
          case Chars(data) => err := Characters(data);
          case End(name) => err := EndElement(name);
        }
        if err.Some? {
          BookErrorSticks(xml, i + 1);
          return Err(err.value);
        }
        i := i + 1;
      }
      assert xml[..i] == xml;
      r := Ok(State());
    }
  }
}
