/** `TocParserForEpub3` (epub2txts/epub2txts.py): reads an EPUB 3 navigation document. Only
    inside a `nav` element whose `epub:type` is `toc` does a `li` make an entry and an `a`
    give the current entry its link and title; every entry is numbered `num_1`, `num_2`, ... */
module NavToc {
  import opened Wrappers
  import opened XmlEvents
  import opened Text
  import opened NavPoints

  /** The parser's fields; `counter` is Python's `self.id`, `tocFlg` the inside-toc flag. */
  datatype NavState = NavState(
    counter: nat,
    current: Option<nat>,
    stack: seq<nat>,
    inText: bool,
    buffer: string,
    toc: seq<NavPoint>,
    tocFlg: bool)

  const NavInit := NavState(0, None, [], false, "", [], false)

  predicate WellIndexed(s: NavState) {
    && (s.current.Some? ==> s.current.value < |s.toc|)
    && (forall j :: 0 <= j < |s.stack| ==> s.stack[j] < |s.toc|)
  }

  /** The three handlers as one function of the event; `unquote` is
      `urllib.parse.unquote`. */
  function NavStep(unquote: string -> string, s: NavState, e: Event): (r: Result<NavState>)
    requires WellIndexed(s)
    ensures r.Ok? ==> WellIndexed(r.value)
  {
    match e
    case Start(name, attrs) =>
      if name == "nav" then
        if "epub:type" in attrs then Ok(s.(tocFlg := attrs["epub:type"] == "toc"))
        else Err(KeyError("epub:type"))
      else if name == "li" then
        if s.tocFlg then
          var k := s.counter + 1;
          Ok(s.(counter := k, current := Some(|s.toc|), stack := s.stack + [|s.toc|],
                toc := s.toc + [Numbered(k, |s.stack|)]))
        else Ok(s)
      else if name == "a" then
        if !s.tocFlg then Ok(s)
        else if "href" !in attrs then Err(KeyError("href"))
        else if s.current.None? then Err(AttributeError)
        else Ok(s.(toc := SetContent(s.toc, s.current.value, unquote(attrs["href"])),
                   buffer := "", inText := true))
      else Ok(s)
    case Chars(data) =>
      if s.inText then Ok(s.(buffer := s.buffer + data)) else Ok(s)
    case End(name) =>
      if name == "nav" then Ok(s.(tocFlg := false))
      else if name == "li" then
        if !s.tocFlg then Ok(s)
        else if |s.stack| == 0 then Err(IndexError)
        else Ok(s.(current := Some(s.stack[|s.stack| - 1]), stack := s.stack[..|s.stack| - 1]))
      else if name == "a" then
        if !s.tocFlg then Ok(s)
        else if s.inText && s.current.Some? then
          Ok(s.(toc := SetText(s.toc, s.current.value, s.buffer), inText := false))
        else Ok(s.(inText := false))
      else Ok(s)
  }

  /** The parser's state after a prefix of the event stream. */
  function RunNav(unquote: string -> string, events: seq<Event>): (r: Result<NavState>)
    ensures r.Ok? ==> WellIndexed(r.value)
  {
    if |events| == 0 then Ok(NavInit)
    else match RunNav(unquote, events[..|events| - 1])
      case Err(err) => Err(err)
      case Ok(s) => NavStep(unquote, s, events[|events| - 1])
  }

  /** What `parseToc` returns: the toc list, or the exception that stopped the parse. */
  function NavTocOf(unquote: string -> string, events: seq<Event>): Result<seq<NavPoint>>
  {
    match RunNav(unquote, events)
    case Ok(s) => Ok(s.toc)
    case Err(err) => Err(err)
  }

  lemma {:induction false} NavErrorSticks(unquote: string -> string, events: seq<Event>, i: nat)
    requires i <= |events| && RunNav(unquote, events[..i]).Err?
    ensures RunNav(unquote, events) == RunNav(unquote, events[..i])
    decreases |events| - i
  {
    if i < |events| {
      assert events[..i + 1][..i] == events[..i];
      NavErrorSticks(unquote, events, i + 1);
    } else {
      assert events[..i] == events;
    }
  }

  // ---------------------------------------------------------------------------
  // The table-of-contents region of the document

  /** Whether the events end inside the table of contents: the last `nav` tag is a start
      tag whose `epub:type` is `toc`. */
  function InToc(events: seq<Event>): bool
  {
    if |events| == 0 then false
    else
      var e := events[|events| - 1];
      if IsStart(e, "nav") then "epub:type" in e.attrs && e.attrs["epub:type"] == "toc"
      else if IsEnd(e, "nav") then false
      else InToc(events[..|events| - 1])
  }

  /** The nesting depth of every `li` start tag met inside the table of contents. */
  function TocItems(events: seq<Event>): seq<int>
  {
    if |events| == 0 then []
    else
      var prefix := events[..|events| - 1];
      TocItems(prefix)
        + if IsStart(events[|events| - 1], "li") && InToc(prefix) then [TocDepth(prefix)] else []
  }

  /** `li` starts minus `li` ends, counting only those met inside the table of contents. */
  function TocDepth(events: seq<Event>): int
  {
    if |events| == 0 then 0
    else
      var prefix := events[..|events| - 1];
      var e := events[|events| - 1];
      if IsStart(e, "li") && InToc(prefix) then TocDepth(prefix) + 1
      else if IsEnd(e, "li") && InToc(prefix) then TocDepth(prefix) - 1
      else TocDepth(prefix)
  }

  lemma TocItemsStep(events: seq<Event>)
    requires |events| > 0
    ensures var prefix := events[..|events| - 1];
      TocItems(events) == TocItems(prefix)
        + if IsStart(events[|events| - 1], "li") && InToc(prefix) then [TocDepth(prefix)] else []
  {
  }

  /** The shape of the parser state after a successful parse of `events`: the flag is
      `InToc`; entry `k` is `num_(k+1)` at the depth of the `k`-th `li` inside the table of
      contents; the counter is the number of entries; the stack is as deep as the `li`
      nesting inside the table of contents. */
  predicate Shaped(s: NavState, events: seq<Event>) {
    var items := TocItems(events);
    && s.tocFlg == InToc(events)
    && |s.toc| == |items| && s.counter == |s.toc|
    && (forall k :: 0 <= k < |items| ==>
          s.toc[k].id == "num_" + NatToString(k + 1) && s.toc[k].playorder == NatToString(k + 1)
          && s.toc[k].level == items[k])
    && |s.stack| == TocDepth(events)
    && StackShaped(s.stack, s.toc)
    && (s.current.None? <==> |s.toc| == 0)
  }

  /** A `li` start tag inside the table of contents appends entry `num_(k+1)` one level
      below the stack's top, and pushes it. */
  lemma ShapedPush(s: NavState, t: NavState, prefix: seq<Event>, events: seq<Event>)
    requires Shaped(s, prefix)
    requires TocItems(events) == TocItems(prefix) + [TocDepth(prefix)]
    requires TocDepth(events) == TocDepth(prefix) + 1 && InToc(events) == InToc(prefix)
    requires t == s.(counter := s.counter + 1, current := Some(|s.toc|), stack := s.stack + [|s.toc|],
                     toc := s.toc + [Numbered(s.counter + 1, |s.stack|)])
    ensures Shaped(t, events)
  {
    var np := Numbered(s.counter + 1, |s.stack|);
    StackPush(s.stack, s.toc, np);
    var items := TocItems(events);
    forall k | 0 <= k < |items|
      ensures t.toc[k].id == "num_" + NatToString(k + 1) && t.toc[k].playorder == NatToString(k + 1)
          && t.toc[k].level == items[k]
    {
      if k < |s.toc| {
        assert t.toc[k] == s.toc[k] && items[k] == TocItems(prefix)[k];
      } else {
        assert t.toc[k] == np && k == s.counter && items[k] == TocDepth(prefix);
      }
    }
  }

  /** A `li` end tag inside the table of contents pops the stack and changes no entry. */
  lemma ShapedPop(s: NavState, t: NavState, prefix: seq<Event>, events: seq<Event>)
    requires Shaped(s, prefix) && |s.stack| > 0
    requires TocItems(events) == TocItems(prefix)
    requires TocDepth(events) == TocDepth(prefix) - 1 && InToc(events) == InToc(prefix)
    requires t == s.(current := Some(s.stack[|s.stack| - 1]), stack := s.stack[..|s.stack| - 1])
    ensures Shaped(t, events)
  {
    StackPop(s.stack, s.toc);
  }

  lemma {:induction false} ShapedAfterItem(unquote: string -> string, events: seq<Event>)
    requires |events| > 0
    requires IsStart(events[|events| - 1], "li") && InToc(events[..|events| - 1])
    requires RunNav(unquote, events[..|events| - 1]).Ok?
    requires Shaped(RunNav(unquote, events[..|events| - 1]).value, events[..|events| - 1])
    requires RunNav(unquote, events).Ok?
    ensures Shaped(RunNav(unquote, events).value, events)
  {
    var prefix := events[..|events| - 1];
    var e := events[|events| - 1];
    var s := RunNav(unquote, prefix).value;
    assert RunNav(unquote, events) == NavStep(unquote, s, e);
    var t := RunNav(unquote, events).value;
    TocItemsStep(events);
    assert InToc(events) == InToc(prefix);
    assert TocDepth(events) == TocDepth(prefix) + 1;
    ShapedPush(s, t, prefix, events);
  }

  lemma {:induction false} ShapedAfterItemEnd(unquote: string -> string, events: seq<Event>)
    requires |events| > 0
    requires IsEnd(events[|events| - 1], "li") && InToc(events[..|events| - 1])
    requires RunNav(unquote, events[..|events| - 1]).Ok?
    requires Shaped(RunNav(unquote, events[..|events| - 1]).value, events[..|events| - 1])
    requires RunNav(unquote, events).Ok?
    ensures Shaped(RunNav(unquote, events).value, events)
  {
    var prefix := events[..|events| - 1];
    var e := events[|events| - 1];
    var s := RunNav(unquote, prefix).value;
    assert RunNav(unquote, events) == NavStep(unquote, s, e);
    var t := RunNav(unquote, events).value;
    TocItemsStep(events);
    assert InToc(events) == InToc(prefix);
    assert TocDepth(events) == TocDepth(prefix) - 1;
    ShapedPop(s, t, prefix, events);
  }

  /** Every event other than a `li` tag inside the table of contents keeps the stack, the
      counter, the current entry and every entry's keys. */
  lemma NavKeysKept(unquote: string -> string, s: NavState, e: Event)
    requires WellIndexed(s) && !((IsStart(e, "li") || IsEnd(e, "li")) && s.tocFlg)
    requires NavStep(unquote, s, e).Ok?
    ensures var t := NavStep(unquote, s, e).value;
      && t.stack == s.stack && t.counter == s.counter && t.current == s.current
      && |t.toc| == |s.toc| && (forall k :: 0 <= k < |s.toc| ==> SameKeys(t.toc[k], s.toc[k]))
      && t.tocFlg == if IsStart(e, "nav") then e.attrs["epub:type"] == "toc"
                     else if IsEnd(e, "nav") then false else s.tocFlg
  {
  }

  lemma {:induction false} ShapedAfterOther(unquote: string -> string, events: seq<Event>)
    requires |events| > 0
    requires !((IsStart(events[|events| - 1], "li") || IsEnd(events[|events| - 1], "li"))
               && InToc(events[..|events| - 1]))
    requires RunNav(unquote, events[..|events| - 1]).Ok?
    requires Shaped(RunNav(unquote, events[..|events| - 1]).value, events[..|events| - 1])
    requires RunNav(unquote, events).Ok?
    ensures Shaped(RunNav(unquote, events).value, events)
  {
    var prefix := events[..|events| - 1];
    var s := RunNav(unquote, prefix).value;
    var t := RunNav(unquote, events).value;
    NavKeysKept(unquote, s, events[|events| - 1]);
    TocItemsStep(events);
    var items := TocItems(events);
    assert items == TocItems(prefix);
    assert TocDepth(events) == TocDepth(prefix);
    assert t.tocFlg == InToc(events);
    forall k | 0 <= k < |items|
      ensures t.toc[k].id == "num_" + NatToString(k + 1) && t.toc[k].playorder == NatToString(k + 1)
          && t.toc[k].level == items[k]
    {
      assert SameKeys(t.toc[k], s.toc[k]);
    }
  }

  /** After a successful parse the state has the shape `Shaped` describes. */
  lemma {:induction false} NavShape(unquote: string -> string, events: seq<Event>)
    requires RunNav(unquote, events).Ok?
    ensures Shaped(RunNav(unquote, events).value, events)
    decreases |events|
  {
    if |events| > 0 {
      var prefix := events[..|events| - 1];
      var e := events[|events| - 1];
      NavShape(unquote, prefix);
      if IsStart(e, "li") && InToc(prefix) {
        ShapedAfterItem(unquote, events);
      } else if IsEnd(e, "li") && InToc(prefix) {
        ShapedAfterItemEnd(unquote, events);
      } else {
        ShapedAfterOther(unquote, events);
      }
    }
  }

  /** Outside the table of contents no event touches the entries, and an event that adds
      an entry is a `li` start tag inside it; the `nav` end tag clears the flag. */
  lemma NavOnlyInsideToc(unquote: string -> string, events: seq<Event>)
    requires |events| > 0 && RunNav(unquote, events).Ok?
    ensures var prefix := events[..|events| - 1];
      var e := events[|events| - 1];
      var s := RunNav(unquote, prefix).value;
      var t := RunNav(unquote, events).value;
      && (!InToc(prefix) ==> t.toc == s.toc)
      && (|t.toc| != |s.toc| ==> IsStart(e, "li") && InToc(prefix))
      && (IsEnd(e, "nav") ==> !t.tocFlg)
  {
    NavShape(unquote, events[..|events| - 1]);
  }

  // ---------------------------------------------------------------------------
  // Titles

  /** Whether the last `a` tag met inside the table of contents is a start tag. */
  function LinkOpen(events: seq<Event>): bool
  {
    if |events| == 0 then false
    else
      var prefix := events[..|events| - 1];
      var e := events[|events| - 1];
      if IsStart(e, "a") && InToc(prefix) then true
      else if IsEnd(e, "a") && InToc(prefix) then false
      else LinkOpen(prefix)
  }

  /** The character data since the last `a` start tag met inside the table of contents. */
  function LinkText(events: seq<Event>): string
  {
    if |events| == 0 then ""
    else
      var prefix := events[..|events| - 1];
      var e := events[|events| - 1];
      if IsStart(e, "a") && InToc(prefix) then ""
      else if e.Chars? then LinkText(prefix) + e.data
      else LinkText(prefix)
  }

  /** `inText` holds from an `a` start tag inside the table of contents to the next `a` end
      tag inside it, and then the buffer is the character data since that start tag. An `a`
      closed after the `nav` has ended leaves `inText` set. */
  lemma {:induction false} NavTextBuffer(unquote: string -> string, events: seq<Event>)
    requires RunNav(unquote, events).Ok?
    ensures RunNav(unquote, events).value.inText == LinkOpen(events)
    ensures LinkOpen(events) ==> RunNav(unquote, events).value.buffer == LinkText(events)
    decreases |events|
  {
    if |events| > 0 {
      var prefix := events[..|events| - 1];
      var e := events[|events| - 1];
      NavTextBuffer(unquote, prefix);
      NavShape(unquote, prefix);
      var s := RunNav(unquote, prefix).value;
      assert RunNav(unquote, events) == NavStep(unquote, s, e);
      NavTextStep(unquote, s, e);
    }
  }

  /** What one event does to the link flag and the buffer. */
  lemma NavTextStep(unquote: string -> string, s: NavState, e: Event)
    requires WellIndexed(s) && NavStep(unquote, s, e).Ok?
    ensures var t := NavStep(unquote, s, e).value;
      && t.inText == (if IsStart(e, "a") && s.tocFlg then true
                      else if IsEnd(e, "a") && s.tocFlg then false
                      else s.inText)
      && t.buffer == (if IsStart(e, "a") && s.tocFlg then ""
                      else if e.Chars? && s.inText then s.buffer + e.data
                      else s.buffer)
  {
  }

  /** One step on the entries already there, in terms of the state before it. */
  lemma NavStepEntryChanges(unquote: string -> string, s: NavState, e: Event)
    requires WellIndexed(s) && NavStep(unquote, s, e).Ok?
    ensures var t := NavStep(unquote, s, e).value;
      && |s.toc| <= |t.toc|
      && (forall k :: |s.toc| <= k < |t.toc| ==> t.toc[k].content.None? && t.toc[k].text.None?)
      && (forall k :: 0 <= k < |s.toc| ==>
            && SameKeys(t.toc[k], s.toc[k])
            && (t.toc[k].text != s.toc[k].text ==>
                  IsEnd(e, "a") && s.tocFlg && s.inText && s.current == Some(k)
                  && t.toc[k].text == Some(s.buffer))
            && (t.toc[k].content != s.toc[k].content ==>
                  IsStart(e, "a") && s.tocFlg && "href" in e.attrs && s.current == Some(k)
                  && t.toc[k].content == Some(unquote(e.attrs["href"]))))
  {
  }

  /** What one event may do to the entries already there: a title is written only by an
      `a` end tag inside the table of contents while a link is open, on the current entry,
      as the character data since the link's start tag; a link target only by an `a` start
      tag inside it, on the current entry, as the unquoted `href`. */
  lemma NavEntryChanges(unquote: string -> string, events: seq<Event>)
    requires |events| > 0 && RunNav(unquote, events).Ok?
    ensures var prefix := events[..|events| - 1];
      var e := events[|events| - 1];
      var s := RunNav(unquote, prefix).value;
      var t := RunNav(unquote, events).value;
      && |s.toc| <= |t.toc|
      && (forall k :: |s.toc| <= k < |t.toc| ==> t.toc[k].content.None? && t.toc[k].text.None?)
      && (forall k :: 0 <= k < |s.toc| ==>
            && SameKeys(t.toc[k], s.toc[k])
            && (t.toc[k].text != s.toc[k].text ==>
                  IsEnd(e, "a") && InToc(prefix) && LinkOpen(prefix) && s.current == Some(k)
                  && t.toc[k].text == Some(LinkText(prefix)))
            && (t.toc[k].content != s.toc[k].content ==>
                  IsStart(e, "a") && InToc(prefix) && "href" in e.attrs && s.current == Some(k)
                  && t.toc[k].content == Some(unquote(e.attrs["href"]))))
  {
    var prefix := events[..|events| - 1];
    NavTextBuffer(unquote, prefix);
    NavShape(unquote, prefix);
    NavStepEntryChanges(unquote, RunNav(unquote, prefix).value, events[|events| - 1]);
  }

  // ---------------------------------------------------------------------------
  // When the parse fails

  /** An event the handlers cannot take after `prefix`: a `nav` without `epub:type`, or,
      inside the table of contents, an `a` without `href` or before any `li`, or a `li` end
      tag with none open. */
  predicate NavFault(prefix: seq<Event>, e: Event) {
    || (IsStart(e, "nav") && "epub:type" !in e.attrs)
    || (IsStart(e, "a") && InToc(prefix) && ("href" !in e.attrs || |TocItems(prefix)| == 0))
    || (IsEnd(e, "li") && InToc(prefix) && TocDepth(prefix) == 0)
  }

  lemma NavStepFails(unquote: string -> string, s: NavState, prefix: seq<Event>, e: Event)
    requires WellIndexed(s) && s.tocFlg == InToc(prefix)
    requires |s.stack| == TocDepth(prefix) && (s.current.None? <==> |TocItems(prefix)| == 0)
    ensures NavStep(unquote, s, e).Err? <==> NavFault(prefix, e)
  {
  }

  /** The parse fails exactly when some event is a fault after the events before it. */
  lemma {:induction false} NavFailure(unquote: string -> string, events: seq<Event>)
    ensures RunNav(unquote, events).Err? <==>
      exists i :: 0 <= i < |events| && NavFault(events[..i], events[i])
    decreases |events|
  {
    if |events| > 0 {
      var n := |events| - 1;
      var prefix := events[..n];
      NavFailure(unquote, prefix);
      if RunNav(unquote, prefix).Err? {
        var i :| 0 <= i < n && NavFault(prefix[..i], prefix[i]);
        assert prefix[..i] == events[..i] && prefix[i] == events[i];
      } else {
        assert RunNav(unquote, events).Err? <==> NavFault(prefix, events[n]) by {
          NavLastStepFails(unquote, events);
        }
        forall i | 0 <= i < n
          ensures !NavFault(events[..i], events[i])
        {
          assert prefix[..i] == events[..i] && prefix[i] == events[i];
        }
      }
    }
  }

  /** After a successful prefix, the last event fails exactly when it is a fault. */
  lemma NavLastStepFails(unquote: string -> string, events: seq<Event>)
    requires |events| > 0 && RunNav(unquote, events[..|events| - 1]).Ok?
    ensures RunNav(unquote, events).Err? <==> NavFault(events[..|events| - 1], events[|events| - 1])
  {
    var prefix := events[..|events| - 1];
    NavShape(unquote, prefix);
    NavStepFails(unquote, RunNav(unquote, prefix).value, prefix, events[|events| - 1]);
  }

  // ---------------------------------------------------------------------------
  // The parser object

  class TocParserForEpub3 {
    var counter: nat
    var current: Option<nat>
    var stack: seq<nat>
    var inText: bool
    var buffer: string
    var toc: seq<NavPoint>
    var tocFlg: bool
    /** The event stream of the navigation document. */
    const xml: seq<Event>
    /** `urllib.parse.unquote`. */
    const unquote: string -> string

    function State(): NavState
      reads this
    {
      NavState(counter, current, stack, inText, buffer, toc, tocFlg)
    }

    constructor(xml: seq<Event>, unquote: string -> string)
      ensures this.xml == xml && this.unquote == unquote && State() == NavInit
    {
      this.xml := xml;
      this.unquote := unquote;
      counter := 0;
      current := None;
      stack := [];
      inText := false;
      buffer := "";
      toc := [];
      tocFlg := false;
    }

    method StartElement(name: string, attrs: map<string, string>) returns (err: Option<Error>)
      requires WellIndexed(State())
      modifies this
      ensures match NavStep(unquote, old(State()), Start(name, attrs))
                case Ok(s) => err == None && State() == s
                case Err(e) => err == Some(e)
    {
      err := None;
      if name == "nav" {
        if "epub:type" !in attrs {
          return Some(KeyError("epub:type"));
        }
        tocFlg := attrs["epub:type"] == "toc";
      } else if name == "li" {
        if tocFlg {
          var level := |stack|;
          counter := counter + 1;
          current := Some(|toc|);
          stack := stack + [|toc|];
          toc := toc + [Numbered(counter, level)];
        }
      } else if name == "a" {
        if tocFlg {
          if "href" !in attrs {
            return Some(KeyError("href"));
          }
          if current.None? {
            return Some(AttributeError);
          }
          toc := SetContent(toc, current.value, unquote(attrs["href"]));
          buffer := "";
          inText := true;
        }
      }
    }

    method Characters(data: string) returns (err: Option<Error>)
      requires WellIndexed(State())
      modifies this
      ensures match NavStep(unquote, old(State()), Chars(data))
                case Ok(s) => err == None && State() == s
                case Err(e) => err == Some(e)
    {
      err := None;
      if inText {
        buffer := buffer + data;
      }
    }

    method EndElement(name: string) returns (err: Option<Error>)
      requires WellIndexed(State())
      modifies this
      ensures match NavStep(unquote, old(State()), End(name))
                case Ok(s) => err == None && State() == s
                case Err(e) => err == Some(e)
    {
      err := None;
      if name == "nav" {
        tocFlg := false;
      } else if name == "li" {
        if tocFlg {
          if |stack| == 0 {
            return Some(IndexError);
          }
          current := Some(stack[|stack| - 1]);
          stack := stack[..|stack| - 1];
        }
      } else if name == "a" {
        if tocFlg {
          if inText && current.Some? {
            toc := SetText(toc, current.value, buffer);
          }
          inText := false;
        }
      }
    }

    /** Feeds the stream to the three handlers and returns the toc list. */
    method ParseToc() returns (r: Result<seq<NavPoint>>)
      requires State() == NavInit
      modifies this
      ensures r == NavTocOf(unquote, xml)
    {
      var i := 0;
      while i < |xml|
        invariant 0 <= i <= |xml|
        invariant RunNav(unquote, xml[..i]) == Ok(State())
        decreases |xml| - i
      {
        assert xml[..i + 1][..i] == xml[..i];
        var err: Option<Error>;
        match xml[i] {
          case Start(name, attrs) => err := StartElement(name, attrs);
          case Chars(data) => err := Characters(data);
          case End(name) => err := EndElement(name);
        }
        if err.Some? {
          NavErrorSticks(unquote, xml, i + 1);
          return Err(err.value);
        }
        i := i + 1;
      }
      assert xml[..i] == xml;
      r := Ok(toc);
    }
  }
}
