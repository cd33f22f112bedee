/** `TocParser` (epub2txts/epub2txts.py): reads an NCX navigation map into a flat list of
    NavPoints, one per `navPoint` element in document order, each with its nesting level. */
module NcxToc {
  import opened Wrappers
  import opened XmlEvents
  import opened Text
  import opened NavPoints

  /** The parser's fields: `counter` is Python's `self.id`; `current` and `stack` hold toc
      positions. `buffer` starts as "": Python creates it at the first `text` tag, and only
      reads it while `inText` holds, which that same tag sets. */
  datatype NcxState = NcxState(
    counter: nat,
    current: Option<nat>,
    stack: seq<nat>,
    inText: bool,
    buffer: string,
    toc: seq<NavPoint>)

  const NcxInit := NcxState(0, None, [], false, "", [])

  /** Every position held in `current` or on `stack` names an entry of `toc`. */
  predicate WellIndexed(s: NcxState) {
    && (s.current.Some? ==> s.current.value < |s.toc|)
    && (forall j :: 0 <= j < |s.stack| ==> s.stack[j] < |s.toc|)
  }

  /** A new entry is appended, pushed and made current. */
  function Open(s: NcxState, np: NavPoint): (t: NcxState)
    requires WellIndexed(s)
    ensures WellIndexed(t) && t.toc == s.toc + [np] && t.stack == s.stack + [|s.toc|]
    ensures t.current == Some(|s.toc|)
  {
    s.(current := Some(|s.toc|), stack := s.stack + [|s.toc|], toc := s.toc + [np])
  }

  /** The three handlers as one function of the event; `unquote` is
      `urllib.parse.unquote`. */
  function NcxStep(unquote: string -> string, s: NcxState, e: Event): (r: Result<NcxState>)
    requires WellIndexed(s)
    ensures r.Ok? ==> WellIndexed(r.value)
  {
    match e
    case Start(name, attrs) =>
      if name == "navPoint" then
        var level := |s.stack|;
        if "id" in attrs then
          if "playOrder" in attrs then Ok(Open(s, NavPoint(attrs["id"], attrs["playOrder"], level, None, None)))
          else Err(KeyError("playOrder"))
        else
          Ok(Open(s.(counter := s.counter + 1), Numbered(s.counter + 1, level)))
      else if name == "content" then
        if "src" !in attrs then Err(KeyError("src"))
        else if s.current.None? then Err(AttributeError)
        else Ok(s.(toc := SetContent(s.toc, s.current.value, unquote(attrs["src"]))))
      else if name == "text" then Ok(s.(buffer := "", inText := true))
      else Ok(s)
    case Chars(data) =>
      if s.inText then Ok(s.(buffer := s.buffer + data)) else Ok(s)
    case End(name) =>
      if name == "navPoint" then
        if |s.stack| == 0 then Err(IndexError)
        else Ok(s.(current := Some(s.stack[|s.stack| - 1]), stack := s.stack[..|s.stack| - 1]))
      else if name == "text" then
        if s.inText && s.current.Some? then
          Ok(s.(toc := SetText(s.toc, s.current.value, s.buffer), inText := false))
        else Ok(s.(inText := false))
      else Ok(s)
  }

  /** The parser's state after a prefix of the event stream. */
  function RunNcx(unquote: string -> string, events: seq<Event>): (r: Result<NcxState>)
    ensures r.Ok? ==> WellIndexed(r.value)
  {
    if |events| == 0 then Ok(NcxInit)
    else match RunNcx(unquote, events[..|events| - 1])
      case Err(err) => Err(err)
      case Ok(s) => NcxStep(unquote, s, events[|events| - 1])
  }

  /** What `parseToc` returns: the toc list, or the exception that stopped the parse. */
  function NcxTocOf(unquote: string -> string, events: seq<Event>): Result<seq<NavPoint>>
  {
    match RunNcx(unquote, events)
    case Ok(s) => Ok(s.toc)
    case Err(err) => Err(err)
  }

  lemma {:induction false} NcxErrorSticks(unquote: string -> string, events: seq<Event>, i: nat)
    requires i <= |events| && RunNcx(unquote, events[..i]).Err?
    ensures RunNcx(unquote, events) == RunNcx(unquote, events[..i])
    decreases |events| - i
  {
    if i < |events| {
      assert events[..i + 1][..i] == events[..i];
      NcxErrorSticks(unquote, events, i + 1);
    } else {
      assert events[..i] == events;
    }
  }

  // ---------------------------------------------------------------------------
  // The entries the document calls for

  /** A `navPoint` start tag: its attributes and the number of `navPoint`s open before it. */
  datatype Opening = Opening(attrs: map<string, string>, depth: int)

  /** Every `navPoint` start tag, in document order. */
  function Openings(events: seq<Event>): seq<Opening>
  {
    if |events| == 0 then []
    else
      var prefix := events[..|events| - 1];
      var e := events[|events| - 1];
      Openings(prefix) + if IsStart(e, "navPoint") then [Opening(e.attrs, Depth(prefix, "navPoint"))] else []
  }

  /** How many of the openings have no `id` attribute. */
  function IdlessCount(ops: seq<Opening>): nat
  {
    if |ops| == 0 then 0
    else IdlessCount(ops[..|ops| - 1]) + if "id" in ops[|ops| - 1].attrs then 0 else 1
  }

  /** The entry an opening calls for when it is the `n`-th id-less one so far: its own id and
      playOrder when it has an id, otherwise `num_n` with play order `n`; level = depth. */
  predicate EntryFor(np: NavPoint, op: Opening, n: nat) {
    && np.level == op.depth
    && if "id" in op.attrs then
         "playOrder" in op.attrs && np.id == op.attrs["id"] && np.playorder == op.attrs["playOrder"]
       else
         np.id == "num_" + NatToString(n) && np.playorder == NatToString(n)
  }

  /** Entry `k` of `toc` is the one opening `k` calls for. */
  predicate EntriesFor(toc: seq<NavPoint>, ops: seq<Opening>) {
    && |toc| == |ops|
    && (forall k :: 0 <= k < |ops| ==> EntryFor(toc[k], ops[k], IdlessCount(ops[..k + 1])))
  }

  /** The shape of the parser state after a successful parse of `events`. */
  predicate Shaped(s: NcxState, events: seq<Event>) {
    && EntriesFor(s.toc, Openings(events))
    && s.counter == IdlessCount(Openings(events))
    && |s.stack| == Depth(events, "navPoint")
    && StackShaped(s.stack, s.toc)
    && (s.current.None? <==> |s.toc| == 0)
  }

  lemma OpeningsStep(events: seq<Event>)
    requires |events| > 0
    ensures var prefix := events[..|events| - 1];
      var e := events[|events| - 1];
      Openings(events) == Openings(prefix) + if IsStart(e, "navPoint") then [Opening(e.attrs, Depth(prefix, "navPoint"))] else []
  {
  }

  /** A `navPoint` start tag appends the entry its opening calls for. */
  lemma {:induction false} ShapedAfterOpen(unquote: string -> string, events: seq<Event>)
    requires |events| > 0 && IsStart(events[|events| - 1], "navPoint")
    requires RunNcx(unquote, events[..|events| - 1]).Ok?
    requires Shaped(RunNcx(unquote, events[..|events| - 1]).value, events[..|events| - 1])
    requires RunNcx(unquote, events).Ok?
    ensures Shaped(RunNcx(unquote, events).value, events)
  {
    var prefix := events[..|events| - 1];
    var e := events[|events| - 1];
    var s := RunNcx(unquote, prefix).value;
    assert RunNcx(unquote, events) == NcxStep(unquote, s, e);
    var t := RunNcx(unquote, events).value;
    var ops0 := Openings(prefix);
    var op := Opening(e.attrs, Depth(prefix, "navPoint"));
    OpeningsStep(events);
    assert Openings(events) == ops0 + [op];
    OpenStep(unquote, s, e);
    IdlessStep(ops0, op);
    EntriesAppend(s.toc, ops0, t.toc[|s.toc|], op);
    assert t.toc == s.toc + [t.toc[|s.toc|]];
    assert Depth(events, "navPoint") == Depth(prefix, "navPoint") + 1;
    StackPush(s.stack, s.toc, t.toc[|s.toc|]);
  }

  /** Pushing a new entry one level below the open ones keeps the stack's shape. */
  /** What a `navPoint` start tag does to the state. */
  lemma OpenStep(unquote: string -> string, s: NcxState, e: Event)
    requires WellIndexed(s) && IsStart(e, "navPoint") && NcxStep(unquote, s, e).Ok?
    ensures var t := NcxStep(unquote, s, e).value;
      && |t.toc| == |s.toc| + 1 && t.toc[..|s.toc|] == s.toc
      && t.stack == s.stack + [|s.toc|] && t.current == Some(|s.toc|)
      && t.counter == s.counter + (if "id" in e.attrs then 0 else 1)
      && EntryFor(t.toc[|s.toc|], Opening(e.attrs, |s.stack|), t.counter)
  {
  }

  lemma IdlessStep(ops: seq<Opening>, op: Opening)
    ensures IdlessCount(ops + [op]) == IdlessCount(ops) + if "id" in op.attrs then 0 else 1
  {
    assert (ops + [op])[..|ops|] == ops;
  }

  /** Entries for the openings so far, and the entry for one more opening. */
  lemma EntriesAppend(toc: seq<NavPoint>, ops: seq<Opening>, np: NavPoint, op: Opening)
    requires EntriesFor(toc, ops) && EntryFor(np, op, IdlessCount(ops + [op]))
    ensures EntriesFor(toc + [np], ops + [op])
  {
    var toc1, ops1 := toc + [np], ops + [op];
    forall k | 0 <= k < |ops1|
      ensures EntryFor(toc1[k], ops1[k], IdlessCount(ops1[..k + 1]))
    {
      if k < |ops| {
        assert ops1[..k + 1] == ops[..k + 1];
      } else {
        assert ops1[..k + 1] == ops1;
      }
    }
  }

  /** A `navPoint` end tag pops the innermost open entry. */
  lemma {:induction false} ShapedAfterClose(unquote: string -> string, events: seq<Event>)
    requires |events| > 0 && IsEnd(events[|events| - 1], "navPoint")
    requires RunNcx(unquote, events[..|events| - 1]).Ok?
    requires Shaped(RunNcx(unquote, events[..|events| - 1]).value, events[..|events| - 1])
    requires RunNcx(unquote, events).Ok?
    ensures Shaped(RunNcx(unquote, events).value, events)
  {
    var prefix := events[..|events| - 1];
    var s := RunNcx(unquote, prefix).value;
    var t := RunNcx(unquote, events).value;
    OpeningsStep(events);
    assert Openings(events) == Openings(prefix);
    assert t.toc == s.toc && t.stack == s.stack[..|s.stack| - 1];
  }

  /** Every other event keeps the stack, the counter, the current entry and the keys of
      every entry. */
  lemma KeysKept(unquote: string -> string, s: NcxState, e: Event)
    requires WellIndexed(s) && !IsStart(e, "navPoint") && !IsEnd(e, "navPoint")
    requires NcxStep(unquote, s, e).Ok?
    ensures var t := NcxStep(unquote, s, e).value;
      && t.stack == s.stack && t.counter == s.counter && t.current == s.current
      && |t.toc| == |s.toc| && forall k :: 0 <= k < |s.toc| ==> SameKeys(t.toc[k], s.toc[k])
  {
  }

  lemma {:induction false} ShapedAfterOther(unquote: string -> string, events: seq<Event>)
    requires |events| > 0
    requires !IsStart(events[|events| - 1], "navPoint") && !IsEnd(events[|events| - 1], "navPoint")
    requires RunNcx(unquote, events[..|events| - 1]).Ok?
    requires Shaped(RunNcx(unquote, events[..|events| - 1]).value, events[..|events| - 1])
    requires RunNcx(unquote, events).Ok?
    ensures Shaped(RunNcx(unquote, events).value, events)
  {
    var prefix := events[..|events| - 1];
    var s := RunNcx(unquote, prefix).value;
    var t := RunNcx(unquote, events).value;
    KeysKept(unquote, s, events[|events| - 1]);
    OpeningsStep(events);
    var ops := Openings(events);
    assert ops == Openings(prefix);
    forall k | 0 <= k < |ops|
      ensures EntryFor(t.toc[k], ops[k], IdlessCount(ops[..k + 1]))
    {
      assert SameKeys(t.toc[k], s.toc[k]);
    }
  }

  /** One successful step keeps the shape. */
  lemma NcxStepShaped(unquote: string -> string, events: seq<Event>)
    requires |events| > 0
    requires RunNcx(unquote, events[..|events| - 1]).Ok?
    requires Shaped(RunNcx(unquote, events[..|events| - 1]).value, events[..|events| - 1])
    requires RunNcx(unquote, events).Ok?
    ensures Shaped(RunNcx(unquote, events).value, events)
  {
    var e := events[|events| - 1];
    if IsStart(e, "navPoint") {
      ShapedAfterOpen(unquote, events);
    } else if IsEnd(e, "navPoint") {
      ShapedAfterClose(unquote, events);
    } else {
      ShapedAfterOther(unquote, events);
    }
  }

  /** After a successful parse: one entry per `navPoint` start tag in document order, with
      the id rule and the level rule; the counter counts the id-less entries; the stack is
      as deep as the current `navPoint` nesting, holds one entry per open level in order, and
      everything appended after an open entry lies deeper. */
  lemma {:induction false} NcxShape(unquote: string -> string, events: seq<Event>)
    requires RunNcx(unquote, events).Ok?
    ensures Shaped(RunNcx(unquote, events).value, events)
    decreases |events|
  {
    if |events| > 0 {
      NcxShape(unquote, events[..|events| - 1]);
      NcxStepShaped(unquote, events);
    }
  }

  /** The ids given to id-less entries are `num_1`, `num_2`, ... in document order: so two
      different id-less entries never share an id. */
  lemma NcxNumberedIdsDistinct(unquote: string -> string, events: seq<Event>, k1: nat, k2: nat)
    requires RunNcx(unquote, events).Ok?
    requires k1 < k2 < |Openings(events)|
    requires "id" !in Openings(events)[k1].attrs && "id" !in Openings(events)[k2].attrs
    ensures |RunNcx(unquote, events).value.toc| == |Openings(events)|
      && RunNcx(unquote, events).value.toc[k1].id != RunNcx(unquote, events).value.toc[k2].id
  {
    NcxShape(unquote, events);
    var ops := Openings(events);
    IdlessGrows(ops, k1, k2);
    var toc := RunNcx(unquote, events).value.toc;
    var n1, n2 := IdlessCount(ops[..k1 + 1]), IdlessCount(ops[..k2 + 1]);
    assert toc[k1].id == Numbered(n1, 0).id && toc[k2].id == Numbered(n2, 0).id;
    NumberedDistinct(n1, n2, 0, 0);
  }

  /** Each id-less opening raises the count. */
  lemma {:induction false} IdlessGrows(ops: seq<Opening>, k1: nat, k2: nat)
    requires k1 < k2 < |ops| && "id" !in ops[k2].attrs
    ensures IdlessCount(ops[..k1 + 1]) < IdlessCount(ops[..k2 + 1])
    decreases k2
  {
    assert ops[..k2 + 1][..k2] == ops[..k2];
    if k1 < k2 - 1 {
      IdlessMonotone(ops, k1, k2 - 1);
    }
  }

  lemma {:induction false} IdlessMonotone(ops: seq<Opening>, k1: nat, k2: nat)
    requires k1 <= k2 < |ops|
    ensures IdlessCount(ops[..k1 + 1]) <= IdlessCount(ops[..k2 + 1])
    decreases k2
  {
    if k1 < k2 {
      assert ops[..k2 + 1][..k2] == ops[..k2];
      IdlessMonotone(ops, k1, k2 - 1);
    }
  }

  // ---------------------------------------------------------------------------
  // Titles and content links

  /** Whether the last `text` tag so far is a start tag. */
  function TextOpen(events: seq<Event>): bool
  {
    if |events| == 0 then false
    else
      var e := events[|events| - 1];
      if IsStart(e, "text") then true
      else if IsEnd(e, "text") then false
      else TextOpen(events[..|events| - 1])
  }

  /** The character data since the last `text` start tag. */
  function PendingText(events: seq<Event>): string
  {
    if |events| == 0 then ""
    else
      var e := events[|events| - 1];
      if IsStart(e, "text") then ""
      else if e.Chars? then PendingText(events[..|events| - 1]) + e.data
      else PendingText(events[..|events| - 1])
  }

  /** `inText` holds exactly inside a `text` element, and then the buffer is the character
      data since that element's start tag. */
  lemma {:induction false} NcxTextBuffer(unquote: string -> string, events: seq<Event>)
    requires RunNcx(unquote, events).Ok?
    ensures RunNcx(unquote, events).value.inText == TextOpen(events)
    ensures TextOpen(events) ==> RunNcx(unquote, events).value.buffer == PendingText(events)
    decreases |events|
  {
    if |events| > 0 {
      NcxTextBuffer(unquote, events[..|events| - 1]);
    }
  }

  /** What one event may do to the entries already in the list: ids, play orders and levels
      never change; a title is written only by a `text` end tag inside a `text` element, on
      the current entry, as the character data since the start tag; a content link only by a
      `content` start tag, on the current entry, as the unquoted `src`. Entries appended by
      the event have neither. */
  lemma NcxEntryChanges(unquote: string -> string, events: seq<Event>)
    requires |events| > 0 && RunNcx(unquote, events).Ok?
    ensures var prefix := events[..|events| - 1];
      var e := events[|events| - 1];
      var s := RunNcx(unquote, prefix).value;
      var t := RunNcx(unquote, events).value;
      && |s.toc| <= |t.toc|
      && (forall k :: |s.toc| <= k < |t.toc| ==> t.toc[k].content.None? && t.toc[k].text.None?)
      && (forall k :: 0 <= k < |s.toc| ==>
            && t.toc[k].id == s.toc[k].id && t.toc[k].playorder == s.toc[k].playorder
            && t.toc[k].level == s.toc[k].level
            && (t.toc[k].text != s.toc[k].text ==>
                  IsEnd(e, "text") && TextOpen(prefix) && s.current == Some(k)
                  && t.toc[k].text == Some(PendingText(prefix)))
            && (t.toc[k].content != s.toc[k].content ==>
                  IsStart(e, "content") && "src" in e.attrs && s.current == Some(k)
                  && t.toc[k].content == Some(unquote(e.attrs["src"]))))
  {
    var prefix := events[..|events| - 1];
    var s := RunNcx(unquote, prefix).value;
    assert RunNcx(unquote, events) == NcxStep(unquote, s, events[|events| - 1]);
    NcxTextBuffer(unquote, prefix);
    NcxStepEntries(unquote, s, events[|events| - 1]);
  }

  /** `NcxEntryChanges` for one step, in terms of the state's own text flag and buffer. */
  lemma NcxStepEntries(unquote: string -> string, s: NcxState, e: Event)
    requires WellIndexed(s) && NcxStep(unquote, s, e).Ok?
    ensures var t := NcxStep(unquote, s, e).value;
      && |s.toc| <= |t.toc|
      && (forall k :: |s.toc| <= k < |t.toc| ==> t.toc[k].content.None? && t.toc[k].text.None?)
      && (forall k :: 0 <= k < |s.toc| ==>
            && t.toc[k].id == s.toc[k].id && t.toc[k].playorder == s.toc[k].playorder
            && t.toc[k].level == s.toc[k].level
            && (t.toc[k].text != s.toc[k].text ==>
                  IsEnd(e, "text") && s.inText && s.current == Some(k) && t.toc[k].text == Some(s.buffer))
            && (t.toc[k].content != s.toc[k].content ==>
                  IsStart(e, "content") && "src" in e.attrs && s.current == Some(k)
                  && t.toc[k].content == Some(unquote(e.attrs["src"]))))
  {
    var t := NcxStep(unquote, s, e).value;
    if IsStart(e, "navPoint") {
      assert t.toc[..|s.toc|] == s.toc;
      assert forall k :: 0 <= k < |s.toc| ==> t.toc[k] == s.toc[k];
    }
  }

  /** A `navPoint` end tag pops the stack and makes the entry it closes current. */
  lemma NcxCloseMakesCurrent(unquote: string -> string, events: seq<Event>)
    requires |events| > 0 && IsEnd(events[|events| - 1], "navPoint")
    requires RunNcx(unquote, events).Ok?
    ensures var s := RunNcx(unquote, events[..|events| - 1]).value;
      var t := RunNcx(unquote, events).value;
      |s.stack| > 0 && t.current == Some(s.stack[|s.stack| - 1]) && t.stack == s.stack[..|s.stack| - 1]
      && t.toc == s.toc
  {
  }

  // ---------------------------------------------------------------------------
  // When the parse fails

  /** An event the handlers cannot take after `prefix`: a `navPoint` with an id but no
      playOrder, a `content` tag without `src` or before any `navPoint`, or a `navPoint`
      end tag with none open. */
  predicate NcxFault(prefix: seq<Event>, e: Event) {
    || (IsStart(e, "navPoint") && "id" in e.attrs && "playOrder" !in e.attrs)
    || (IsStart(e, "content") && ("src" !in e.attrs || |Openings(prefix)| == 0))
    || (IsEnd(e, "navPoint") && Depth(prefix, "navPoint") == 0)
  }

  lemma NcxStepFails(unquote: string -> string, s: NcxState, prefix: seq<Event>, e: Event)
    requires WellIndexed(s)
    requires |s.stack| == Depth(prefix, "navPoint") && (s.current.None? <==> |Openings(prefix)| == 0)
    ensures NcxStep(unquote, s, e).Err? <==> NcxFault(prefix, e)
  {
  }

  /** The parse fails exactly when some event is a fault after the events before it. */
  lemma {:induction false} NcxFailure(unquote: string -> string, events: seq<Event>)
    ensures RunNcx(unquote, events).Err? <==>
      exists i :: 0 <= i < |events| && NcxFault(events[..i], events[i])
    decreases |events|
  {
    if |events| > 0 {
      var n := |events| - 1;
      var prefix := events[..n];
      NcxFailure(unquote, prefix);
      if RunNcx(unquote, prefix).Err? {
        var i :| 0 <= i < n && NcxFault(prefix[..i], prefix[i]);
        assert prefix[..i] == events[..i] && prefix[i] == events[i];
      } else {
        assert RunNcx(unquote, events).Err? <==> NcxFault(prefix, events[n]) by {
          NcxLastStepFails(unquote, events);
        }
        assert prefix == events[..n];
        forall i | 0 <= i < n
          ensures !NcxFault(events[..i], events[i])
        {
          assert prefix[..i] == events[..i] && prefix[i] == events[i];
        }
      }
    }
  }

  /** After a successful prefix, the last event fails exactly when it is a fault. */
  lemma NcxLastStepFails(unquote: string -> string, events: seq<Event>)
    requires |events| > 0 && RunNcx(unquote, events[..|events| - 1]).Ok?
    ensures RunNcx(unquote, events).Err? <==> NcxFault(events[..|events| - 1], events[|events| - 1])
  {
    var prefix := events[..|events| - 1];
    NcxShape(unquote, prefix);
    NcxStepFails(unquote, RunNcx(unquote, prefix).value, prefix, events[|events| - 1]);
  }

  // ---------------------------------------------------------------------------
  // The parser object

  class TocParser {
    /** Python's `self.id`: the number of id-less entries made so far. */
    var counter: nat
    var current: Option<nat>
    var stack: seq<nat>
    var inText: bool
    var buffer: string
    var toc: seq<NavPoint>
    /** The event stream of the NCX document. */
    const xml: seq<Event>
    /** `urllib.parse.unquote`. */
    const unquote: string -> string

    function State(): NcxState
      reads this
    {
      NcxState(counter, current, stack, inText, buffer, toc)
    }

    constructor(xml: seq<Event>, unquote: string -> string)
      ensures this.xml == xml && this.unquote == unquote && State() == NcxInit
    {
      this.xml := xml;
      this.unquote := unquote;
      counter := 0;
      current := None;
      stack := [];
      inText := false;
      buffer := "";
      toc := [];
    }

    method StartElement(name: string, attrs: map<string, string>) returns (err: Option<Error>)
      requires WellIndexed(State())
      modifies this
      ensures match NcxStep(unquote, old(State()), Start(name, attrs))
                case Ok(s) => err == None && State() == s
                case Err(e) => err == Some(e)
    {
      err := None;
      if name == "navPoint" {
        var level := |stack|;
        var np: NavPoint;
        if "id" in attrs {
          if "playOrder" !in attrs {
            return Some(KeyError("playOrder"));
          }
          np := NavPoint(attrs["id"], attrs["playOrder"], level, None, None);
        } else {
          counter := counter + 1;
          np := Numbered(counter, level);
        }
        current := Some(|toc|);
        stack := stack + [|toc|];
        toc := toc + [np];
      } else if name == "content" {
        if "src" !in attrs {
          return Some(KeyError("src"));
        }
        if current.None? {
          return Some(AttributeError);
        }
        toc := SetContent(toc, current.value, unquote(attrs["src"]));
      } else if name == "text" {
        buffer := "";
        inText := true;
      }
    }

    method Characters(data: string) returns (err: Option<Error>)
      requires WellIndexed(State())
      modifies this
      ensures match NcxStep(unquote, old(State()), Chars(data))
                case Ok(s) => err == None && State() == s
                case Err(e) => err == Some(e)
    {
      err := None;
      if inText {
        buffer := buffer + data;
      }
    }

    method EndElement(name: string) returns (err: Option<Error>)
      requires WellIndexed(State())
      modifies this
      ensures match NcxStep(unquote, old(State()), End(name))
                case Ok(s) => err == None && State() == s
                case Err(e) => err == Some(e)
    {
      err := None;
      if name == "navPoint" {
        if |stack| == 0 {
          return Some(IndexError);
        }
        current := Some(stack[|stack| - 1]);
        stack := stack[..|stack| - 1];
      } else if name == "text" {
        if inText && current.Some? {
          toc := SetText(toc, current.value, buffer);
        }
        inText := false;
      }
    }

    /** Feeds the stream to the three handlers and returns the toc list. */
    method ParseToc() returns (r: Result<seq<NavPoint>>)
      requires State() == NcxInit
      modifies this
      ensures r == NcxTocOf(unquote, xml)
    {
      var i := 0;
      while i < |xml|
        invariant 0 <= i <= |xml|
        invariant RunNcx(unquote, xml[..i]) == Ok(State())
        decreases |xml| - i
      {
        assert xml[..i + 1][..i] == xml[..i];
        var err: Option<Error>;
        match xml[i] {
          case Start(name, attrs) => err := StartElement(name, attrs);
          case Chars(data) => err := Characters(data);
          case End(name) => err := EndElement(name);
        }
        if err.Some? {
          NcxErrorSticks(unquote, xml, i + 1);
          return Err(err.value);
        }
        i := i + 1;
      }
      assert xml[..i] == xml;
      r := Ok(toc);
    }
  }
}
