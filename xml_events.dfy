/** The event stream expat hands to the handlers of the EPUB parsers: a start tag with its
    attributes, an end tag, or a run of character data. Expat may cut one text node into
    several character events; each becomes its own `Chars`. */
module XmlEvents {

  datatype Event =
    | Start(name: string, attrs: map<string, string>)
    | End(name: string)
    | Chars(data: string)

  predicate IsStart(e: Event, name: string) {
    e.Start? && e.name == name
  }

  predicate IsEnd(e: Event, name: string) {
    e.End? && e.name == name
  }

  /** The number of `name` elements open after `events`: starts minus ends. */
  function Depth(events: seq<Event>, name: string): int
  {
    if |events| == 0 then 0
    else
      var d := Depth(events[..|events| - 1], name);
      var e := events[|events| - 1];
      if IsStart(e, name) then d + 1 else if IsEnd(e, name) then d - 1 else d
  }
}
