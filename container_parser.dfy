/** `ContainerParser` (epub2txts/epub2txts.py): reads META-INF/container.xml and keeps the
    `full-path` of the `rootfile` element, the path of the package document. */
module ContainerParsing {
  import opened Wrappers
  import opened XmlEvents

  /** The effect of one event on the remembered rootfile path. Only start tags have a
      handler; a `rootfile` start without `full-path` raises KeyError. */
  function ContainerStep(rootfile: string, e: Event): Result<string>
  {
    if IsStart(e, "rootfile") then
      if "full-path" in e.attrs then Ok(e.attrs["full-path"]) else Err(KeyError("full-path"))
    else Ok(rootfile)
  }

  /** The rootfile path after a prefix of the event stream. */
  function RunContainer(events: seq<Event>): Result<string>
  {
    if |events| == 0 then Ok("")
    else match RunContainer(events[..|events| - 1])
      case Err(err) => Err(err)
      case Ok(rootfile) => ContainerStep(rootfile, events[|events| - 1])
  }

  /** The attributes of every `rootfile` start tag, in document order. */
  function RootfileTags(events: seq<Event>): seq<map<string, string>>
  {
    if |events| == 0 then []
    else
      var e := events[|events| - 1];
      RootfileTags(events[..|events| - 1]) + if IsStart(e, "rootfile") then [e.attrs] else []
  }

  /** The parse fails exactly when some `rootfile` tag lacks `full-path`; otherwise it yields
      the `full-path` of the LAST `rootfile` tag, or "" when there is none. */
  lemma {:induction false} ContainerResult(events: seq<Event>)
    ensures var tags := RootfileTags(events);
      && (RunContainer(events).Err? <==> exists k :: 0 <= k < |tags| && "full-path" !in tags[k])
      && (RunContainer(events).Ok? ==>
            RunContainer(events).value == if |tags| == 0 then "" else tags[|tags| - 1]["full-path"])
    decreases |events|
  {
    if |events| > 0 {
      var prefix := events[..|events| - 1];
      ContainerResult(prefix);
      var e := events[|events| - 1];
      var tags := RootfileTags(events);
      assert RootfileTags(prefix) == tags[..|RootfileTags(prefix)|];
      if RunContainer(prefix).Err? {
        var k :| 0 <= k < |RootfileTags(prefix)| && "full-path" !in RootfileTags(prefix)[k];
        assert "full-path" !in tags[k];
      } else if IsStart(e, "rootfile") {
        assert tags == RootfileTags(prefix) + [e.attrs];
        assert tags[|tags| - 1] == e.attrs;
      } else {
        assert tags == RootfileTags(prefix);
      }
    }
  }

  class ContainerParser {
    /** The package-document path found so far. */
    var rootfile: string
    /** The event stream of container.xml. */
    const xml: seq<Event>

    constructor(xml: seq<Event>)
      ensures this.xml == xml && rootfile == ""
    {
      this.xml := xml;
      rootfile := "";
    }

    /** The start-tag handler. */
    method StartElement(name: string, attrs: map<string, string>) returns (err: Option<Error>)
      modifies this
      ensures match ContainerStep(old(rootfile), Start(name, attrs))
                case Ok(r) => err == None && rootfile == r
                case Err(e) => err == Some(e)
    {
      err := None;
      if name == "rootfile" {
        if "full-path" !in attrs {
          return Some(KeyError("full-path"));
        }
        rootfile := attrs["full-path"];
      }
    }

    /** Feeds the whole stream to the handler and returns the rootfile path. */
    method ParseContainer() returns (r: Result<string>)
      requires rootfile == ""
      modifies this
      ensures r == RunContainer(xml)
    {
      var i := 0;
      while i < |xml|
        invariant 0 <= i <= |xml|
        invariant RunContainer(xml[..i]) == Ok(rootfile)
      {
        assert xml[..i + 1][..i] == xml[..i];
        var e := xml[i];
        if e.Start? {
          var err := StartElement(e.name, e.attrs);
          if err.Some? {
            ContainerErrorSticks(xml, i + 1);
            assert xml[..|xml|] == xml;
            return Err(err.value);
          }
        }
        i := i + 1;
      }
      assert xml[..i] == xml;
      r := Ok(rootfile);
    }
  }

  /** Once the parse has failed, later events do not matter. */
  lemma {:induction false} ContainerErrorSticks(events: seq<Event>, i: nat)
    requires i <= |events| && RunContainer(events[..i]).Err?
    ensures RunContainer(events) == RunContainer(events[..i])
    decreases |events| - i
  {
    if i < |events| {
      assert events[..i + 1][..i] == events[..i];
      ContainerErrorSticks(events, i + 1);
    } else {
      assert events[..i] == events;
    }
  }
}
