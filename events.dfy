/** mkdocs_mdpo_plugin/mdpo_events.py and mkdocs_mdpo_plugin/md4c_events.py: the parser
    events the plugin hands to md2po, po2md and the md4c parser. Each table lists, per
    event, the Markdown extensions that need it; an event is installed when one of them
    is configured. The callbacks disable text blocks that belong to an extension's own
    syntax. */
module Events {
  import opened Wrappers
  import opened Strings

  /** The block patterns of the Markdown extensions the callbacks test a text against; the
      regular expressions themselves belong to those extensions. */
  datatype Pattern = AdmonitionRe | DefListRe | DetailsStart | SnippetsRe | TabbedStart

  /** `re.match(pattern, text)`, for the patterns above. */
  type Matcher = (Pattern, string) -> bool

  /** The callbacks a builder can install. */
  datatype Callback =
    | Md2poText | Md2poMsgid | Md2poLinkReference
    | Po2mdLinkReference
    | Md4cText | Md4cMsgid

  /** `{event name: [extension, ...]}`, in the order the dictionary is written. */
  type EventTable = seq<(string, seq<string>)>

  const Md2poEventExtensions: EventTable := [
    ("text", ["admonition", "def_list", "pymdownx.details", "pymdownx.snippets", "pymdownx.tabbed"]),
    ("msgid", ["def_list"]),
    ("link_reference", ["footnotes"])
  ]

  const Po2mdEventExtensions: EventTable := [("link_reference", ["footnotes"])]

  const Md4cEventExtensions: EventTable := [
    ("text", ["admonition", "def_list", "pymdownx.details", "pymdownx.snippets", "pymdownx.tabbed"]),
    ("msgid", ["def_list"])
  ]

  const Md2poFunctions: map<string, Callback> :=
    map["text" := Md2poText, "msgid" := Md2poMsgid, "link_reference" := Md2poLinkReference]

  const Po2mdFunctions: map<string, Callback> := map["link_reference" := Po2mdLinkReference]

  const Md4cFunctions: map<string, Callback> := map["text" := Md4cText, "msgid" := Md4cMsgid]

  /** Some extension of the list is configured. */
  predicate AnyConfigured(extensions: seq<string>, markdown: seq<string>)
  {
    exists k :: 0 <= k < |extensions| && extensions[k] in markdown
  }

  /** The event loop shared by the three builders: for each event, the first configured
      extension of its list installs the event's callback and ends the search. */
  method BuildEvents(table: EventTable, functions: map<string, Callback>, markdown: seq<string>)
    returns (events: map<string, Callback>)
    requires forall k :: 0 <= k < |table| ==> table[k].0 in functions
    ensures forall name :: name in events <==> exists k :: 0 <= k < |table| && table[k].0 == name && AnyConfigured(table[k].1, markdown)
    ensures forall name :: name in events ==> name in functions && events[name] == functions[name]
  {
    events := map[];
    var i := 0;
    while i < |table|
      invariant 0 <= i <= |table|
      invariant forall name :: name in events <==> exists k :: 0 <= k < i && table[k].0 == name && AnyConfigured(table[k].1, markdown)
      invariant forall name :: name in events ==> name in functions && events[name] == functions[name]
    {
      var (name, extensions) := table[i];
      var j := 0;
      while j < |extensions|
        invariant 0 <= j <= |extensions|
        invariant forall t :: 0 <= t < j ==> extensions[t] !in markdown
      {
        if extensions[j] in markdown {
          events := events[name := functions[name]];
          break;
        }
        j := j + 1;
      }
      i := i + 1;
    }
  }

  /** `build_md2po_events`: `text` for any of admonition, def_list, details, snippets and
      tabbed, `msgid` for def_list, `link_reference` for footnotes, and nothing else. */
  method BuildMd2poEvents(markdown: seq<string>) returns (events: map<string, Callback>)
    ensures "text" in events <==>
      "admonition" in markdown || "def_list" in markdown || "pymdownx.details" in markdown
      || "pymdownx.snippets" in markdown || "pymdownx.tabbed" in markdown
    ensures "msgid" in events <==> "def_list" in markdown
    ensures "link_reference" in events <==> "footnotes" in markdown
    ensures forall name :: name in events ==> name in Md2poFunctions && events[name] == Md2poFunctions[name]
  {
    events := BuildEvents(Md2poEventExtensions, Md2poFunctions, markdown);
    var table := Md2poEventExtensions;
    EventInstalled(table, "text", 0, markdown);
    EventInstalled(table, "msgid", 1, markdown);
    EventInstalled(table, "link_reference", 2, markdown);
    TextExtensionsConfigured(markdown);
    SingleExtension("def_list", markdown);
    SingleExtension("footnotes", markdown);
  }

  /** `build_po2md_events`: at most `link_reference`, and only with footnotes. */
  method BuildPo2mdEvents(markdown: seq<string>) returns (events: map<string, Callback>)
    ensures "link_reference" in events <==> "footnotes" in markdown
    ensures forall name :: name in events ==> name == "link_reference" && events[name] == Po2mdLinkReference
  {
    events := BuildEvents(Po2mdEventExtensions, Po2mdFunctions, markdown);
    EventInstalled(Po2mdEventExtensions, "link_reference", 0, markdown);
    SingleExtension("footnotes", markdown);
  }

  /** `build_md4c_parser_events`: only `text` and `msgid`, on the same conditions as for
      md2po. */
  method BuildMd4cEvents(markdown: seq<string>) returns (events: map<string, Callback>)
    ensures "text" in events <==>
      "admonition" in markdown || "def_list" in markdown || "pymdownx.details" in markdown
      || "pymdownx.snippets" in markdown || "pymdownx.tabbed" in markdown
    ensures "msgid" in events <==> "def_list" in markdown
    ensures forall name :: name in events ==> name in Md4cFunctions && events[name] == Md4cFunctions[name]
  {
    events := BuildEvents(Md4cEventExtensions, Md4cFunctions, markdown);
    var table := Md4cEventExtensions;
    EventInstalled(table, "text", 0, markdown);
    EventInstalled(table, "msgid", 1, markdown);
    TextExtensionsConfigured(markdown);
    SingleExtension("def_list", markdown);
  }

  /** What a builder is given. The builders index their argument with
      `['markdown_extensions']`, as they would the MkDocs build configuration, while
      plugin.py:236 and 243 hand them the plugin's extension list itself (config.py:137).
      The builders above take the list that lookup yields. */
  datatype BuilderArgument = BuildConfig(markdownExtensions: seq<string>) | ExtensionList(extensions: seq<string>)

  /** `argument['markdown_extensions']`: indexing a list with a string raises `TypeError`. */
  function MarkdownExtensionsOf(argument: BuilderArgument): (r: Option<seq<string>>)
    ensures r.Some? <==> argument.BuildConfig?
    ensures argument.BuildConfig? ==> r.value == argument.markdownExtensions
  {
    match argument
    case BuildConfig(markdown) => Some(markdown)
    case ExtensionList(_) => None
  }

  /** As written, the plugin's calls give the builders a list, and the lookup that starts
      each builder fails; given the build configuration, the lookup yields the very list
      the builders above take. */
  lemma PluginCallRaises(extensions: seq<string>)
    ensures MarkdownExtensionsOf(ExtensionList(extensions)).None?
    ensures MarkdownExtensionsOf(BuildConfig(extensions)) == Some(extensions)
  {
  }

  /** An event named once in a table is installed exactly when its own list has a
      configured extension. */
  lemma EventInstalled(table: EventTable, name: string, k: nat, markdown: seq<string>)
    requires k < |table| && table[k].0 == name
    requires forall j :: 0 <= j < |table| && j != k ==> table[j].0 != name
    ensures (exists j :: 0 <= j < |table| && table[j].0 == name && AnyConfigured(table[j].1, markdown))
      <==> AnyConfigured(table[k].1, markdown)
  {
  }

  lemma SingleExtension(extension: string, markdown: seq<string>)
    ensures AnyConfigured([extension], markdown) <==> extension in markdown
  {
    if extension in markdown {
      assert [extension][0] in markdown;
    }
  }

  lemma TextExtensionsConfigured(markdown: seq<string>)
    ensures AnyConfigured(["admonition", "def_list", "pymdownx.details", "pymdownx.snippets", "pymdownx.tabbed"], markdown) <==>
      "admonition" in markdown || "def_list" in markdown || "pymdownx.details" in markdown
      || "pymdownx.snippets" in markdown || "pymdownx.tabbed" in markdown
  {
    var extensions := ["admonition", "def_list", "pymdownx.details", "pymdownx.snippets", "pymdownx.tabbed"];
    if AnyConfigured(extensions, markdown) {
      var k :| 0 <= k < |extensions| && extensions[k] in markdown;
      assert k == 0 || k == 1 || k == 2 || k == 3 || k == 4;
    }
    if "admonition" in markdown {
      assert extensions[0] in markdown;
    } else if "def_list" in markdown {
      assert extensions[1] in markdown;
    } else if "pymdownx.details" in markdown {
      assert extensions[2] in markdown;
    } else if "pymdownx.snippets" in markdown {
      assert extensions[3] in markdown;
    } else if "pymdownx.tabbed" in markdown {
      assert extensions[4] in markdown;
    }
  }

  /** The guards of a `text_event`, in the order it tests them: (extension, pattern). */
  const Md2poTextGuards: seq<(string, Pattern)> := [
    ("admonition", AdmonitionRe), ("pymdownx.details", DetailsStart),
    ("pymdownx.snippets", SnippetsRe), ("pymdownx.tabbed", TabbedStart)
  ]

  const Md4cTextGuards: seq<(string, Pattern)> := [
    ("admonition", AdmonitionRe), ("def_list", DefListRe), ("pymdownx.details", DetailsStart),
    ("pymdownx.snippets", SnippetsRe), ("pymdownx.tabbed", TabbedStart)
  ]

  /** Some guard has its extension configured and its pattern matching the text. */
  predicate Guarded(guards: seq<(string, Pattern)>, markdown: seq<string>, matches: Matcher, text: string)
  {
    exists k :: 0 <= k < |guards| && guards[k].0 in markdown && matches(guards[k].1, text)
  }

  /** The md2po or md4c instance the callbacks act on. */
  class Md2PoInstance {
    var disabledEntries: seq<string>
    var disableNextLine: bool

    constructor()
      ensures disabledEntries == [] && !disableNextLine
    {
      disabledEntries := [];
      disableNextLine := false;
    }
  }

  /** md2po's `text_event`: a text block opening an admonition, details, snippet or tabbed
      block is disabled and the event answers `False`; any other text is left alone and the
      event answers `None`. */
  method Md2poTextEvent(instance: Md2PoInstance, markdown: seq<string>, matches: Matcher, text: string)
    returns (r: Option<bool>)
    modifies instance`disabledEntries
    ensures r == Some(false) <==> Guarded(Md2poTextGuards, markdown, matches, text)
    ensures r.None? <==> !Guarded(Md2poTextGuards, markdown, matches, text)
    ensures instance.disabledEntries == old(instance.disabledEntries) + (if r.Some? then [text] else [])
  {
    if "admonition" in markdown && matches(AdmonitionRe, text) {
      assert Md2poTextGuards[0].0 in markdown && matches(Md2poTextGuards[0].1, text);
      instance.disabledEntries := instance.disabledEntries + [text];
      return Some(false);
    }
    if "pymdownx.details" in markdown && matches(DetailsStart, text) {
      assert Md2poTextGuards[1].0 in markdown && matches(Md2poTextGuards[1].1, text);
      instance.disabledEntries := instance.disabledEntries + [text];
      return Some(false);
    }
    if "pymdownx.snippets" in markdown && matches(SnippetsRe, text) {
      assert Md2poTextGuards[2].0 in markdown && matches(Md2poTextGuards[2].1, text);
      instance.disabledEntries := instance.disabledEntries + [text];
      return Some(false);
    }
    if "pymdownx.tabbed" in markdown && matches(TabbedStart, text) {
      assert Md2poTextGuards[3].0 in markdown && matches(Md2poTextGuards[3].1, text);
      instance.disabledEntries := instance.disabledEntries + [text];
      return Some(false);
    }
    assert !Guarded(Md2poTextGuards, markdown, matches, text) by {
      forall k | 0 <= k < |Md2poTextGuards|
        ensures !(Md2poTextGuards[k].0 in markdown && matches(Md2poTextGuards[k].1, text))
      {
        assert k == 0 || k == 1 || k == 2 || k == 3;
      }
    }
    r := None;
  }

  /** The md4c parser's `text_event`: as md2po's, with definition lists disabled as well. */
  method Md4cTextEvent(instance: Md2PoInstance, markdown: seq<string>, matches: Matcher, text: string)
    returns (r: Option<bool>)
    modifies instance`disabledEntries
    ensures r == Some(false) <==> Guarded(Md4cTextGuards, markdown, matches, text)
    ensures r.None? <==> !Guarded(Md4cTextGuards, markdown, matches, text)
    ensures instance.disabledEntries == old(instance.disabledEntries) + (if r.Some? then [text] else [])
  {
    if "admonition" in markdown && matches(AdmonitionRe, text) {
      assert Md4cTextGuards[0].0 in markdown && matches(Md4cTextGuards[0].1, text);
      instance.disabledEntries := instance.disabledEntries + [text];
      return Some(false);
    }
    if "def_list" in markdown && matches(DefListRe, text) {
      assert Md4cTextGuards[1].0 in markdown && matches(Md4cTextGuards[1].1, text);
      instance.disabledEntries := instance.disabledEntries + [text];
      return Some(false);
    }
    if "pymdownx.details" in markdown && matches(DetailsStart, text) {
      assert Md4cTextGuards[2].0 in markdown && matches(Md4cTextGuards[2].1, text);
      instance.disabledEntries := instance.disabledEntries + [text];
      return Some(false);
    }
    if "pymdownx.snippets" in markdown && matches(SnippetsRe, text) {
      assert Md4cTextGuards[3].0 in markdown && matches(Md4cTextGuards[3].1, text);
      instance.disabledEntries := instance.disabledEntries + [text];
      return Some(false);
    }
    if "pymdownx.tabbed" in markdown && matches(TabbedStart, text) {
      assert Md4cTextGuards[4].0 in markdown && matches(Md4cTextGuards[4].1, text);
      instance.disabledEntries := instance.disabledEntries + [text];
      return Some(false);
    }
    assert !Guarded(Md4cTextGuards, markdown, matches, text) by {
      forall k | 0 <= k < |Md4cTextGuards|
        ensures !(Md4cTextGuards[k].0 in markdown && matches(Md4cTextGuards[k].1, text))
      {
        assert k == 0 || k == 1 || k == 2 || k == 3 || k == 4;
      }
    }
    r := None;
  }

  /** The md4c text event disables every block md2po's disables, and the two agree unless
      definition lists are configured. */
  lemma TextGuardsCompared(markdown: seq<string>, matches: Matcher, text: string)
    ensures Guarded(Md2poTextGuards, markdown, matches, text) ==> Guarded(Md4cTextGuards, markdown, matches, text)
    ensures "def_list" !in markdown ==>
      (Guarded(Md2poTextGuards, markdown, matches, text) <==> Guarded(Md4cTextGuards, markdown, matches, text))
  {
    if Guarded(Md2poTextGuards, markdown, matches, text) {
      var k :| 0 <= k < |Md2poTextGuards| && Md2poTextGuards[k].0 in markdown && matches(Md2poTextGuards[k].1, text);
      assert Md2poTextGuards[k] == Md4cTextGuards[if k == 0 then 0 else k + 1];
    }
    if "def_list" !in markdown && Guarded(Md4cTextGuards, markdown, matches, text) {
      var k :| 0 <= k < |Md4cTextGuards| && Md4cTextGuards[k].0 in markdown && matches(Md4cTextGuards[k].1, text);
      assert k != 1;
      assert Md4cTextGuards[k] == Md2poTextGuards[if k == 0 then 0 else k - 1];
    }
  }

  /** md2po's `msgid_event`: a definition (a msgid opening with ": ") disables the next
      line. */
  method Md2poMsgidEvent(instance: Md2PoInstance, msgid: string)
    modifies instance`disableNextLine
    ensures instance.disableNextLine == (old(instance.disableNextLine) || StartsWith(msgid, ": "))
  {
    if StartsWith(msgid, ": ") {
      instance.disableNextLine := true;
    }
  }

  /** The md4c parser's `msgid_event`: the same, and only with definition lists configured. */
  method Md4cMsgidEvent(instance: Md2PoInstance, markdown: seq<string>, msgid: string)
    modifies instance`disableNextLine
    ensures instance.disableNextLine == (old(instance.disableNextLine) || ("def_list" in markdown && StartsWith(msgid, ": ")))
  {
    if "def_list" in markdown {
      if StartsWith(msgid, ": ") {
        instance.disableNextLine := true;
      }
    }
  }

  /** `link_reference_event` of md2po and of po2md: a footnote reference (a target opening
      with '^') is answered `False` so that it is not handled as a link; every other target
      gets `None`. */
  function LinkReferenceEvent(target: string): (r: Option<bool>)
    ensures r != Some(true)
    ensures r == Some(false) <==> target != [] && target[0] == '^'
  {
    if StartsWith(target, "^") then Some(false) else None
  }
}
