/** The Markdown tree processors that translate a rendered page and collect its msgids
    (mkdocs_mdpo_plugin/extensions.py, and the older mkdocs_mdpo_plugin/extension.py). */
module TreeProcessors {
  import opened Wrappers
  import opened Strings
  import opened Catalog
  import opened Translations

  /** An element of the rendered tree: tag, text (empty when absent), attributes, children. */
  datatype Node = Node(tag: string, text: string, attrib: map<string, string>, children: seq<Node>)

  /** Which processor runs and which Markdown extensions it honours: the text processor
      (with `pymdownx.tasklist`), or the title processor (with `abbr`, `pymdownx.emoji`
      and, in the older extension only, `pymdownx.tasklist`). */
  datatype Mode = TextMode(tasklist: bool) | TitleMode(abbr: bool, emoji: bool, taskItem: bool)

  const EmojiClasses: seq<string> := ["emojione", "twemoji", "gemoji"]
  const Checkboxes: seq<string> := ["[ ]", "[x]", "[X]"]

  /** The text starts with a task-list checkbox marker. */
  predicate IsCheckbox(text: string)
  {
    |text| >= 3 && text[..3] in Checkboxes
  }

  /** The node's class is one of `classes`. */
  predicate ClassIn(node: Node, classes: seq<string>)
  {
    "class" in node.attrib && node.attrib["class"] in classes
  }

  /** Whether the processor translates this node. */
  predicate Candidate(node: Node, mode: Mode)
  {
    match mode
    case TextMode(tasklist) =>
      node.text != [] && !StartsWith(node.text[1..], "wzxhzdk:")
      && !(tasklist && node.tag == "li" && IsCheckbox(node.text))
    case TitleMode(abbr, emoji, taskItem) =>
      "title" in node.attrib && "mdpo" !in node.attrib
      && !(abbr && node.tag == "abbr")
      && !(emoji && ClassIn(node, EmojiClasses))
      && !(taskItem && ClassIn(node, ["task-list-item"]))
  }

  /** The msgid of a candidate: its text with lines joined by spaces, or its title. */
  function NodeMsgid(node: Node, mode: Mode): string
    requires Candidate(node, mode)
  {
    match mode
    case TextMode(_) => JoinLines(node.text)
    case TitleMode(_, _, _) => node.attrib["title"]
  }

  /** Writing a translation into the node. */
  function Apply(node: Node, mode: Mode, replacement: Option<string>): (r: Node)
    ensures r.tag == node.tag && r.children == node.children
    ensures replacement.None? ==> r == node
    ensures replacement.Some? && mode.TextMode? ==> r.text == replacement.value && r.attrib == node.attrib
    ensures replacement.Some? && mode.TitleMode? ==> r.text == node.text && r.attrib == node.attrib["title" := replacement.value]
  {
    match replacement
    case None => node
    case Some(msgstr) =>
      if mode.TextMode? then node.(text := msgstr) else node.(attrib := node.attrib["title" := msgstr])
  }

  /** What `process_translation` reads and writes of a translation. */
  datatype TrState = TrState(po: seq<Entry>, poMsgids: seq<string>, translatedMsgstrs: seq<string>,
                             translatedMsgids: seq<string>, disabledMsgids: seq<string>)

  function State(tr: Translation): TrState
    reads tr
  {
    TrState(tr.po, tr.poMsgids, tr.translatedMsgstrs, tr.translatedMsgids, tr.disabledMsgids)
  }

  /** `po_msgids` lists the catalog's msgids, as the plugin builds it. */
  predicate Synced(st: TrState)
  {
    st.poMsgids == Msgids(st.po)
  }

  /** Every entry with the msgid is made live again. */
  function Revive(po: seq<Entry>, msgid: string): (r: seq<Entry>)
    ensures |r| == |po|
    ensures forall i :: 0 <= i < |po| ==> r[i] == (if po[i].msgid == msgid then po[i].(obsolete := false) else po[i])
  {
    if po == [] then []
    else
      var e := po[|po| - 1];
      Revive(po[..|po| - 1], msgid) + [if e.msgid == msgid then e.(obsolete := false) else e]
  }

  /** The non-empty msgstrs of the entries with the msgid, in order. */
  function MatchedMsgstrs(po: seq<Entry>, msgid: string): seq<string>
  {
    if po == [] then []
    else
      var e := po[|po| - 1];
      MatchedMsgstrs(po[..|po| - 1], msgid) + (if e.msgid == msgid && e.msgstr != [] then [e.msgstr] else [])
  }

  /** The msgid once per entry that has it. */
  function MatchedMsgids(po: seq<Entry>, msgid: string): seq<string>
  {
    if po == [] then []
    else MatchedMsgids(po[..|po| - 1], msgid) + (if po[|po| - 1].msgid == msgid then [msgid] else [])
  }

  /** The translation the node ends with: the last non-empty msgstr for the msgid. */
  function LastMsgstr(po: seq<Entry>, msgid: string): Option<string>
  {
    if po == [] then None
    else
      var e := po[|po| - 1];
      if e.msgid == msgid && e.msgstr != [] then Some(e.msgstr) else LastMsgstr(po[..|po| - 1], msgid)
  }

  datatype Processed = Processed(state: TrState, replacement: Option<string>)

  /** `process_translation(node, msgid)`. The older extension does not `record` the
      msgids and msgstrs it translated. */
  function Step(st: TrState, msgid: string, record: bool): Processed
  {
    if msgid in st.translatedMsgstrs then Processed(st, None)
    else if msgid in st.poMsgids then
      Processed(st.(po := Revive(st.po, msgid),
                    translatedMsgstrs := st.translatedMsgstrs + (if record then MatchedMsgstrs(st.po, msgid) else []),
                    translatedMsgids := st.translatedMsgids + (if record then MatchedMsgids(st.po, msgid) else [])),
                LastMsgstr(st.po, msgid))
    else if msgid !in st.disabledMsgids then
      Processed(st.(po := st.po + [NewEntry(msgid)], poMsgids := st.poMsgids + [msgid]), None)
    else Processed(st, None)
  }

  /** The state after processing the msgids in order. */
  function Steps(st: TrState, msgids: seq<string>, record: bool): TrState
  {
    if msgids == [] then st
    else Step(Steps(st, msgids[..|msgids| - 1], record), msgids[|msgids| - 1], record).state
  }

  datatype Walked = Walked(state: TrState, nodes: seq<Node>)

  /** One child of `iterate_childs`: processed if it is a candidate, then its own children. */
  function VisitNode(st: TrState, node: Node, mode: Mode, record: bool): Walked
    decreases node
  {
    var p := if Candidate(node, mode) then Step(st, NodeMsgid(node, mode), record) else Processed(st, None);
    var inner := Walk(p.state, node.children, mode, record);
    Walked(inner.state, [Apply(node, mode, p.replacement).(children := inner.nodes)])
  }

  /** `iterate_childs(_root)` over the children, in order. */
  function Walk(st: TrState, children: seq<Node>, mode: Mode, record: bool): Walked
    decreases children
  {
    if children == [] then Walked(st, [])
    else
      var before := Walk(st, children[..|children| - 1], mode, record);
      var last := VisitNode(before.state, children[|children| - 1], mode, record);
      Walked(last.state, before.nodes + last.nodes)
  }

  /** The msgids a walk processes, in document order (pre-order). */
  function NodeMsgids(node: Node, mode: Mode): seq<string>
    decreases node
  {
    (if Candidate(node, mode) then [NodeMsgid(node, mode)] else []) + ForestMsgids(node.children, mode)
  }

  function ForestMsgids(children: seq<Node>, mode: Mode): seq<string>
    decreases children
  {
    if children == [] then []
    else ForestMsgids(children[..|children| - 1], mode) + NodeMsgids(children[|children| - 1], mode)
  }

  lemma {:induction false} StepsAppend(st: TrState, a: seq<string>, b: seq<string>, record: bool)
    ensures Steps(st, a + b, record) == Steps(Steps(st, a, record), b, record)
    decreases |b|
  {
    if b == [] {
      assert a + b == a;
    } else {
      assert (a + b)[..|a + b| - 1] == a + b[..|b| - 1];
      StepsAppend(st, a, b[..|b| - 1], record);
    }
  }

  /** A walk processes the candidates' msgids in document order, one `process_translation`
      each: the tree shape matters only through that list. */
  lemma {:induction false} WalkIsSteps(st: TrState, children: seq<Node>, mode: Mode, record: bool)
    ensures Walk(st, children, mode, record).state == Steps(st, ForestMsgids(children, mode), record)
    decreases children
  {
    if children != [] {
      var init := children[..|children| - 1];
      var last := children[|children| - 1];
      WalkIsSteps(st, init, mode, record);
      var mid := Walk(st, init, mode, record).state;
      VisitIsSteps(mid, last, mode, record);
      StepsAppend(st, ForestMsgids(init, mode), NodeMsgids(last, mode), record);
    }
  }

  lemma {:induction false} VisitIsSteps(st: TrState, node: Node, mode: Mode, record: bool)
    ensures VisitNode(st, node, mode, record).state == Steps(st, NodeMsgids(node, mode), record)
    decreases node
  {
    var own := if Candidate(node, mode) then [NodeMsgid(node, mode)] else [];
    var p := if Candidate(node, mode) then Step(st, NodeMsgid(node, mode), record) else Processed(st, None);
    assert Steps(st, own, record) == p.state by {
      if Candidate(node, mode) {
        assert own[..0] == [];
      }
    }
    WalkIsSteps(p.state, node.children, mode, record);
    StepsAppend(st, own, ForestMsgids(node.children, mode), record);
  }

  /** A walk keeps the tree's shape: the same number of children, each with its tag. */
  lemma {:induction false} WalkKeepsShape(st: TrState, children: seq<Node>, mode: Mode, record: bool)
    ensures var w := Walk(st, children, mode, record);
      |w.nodes| == |children| && forall i :: 0 <= i < |children| ==> w.nodes[i].tag == children[i].tag
    decreases children
  {
    if children != [] {
      WalkKeepsShape(st, children[..|children| - 1], mode, record);
    }
  }

  lemma {:induction false} MatchedMsgidsAll(po: seq<Entry>, msgid: string)
    ensures forall m :: m in MatchedMsgids(po, msgid) ==> m == msgid
    ensures (exists i :: 0 <= i < |po| && po[i].msgid == msgid) ==> msgid in MatchedMsgids(po, msgid)
    decreases |po|
  {
    if po != [] {
      MatchedMsgidsAll(po[..|po| - 1], msgid);
      if po[|po| - 1].msgid != msgid {
        forall i | 0 <= i < |po| - 1
          ensures po[..|po| - 1][i] == po[i]
        {
        }
      }
    }
  }

  lemma {:induction false} LastMsgstrFrom(po: seq<Entry>, msgid: string)
    ensures var r := LastMsgstr(po, msgid);
      r.Some? ==> r.value != [] && exists i :: 0 <= i < |po| && po[i].msgid == msgid && po[i].msgstr == r.value
    ensures LastMsgstr(po, msgid).None? <==> forall i :: 0 <= i < |po| && po[i].msgid == msgid ==> po[i].msgstr == []
    decreases |po|
  {
    if po != [] {
      var init := po[..|po| - 1];
      LastMsgstrFrom(init, msgid);
      assert forall i :: 0 <= i < |init| ==> init[i] == po[i];
    }
  }

  lemma ReviveKeepsMsgids(po: seq<Entry>, msgid: string)
    ensures Msgids(Revive(po, msgid)) == Msgids(po)
  {
  }

  /** What one `process_translation` promises. It keeps `po_msgids` in step with the
      catalog; it skips msgids that are already a translation; a known msgid has every entry
      revived and, when recorded, counted as translated; the node gets a non-empty msgstr of
      such an entry, or nothing; an unknown msgid gets one new empty entry unless disabled. */
  lemma StepSpec(st: TrState, msgid: string, record: bool)
    requires Synced(st)
    ensures var r := Step(st, msgid, record);
      Synced(r.state)
      && (msgid in st.translatedMsgstrs ==> r == Processed(st, None))
      && (msgid !in st.translatedMsgstrs && msgid in st.poMsgids ==>
            (forall i :: 0 <= i < |r.state.po| && r.state.po[i].msgid == msgid ==> !r.state.po[i].obsolete)
            && (record ==> msgid in r.state.translatedMsgids)
            && r.state.poMsgids == st.poMsgids)
      && (r.replacement.Some? ==> (r.replacement.value != [] &&
            exists i :: 0 <= i < |st.po| && st.po[i].msgid == msgid && st.po[i].msgstr == r.replacement.value))
      && (msgid !in st.translatedMsgstrs && msgid !in st.poMsgids && msgid !in st.disabledMsgids ==>
            r.state.po == st.po + [NewEntry(msgid)] && r.state.poMsgids == st.poMsgids + [msgid])
      && (msgid !in st.poMsgids && msgid in st.disabledMsgids ==> r.state == st)
      && (msgid !in st.translatedMsgstrs && msgid !in st.disabledMsgids ==>
            exists i :: 0 <= i < |r.state.po| && r.state.po[i].msgid == msgid && !r.state.po[i].obsolete)
  {
    if msgid !in st.translatedMsgstrs && msgid in st.poMsgids {
      StepKnown(st, msgid, record);
    } else if msgid !in st.translatedMsgstrs && msgid !in st.disabledMsgids {
      StepUnknown(st, msgid, record);
    }
  }

  /** A msgid the catalog has: its entries are revived, the msgids stay as they were. */
  lemma StepKnown(st: TrState, msgid: string, record: bool)
    requires Synced(st) && msgid !in st.translatedMsgstrs && msgid in st.poMsgids
    ensures var r := Step(st, msgid, record);
      Synced(r.state)
      && (forall i :: 0 <= i < |r.state.po| && r.state.po[i].msgid == msgid ==> !r.state.po[i].obsolete)
      && (record ==> msgid in r.state.translatedMsgids)
      && r.state.poMsgids == st.poMsgids
      && (r.replacement.Some? ==> (r.replacement.value != [] &&
            exists i :: 0 <= i < |st.po| && st.po[i].msgid == msgid && st.po[i].msgstr == r.replacement.value))
      && exists i :: 0 <= i < |r.state.po| && r.state.po[i].msgid == msgid && !r.state.po[i].obsolete
  {
    var r := Step(st, msgid, record);
    ReviveKeepsMsgids(st.po, msgid);
    var k :| 0 <= k < |st.poMsgids| && st.poMsgids[k] == msgid;
    assert st.po[k].msgid == msgid;
    assert !r.state.po[k].obsolete;
    MatchedMsgidsAll(st.po, msgid);
    LastMsgstrFrom(st.po, msgid);
  }

  /** A msgid the catalog lacks and that is not disabled: one new empty entry. */
  lemma StepUnknown(st: TrState, msgid: string, record: bool)
    requires Synced(st) && msgid !in st.translatedMsgstrs && msgid !in st.poMsgids && msgid !in st.disabledMsgids
    ensures var r := Step(st, msgid, record);
      Synced(r.state)
      && r.replacement.None?
      && r.state.po == st.po + [NewEntry(msgid)] && r.state.poMsgids == st.poMsgids + [msgid]
      && exists i :: 0 <= i < |r.state.po| && r.state.po[i].msgid == msgid && !r.state.po[i].obsolete
  {
    var r := Step(st, msgid, record);
    assert r.state.po[|st.po|] == NewEntry(msgid);
  }

  /** A walk keeps `po_msgids` in step with the catalog. */
  lemma {:induction false} StepsKeepSynced(st: TrState, msgids: seq<string>, record: bool)
    requires Synced(st)
    ensures Synced(Steps(st, msgids, record))
    decreases |msgids|
  {
    if msgids != [] {
      StepsKeepSynced(st, msgids[..|msgids| - 1], record);
      StepSpec(Steps(st, msgids[..|msgids| - 1], record), msgids[|msgids| - 1], record);
    }
  }

  /** A walk never removes an entry and never changes a msgid: the catalog only grows. */
  lemma {:induction false} StepsGrowCatalog(st: TrState, msgids: seq<string>, record: bool)
    ensures var r := Steps(st, msgids, record);
      |st.po| <= |r.po| && forall i :: 0 <= i < |st.po| ==> r.po[i].msgid == st.po[i].msgid
    decreases |msgids|
  {
    if msgids != [] {
      var mid := Steps(st, msgids[..|msgids| - 1], record);
      StepsGrowCatalog(st, msgids[..|msgids| - 1], record);
      StepGrowsCatalog(mid, msgids[|msgids| - 1], record);
    }
  }

  lemma StepGrowsCatalog(st: TrState, msgid: string, record: bool)
    ensures var r := Step(st, msgid, record).state;
      |st.po| <= |r.po| && forall i :: 0 <= i < |st.po| ==> r.po[i].msgid == st.po[i].msgid
  {
  }

  /** `process_translation` on the current translation. */
  method ProcessTranslation(tr: Translation, msgid: string, record: bool) returns (replacement: Option<string>)
    modifies tr
    ensures State(tr) == Step(old(State(tr)), msgid, record).state
    ensures replacement == Step(old(State(tr)), msgid, record).replacement
  {
    replacement := None;
    if msgid in tr.translatedMsgstrs {
      return;
    }
    if msgid in tr.poMsgids {
      var po, msgstrs, msgids;
      po, msgstrs, msgids, replacement := ReviveMatching(tr.po, msgid, record);
      tr.po, tr.translatedMsgstrs, tr.translatedMsgids := po, tr.translatedMsgstrs + msgstrs, tr.translatedMsgids + msgids;
    } else if msgid !in tr.disabledMsgids {
      tr.poMsgids := tr.poMsgids + [msgid];
      tr.po := tr.po + [NewEntry(msgid)];
    }
  }

  /** The `for entry in tr.po` loop of `process_translation`. */
  method ReviveMatching(po0: seq<Entry>, msgid: string, record: bool)
    returns (po: seq<Entry>, msgstrs: seq<string>, msgids: seq<string>, replacement: Option<string>)
    ensures po == Revive(po0, msgid) && replacement == LastMsgstr(po0, msgid)
    ensures msgstrs == (if record then MatchedMsgstrs(po0, msgid) else [])
    ensures msgids == (if record then MatchedMsgids(po0, msgid) else [])
  {
    po, msgstrs, msgids, replacement := po0, [], [], None;
    var i := 0;
    while i < |po0|
      invariant 0 <= i <= |po0|
      invariant po == Revive(po0[..i], msgid) + po0[i..]
      invariant msgstrs == (if record then MatchedMsgstrs(po0[..i], msgid) else [])
      invariant msgids == (if record then MatchedMsgids(po0[..i], msgid) else [])
      invariant replacement == LastMsgstr(po0[..i], msgid)
    {
      assert po0[..i + 1][..i] == po0[..i];
      var entry := po0[i];
      ReviveSnoc(po0, i, msgid);
      MatchSnoc(po0, i, msgid);
      if entry.msgid == msgid {
        if entry.msgstr != [] {
          replacement := Some(entry.msgstr);
          if record {
            msgstrs := msgstrs + [entry.msgstr];
          }
        }
        po := po[i := entry.(obsolete := false)];
        if record {
          msgids := msgids + [entry.msgid];
        }
      }
      i := i + 1;
    }
    assert po0[..i] == po0;
  }

  /** One more entry of the loop: the revived prefix grows by the entry, revived if it matches. */
  lemma ReviveSnoc(po: seq<Entry>, i: nat, msgid: string)
    requires i < |po|
    ensures Revive(po[..i + 1], msgid) + po[i + 1..]
            == (Revive(po[..i], msgid) + po[i..])[i := if po[i].msgid == msgid then po[i].(obsolete := false) else po[i]]
  {
    assert po[..i + 1][..i] == po[..i];
  }

  /** One more entry of the loop: the matched msgstrs, msgids and last translation. */
  lemma MatchSnoc(po: seq<Entry>, i: nat, msgid: string)
    requires i < |po|
    ensures var e := po[i];
      && MatchedMsgstrs(po[..i + 1], msgid)
         == MatchedMsgstrs(po[..i], msgid) + (if e.msgid == msgid && e.msgstr != [] then [e.msgstr] else [])
      && MatchedMsgids(po[..i + 1], msgid) == MatchedMsgids(po[..i], msgid) + (if e.msgid == msgid then [msgid] else [])
      && LastMsgstr(po[..i + 1], msgid)
         == if e.msgid == msgid && e.msgstr != [] then Some(e.msgstr) else LastMsgstr(po[..i], msgid)
  {
    assert po[..i + 1][..i] == po[..i];
  }

  /** `iterate_childs` over a node's children, translating the candidates in place; the
      rebuilt children are returned. */
  method IterateChildren(tr: Translation, children: seq<Node>, mode: Mode, record: bool) returns (nodes: seq<Node>)
    modifies tr
    ensures State(tr) == Walk(old(State(tr)), children, mode, record).state
    ensures nodes == Walk(old(State(tr)), children, mode, record).nodes
    decreases children
  {
    nodes := [];
    var i := 0;
    while i < |children|
      invariant 0 <= i <= |children|
      invariant State(tr) == Walk(old(State(tr)), children[..i], mode, record).state
      invariant nodes == Walk(old(State(tr)), children[..i], mode, record).nodes
    {
      assert children[..i + 1][..i] == children[..i];
      var visited := VisitChild(tr, children[i], mode, record);
      nodes := nodes + visited;
      i := i + 1;
    }
    assert children[..i] == children;
  }

  /** One child: processed when it is a candidate, then its own children are walked. */
  method VisitChild(tr: Translation, child: Node, mode: Mode, record: bool) returns (nodes: seq<Node>)
    modifies tr
    ensures State(tr) == VisitNode(old(State(tr)), child, mode, record).state
    ensures nodes == VisitNode(old(State(tr)), child, mode, record).nodes
    decreases child
  {
    var replacement := None;
    if Candidate(child, mode) {
      replacement := ProcessTranslation(tr, NodeMsgid(child, mode), record);
    }
    var kids := IterateChildren(tr, child.children, mode, record);
    nodes := [Apply(child, mode, replacement).(children := kids)];
  }

  /** `MkdocsMdpoTreeProcessor.run` / `MkdocsMdpoTitlesTreeProcessor.run`: nothing happens
      outside a translated page; otherwise the root's children are walked. */
  method Run(translations: Translations, root: Node, mode: Mode) returns (result: Node)
    modifies translations.current
    ensures translations.current == old(translations.current)
    ensures old(translations.current) == null ==> result == root
    ensures old(translations.current) != null ==>
      var w := Walk(old(State(translations.current)), root.children, mode, true);
      State(translations.current) == w.state && result == root.(children := w.nodes)
  {
    var tr := translations.current;
    if tr == null {
      return root;
    }
    var kids := IterateChildren(tr, root.children, mode, true);
    result := root.(children := kids);
  }

  /** The older extension: the page being built, its translation attributes (`null` when
      the page has no `_language`), where its catalog is saved, and the catalogs saved so far. */
  class LegacyBuild {
    var currentPage: Translation?
    var poPath: PoPath
    var saved: map<PoPath, seq<Entry>>

    constructor(currentPage: Translation?, poPath: PoPath, saved: map<PoPath, seq<Entry>>)
      ensures this.currentPage == currentPage && this.poPath == poPath && this.saved == saved
    {
      this.currentPage := currentPage;
      this.poPath := poPath;
      this.saved := saved;
    }

    /** `run` of the older processors: the walk does not record translations, and the page
        catalog is saved afterwards. */
    method Run(root: Node, mode: Mode) returns (result: Node)
      modifies this, currentPage
      ensures currentPage == old(currentPage) && poPath == old(poPath)
      ensures old(currentPage) == null ==> result == root && saved == old(saved)
      ensures old(currentPage) != null ==>
        var w := Walk(old(State(currentPage)), root.children, mode, false);
        State(currentPage) == w.state && result == root.(children := w.nodes)
        && saved == old(saved)[poPath := w.state.po]
    {
      var page := currentPage;
      if page == null {
        return root;
      }
      var kids := IterateChildren(page, root.children, mode, false);
      result := root.(children := kids);
      saved := saved[poPath := page.po];
    }
  }

  /** Without recording, a walk leaves the translated lists alone. */
  lemma {:induction false} LegacyStepsRecordNothing(st: TrState, msgids: seq<string>)
    ensures var r := Steps(st, msgids, false);
      r.translatedMsgstrs == st.translatedMsgstrs && r.translatedMsgids == st.translatedMsgids
      && r.disabledMsgids == st.disabledMsgids
    decreases |msgids|
  {
    if msgids != [] {
      LegacyStepsRecordNothing(st, msgids[..|msgids| - 1]);
    }
  }
}
