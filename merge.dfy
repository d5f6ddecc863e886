/** The per-page merge of `on_page_markdown` (mkdocs_mdpo_plugin/plugin.py:283-398):
    extracted messages into the page catalog, title and description at its front,
    site settings tagged in the compendium, translated compendium entries copied in. */
module PageMerge {
  import opened Wrappers
  import opened Catalog

  // ---------------------------------------------------------------------------
  // Appending absent entries (plugin.py:288-290 and, restricted to translated
  // entries, plugin.py:395-397)
  // ---------------------------------------------------------------------------

  /** Appends, in order, each entry of `xs` that is not already a member. */
  function AppendAbsent(po: seq<Entry>, xs: seq<Entry>): seq<Entry>
    decreases |xs|
  {
    if xs == [] then po
    else
      var m := AppendAbsent(po, xs[..|xs| - 1]);
      if Contains(m, xs[|xs| - 1]) then m else m + [xs[|xs| - 1]]
  }

  /** Appends each extracted entry that the page catalog does not contain. */
  method MergeExtracted(po: seq<Entry>, extracted: seq<Entry>) returns (r: seq<Entry>)
    ensures r == AppendAbsent(po, extracted)
  {
    r := po;
    var i := 0;
    while i < |extracted|
      invariant 0 <= i <= |extracted|
      invariant r == AppendAbsent(po, extracted[..i])
    {
      assert extracted[..i + 1][..i] == extracted[..i];
      if !Contains(r, extracted[i]) {
        r := r + [extracted[i]];
      }
      i := i + 1;
    }
    assert extracted[..i] == extracted;
  }

  /** Membership survives appending to a catalog. */
  lemma ContainsInExtension(p: seq<Entry>, q: seq<Entry>, e: Entry)
    requires |p| <= |q| && q[..|p|] == p
    ensures Contains(p, e) ==> Contains(q, e)
  {
    if Contains(p, e) {
      var i :| 0 <= i < |p| && !p[i].obsolete && SameKey(p[i], e);
      assert q[i] == p[i];
    }
  }

  /** Existing entries are never removed or reordered; every appended entry comes from
      `xs` and had no live entry with its key in `po`. */
  lemma {:induction false} AppendAbsentExtends(po: seq<Entry>, xs: seq<Entry>)
    ensures |po| <= |AppendAbsent(po, xs)| && AppendAbsent(po, xs)[..|po|] == po
    ensures forall k :: |po| <= k < |AppendAbsent(po, xs)| ==>
              AppendAbsent(po, xs)[k] in xs && !Contains(po, AppendAbsent(po, xs)[k])
    decreases |xs|
  {
    if xs != [] {
      var init := xs[..|xs| - 1];
      var m := AppendAbsent(po, init);
      AppendAbsentExtends(po, init);
      var e := xs[|xs| - 1];
      if !Contains(m, e) {
        ContainsInExtension(po, m, e);
        assert (m + [e])[..|po|] == m[..|po|];
      }
    }
  }

  /** Every live entry of `xs` is a member afterwards. */
  lemma {:induction false} AppendAbsentCovers(po: seq<Entry>, xs: seq<Entry>)
    ensures forall e :: e in xs && !e.obsolete ==> Contains(AppendAbsent(po, xs), e)
    decreases |xs|
  {
    if xs != [] {
      var init := xs[..|xs| - 1];
      var m := AppendAbsent(po, init);
      var e := xs[|xs| - 1];
      AppendAbsentCovers(po, init);
      var r := AppendAbsent(po, xs);
      assert |m| <= |r| && r[..|m|] == m;
      forall x | x in xs && !x.obsolete
        ensures Contains(r, x)
      {
        if x in init {
          ContainsInExtension(m, r, x);
        } else {
          assert x == e;
          if !Contains(m, e) {
            assert r[|m|] == e;
          }
        }
      }
    }
  }

  /** Appending absent entries never creates two live entries with the same key. */
  lemma {:induction false} AppendAbsentNoLiveDuplicates(po: seq<Entry>, xs: seq<Entry>)
    requires NoLiveDuplicates(po)
    ensures NoLiveDuplicates(AppendAbsent(po, xs))
    decreases |xs|
  {
    if xs != [] {
      var m := AppendAbsent(po, xs[..|xs| - 1]);
      AppendAbsentNoLiveDuplicates(po, xs[..|xs| - 1]);
      var e := xs[|xs| - 1];
      if !Contains(m, e) {
        var r := m + [e];
        forall i, j | 0 <= i < j < |r| && !r[i].obsolete && !r[j].obsolete
          ensures !SameKey(r[i], r[j])
        {
          if j == |m| {
            assert r[i] == m[i];
          }
        }
      }
    }
  }

  /** Entries that are all members already change nothing. */
  lemma {:induction false} AppendAbsentOfMembers(q: seq<Entry>, xs: seq<Entry>)
    requires forall e :: e in xs ==> Contains(q, e)
    ensures AppendAbsent(q, xs) == q
    decreases |xs|
  {
    if xs != [] {
      AppendAbsentOfMembers(q, xs[..|xs| - 1]);
    }
  }

  /** Merging the same live extraction twice gives the catalog of merging it once. */
  lemma MergeIdempotent(po: seq<Entry>, extracted: seq<Entry>)
    requires forall e :: e in extracted ==> !e.obsolete
    ensures AppendAbsent(AppendAbsent(po, extracted), extracted) == AppendAbsent(po, extracted)
  {
    AppendAbsentCovers(po, extracted);
    AppendAbsentOfMembers(AppendAbsent(po, extracted), extracted);
  }

  /** The compendium entries that carry a translation, in order. */
  function Translated(compendium: seq<Entry>): seq<Entry>
  {
    if compendium == [] then []
    else
      var last := compendium[|compendium| - 1];
      Translated(compendium[..|compendium| - 1]) + (if last.msgstr != [] then [last] else [])
  }

  /** Exactly the compendium entries with a non-empty msgstr are copied candidates. */
  lemma {:induction false} TranslatedMembers(compendium: seq<Entry>)
    ensures forall e :: e in Translated(compendium) <==> e in compendium && e.msgstr != []
  {
    if compendium != [] {
      var init := compendium[..|compendium| - 1];
      TranslatedMembers(init);
      assert compendium == init + [compendium[|compendium| - 1]];
    }
  }

  lemma AppendAbsentSnoc(po: seq<Entry>, xs: seq<Entry>, x: Entry)
    ensures AppendAbsent(po, xs + [x]) ==
              if Contains(AppendAbsent(po, xs), x) then AppendAbsent(po, xs) else AppendAbsent(po, xs) + [x]
  {
    assert (xs + [x])[..|xs|] == xs;
  }

  /** Appends each translated compendium entry that the page catalog does not contain. */
  method CopyTranslated(po: seq<Entry>, compendium: seq<Entry>) returns (r: seq<Entry>)
    ensures r == AppendAbsent(po, Translated(compendium))
  {
    r := po;
    var i := 0;
    while i < |compendium|
      invariant 0 <= i <= |compendium|
      invariant r == AppendAbsent(po, Translated(compendium[..i]))
    {
      ghost var pre := compendium[..i];
      assert compendium[..i + 1] == pre + [compendium[i]];
      assert (pre + [compendium[i]])[..i] == pre;
      if !Contains(r, compendium[i]) && compendium[i].msgstr != [] {
        AppendAbsentSnoc(po, Translated(pre), compendium[i]);
        r := r + [compendium[i]];
      } else if compendium[i].msgstr != [] {
        AppendAbsentSnoc(po, Translated(pre), compendium[i]);
      } else {
        assert Translated(compendium[..i + 1]) == Translated(pre);
      }
      i := i + 1;
    }
    assert compendium[..i] == compendium;
  }

  // ---------------------------------------------------------------------------
  // Title and description (plugin.py:311-356)
  // ---------------------------------------------------------------------------

  /** What the title/description scan of the page catalog finds: the catalog with the
      matching entries made live, the msgstr of the last entry matching the title and of
      the last one matching the description (None when there is none), and the texts
      recorded as already translated. */
  datatype MetaMatch = MetaMatch(po: seq<Entry>, title: Option<string>, desc: Option<string>, msgstrs: seq<string>)

  /** `desc` is the page's meta description, `""` when it has none. */
  predicate IsMeta(e: Entry, title: string, desc: string)
  {
    e.msgid == title || (desc != [] && e.msgid == desc)
  }

  function MatchMeta(po: seq<Entry>, title: string, desc: string): MetaMatch
    decreases |po|
  {
    if po == [] then MetaMatch([], None, None, [])
    else
      var m := MatchMeta(po[..|po| - 1], title, desc);
      var e := po[|po| - 1];
      var isTitle := e.msgid == title;
      var isDesc := desc != [] && e.msgid == desc;
      MetaMatch(
        m.po + [if isTitle || isDesc then e.(obsolete := false) else e],
        if isTitle then Some(e.msgstr) else m.title,
        if isDesc then Some(e.msgstr) else m.desc,
        // the description records its msgid, not its msgstr (plugin.py:328-331)
        m.msgstrs + (if isTitle && e.msgstr != [] then [e.msgstr] else [])
                  + (if isDesc && e.msgstr != [] then [desc] else []))
  }

  /** The loop over `po` of plugin.py:311-356 (both branches: without a description the
      description test never fires). */
  method MatchMetadata(po: seq<Entry>, title: string, desc: string) returns (m: MetaMatch)
    ensures m == MatchMeta(po, title, desc)
  {
    m := MetaMatch([], None, None, []);
    var i := 0;
    while i < |po|
      invariant 0 <= i <= |po|
      invariant m == MatchMeta(po[..i], title, desc)
    {
      assert po[..i + 1][..i] == po[..i];
      var e := po[i];
      var entryTitle, entryDesc := m.title, m.desc;
      var msgstrs := m.msgstrs;
      if e.msgid == title {
        e := e.(obsolete := false);
        entryTitle := Some(e.msgstr);
        if e.msgstr != [] {
          msgstrs := msgstrs + [e.msgstr];
        }
      }
      if desc != [] && e.msgid == desc {
        e := e.(obsolete := false);
        entryDesc := Some(e.msgstr);
        if e.msgstr != [] {
          msgstrs := msgstrs + [desc];
        }
      }
      m := MetaMatch(m.po + [e], entryTitle, entryDesc, msgstrs);
      i := i + 1;
    }
    assert po[..i] == po;
  }

  /** The scan keeps every entry in place and only makes the title and description
      entries live; it finds the title (description) iff some entry has it as msgid, and
      reports the msgstr of the last such entry. */
  lemma MatchMetaSpec(po: seq<Entry>, title: string, desc: string)
    ensures var m := MatchMeta(po, title, desc);
      && |m.po| == |po|
      && (forall i :: 0 <= i < |po| ==>
            m.po[i] == if IsMeta(po[i], title, desc) then po[i].(obsolete := false) else po[i])
      && (m.title.None? <==> forall i :: 0 <= i < |po| ==> po[i].msgid != title)
      && (m.title.Some? ==> exists i :: 0 <= i < |po| && po[i].msgid == title && po[i].msgstr == m.title.value
                                      && forall j :: i < j < |po| ==> po[j].msgid != title)
      && (m.desc.None? <==> desc == [] || forall i :: 0 <= i < |po| ==> po[i].msgid != desc)
  {
    MatchMetaEntries(po, title, desc);
    MatchMetaTitle(po, title, desc);
    MatchMetaDesc(po, title, desc);
  }

  lemma {:induction false} MatchMetaEntries(po: seq<Entry>, title: string, desc: string)
    ensures var m := MatchMeta(po, title, desc);
      && |m.po| == |po|
      && (forall i :: 0 <= i < |po| ==>
            m.po[i] == if IsMeta(po[i], title, desc) then po[i].(obsolete := false) else po[i])
    decreases |po|
  {
    if po != [] {
      var init := po[..|po| - 1];
      MatchMetaEntries(init, title, desc);
      assert forall i :: 0 <= i < |init| ==> po[i] == init[i];
    }
  }

  /** The msgstr of the last entry with the msgid, obsolete or not. */
  function LastWith(po: seq<Entry>, msgid: string): Option<string>
    decreases |po|
  {
    if po == [] then None
    else if po[|po| - 1].msgid == msgid then Some(po[|po| - 1].msgstr)
    else LastWith(po[..|po| - 1], msgid)
  }

  /** The scan reports the last title entry and the last description entry. */
  lemma {:induction false} MatchMetaLast(po: seq<Entry>, title: string, desc: string)
    ensures MatchMeta(po, title, desc).title == LastWith(po, title)
    ensures MatchMeta(po, title, desc).desc == if desc == [] then None else LastWith(po, desc)
    decreases |po|
  {
    if po != [] {
      MatchMetaLast(po[..|po| - 1], title, desc);
    }
  }

  lemma {:induction false} LastWithSpec(po: seq<Entry>, msgid: string)
    ensures LastWith(po, msgid).None? <==> forall i :: 0 <= i < |po| ==> po[i].msgid != msgid
    ensures LastWith(po, msgid).Some? ==>
              exists i :: 0 <= i < |po| && po[i].msgid == msgid && po[i].msgstr == LastWith(po, msgid).value
                          && forall j :: i < j < |po| ==> po[j].msgid != msgid
    decreases |po|
  {
    if po != [] {
      var n := |po| - 1;
      var init := po[..n];
      if po[n].msgid == msgid {
        assert LastWith(po, msgid) == Some(po[n].msgstr);
      } else {
        LastWithSpec(init, msgid);
        assert LastWith(po, msgid) == LastWith(init, msgid);
        assert forall i :: 0 <= i < n ==> po[i] == init[i];
        if LastWith(init, msgid).Some? {
          var i :| 0 <= i < n && init[i].msgid == msgid && init[i].msgstr == LastWith(init, msgid).value
                   && forall j :: i < j < n ==> init[j].msgid != msgid;
          assert po[i] == init[i];
        }
      }
    }
  }

  lemma MatchMetaTitle(po: seq<Entry>, title: string, desc: string)
    ensures var m := MatchMeta(po, title, desc);
      && (m.title.None? <==> forall i :: 0 <= i < |po| ==> po[i].msgid != title)
      && (m.title.Some? ==> exists i :: 0 <= i < |po| && po[i].msgid == title && po[i].msgstr == m.title.value
                                      && forall j :: i < j < |po| ==> po[j].msgid != title)
  {
    MatchMetaLast(po, title, desc);
    LastWithSpec(po, title);
  }

  lemma MatchMetaDesc(po: seq<Entry>, title: string, desc: string)
    ensures var m := MatchMeta(po, title, desc);
      m.desc.None? <==> desc == [] || forall i :: 0 <= i < |po| ==> po[i].msgid != desc
  {
    MatchMetaLast(po, title, desc);
    LastWithSpec(po, desc);
  }

  // ---------------------------------------------------------------------------
  // Site settings in the compendium (plugin.py:358-371, 381-391)
  // ---------------------------------------------------------------------------

  /** A translatable site setting (`site_name`, `site_description`) and its configured value. */
  datatype Setting = Setting(name: string, value: string)

  function SettingFlag(name: string): string
  {
    "mdpo-" + name
  }

  predicate DistinctNames(settings: seq<Setting>)
  {
    forall i, j :: 0 <= i < j < |settings| ==> settings[i].name != settings[j].name
  }

  /** State of the scan over one compendium entry and the settings seen so far. */
  datatype Tagging = Tagging(entry: Entry, translated: map<string, string>, found: set<string>,
                             msgids: seq<string>, msgstrs: seq<string>)

  /** The inner step: the entry matches the setting's value. */
  function TagOne(t: Tagging, s: Setting): Tagging
  {
    if t.entry.msgid != s.value then t
    else
      var e := t.entry.(obsolete := false);
      var e' := if SettingFlag(s.name) in e.flags then e else e.(flags := e.flags + [SettingFlag(s.name)]);
      Tagging(e', t.translated[s.name := e'.msgstr], t.found + {s.name}, t.msgids + [s.value],
              if e'.msgstr != [] then t.msgstrs + [e'.msgstr] else t.msgstrs)
  }

  function TagAll(t: Tagging, settings: seq<Setting>): Tagging
    decreases |settings|
  {
    if settings == [] then t else TagOne(TagAll(t, settings[..|settings| - 1]), settings[|settings| - 1])
  }

  /** The scanned compendium entries and what the scan recorded. */
  datatype TagState = TagState(entries: seq<Entry>, translated: map<string, string>, found: set<string>,
                               msgids: seq<string>, msgstrs: seq<string>)

  function TagEntries(compendium: seq<Entry>, settings: seq<Setting>): TagState
    decreases |compendium|
  {
    if compendium == [] then TagState([], map[], {}, [], [])
    else
      var s := TagEntries(compendium[..|compendium| - 1], settings);
      var t := TagAll(Tagging(compendium[|compendium| - 1], s.translated, s.found, s.msgids, s.msgstrs), settings);
      TagState(s.entries + [t.entry], t.translated, t.found, t.msgids, t.msgstrs)
  }

  /** The nested loops of plugin.py:358-371. */
  method TagSettings(compendium: seq<Entry>, settings: seq<Setting>) returns (t: TagState)
    ensures t == TagEntries(compendium, settings)
  {
    t := TagState([], map[], {}, [], []);
    var i := 0;
    while i < |compendium|
      invariant 0 <= i <= |compendium|
      invariant t == TagEntries(compendium[..i], settings)
    {
      assert compendium[..i + 1][..i] == compendium[..i];
      var start := Tagging(compendium[i], t.translated, t.found, t.msgids, t.msgstrs);
      var cur := start;
      var j := 0;
      while j < |settings|
        invariant 0 <= j <= |settings|
        invariant cur == TagAll(start, settings[..j])
      {
        assert settings[..j + 1][..j] == settings[..j];
        var s := settings[j];
        if cur.entry.msgid == s.value {
          var e := cur.entry.(obsolete := false);
          if SettingFlag(s.name) !in e.flags {
            e := e.(flags := e.flags + [SettingFlag(s.name)]);
          }
          cur := Tagging(e, cur.translated[s.name := e.msgstr], cur.found + {s.name}, cur.msgids + [s.value],
                         if e.msgstr != [] then cur.msgstrs + [e.msgstr] else cur.msgstrs);
        }
        j := j + 1;
      }
      assert settings[..j] == settings;
      t := TagState(t.entries + [cur.entry], cur.translated, cur.found, cur.msgids, cur.msgstrs);
      i := i + 1;
    }
    assert compendium[..i] == compendium;
  }

  predicate NoDuplicateFlags(flags: seq<string>)
  {
    forall i, j :: 0 <= i < j < |flags| ==> flags[i] != flags[j]
  }

  /** Tagging one entry keeps its key and translation; an entry matched by some setting
      becomes live and carries the flag of every setting it matches, each flag at most once;
      an unmatched entry is left as it was; `found` gains exactly the matched settings. */
  lemma {:induction false} TagAllSpec(t: Tagging, settings: seq<Setting>)
    ensures var r := TagAll(t, settings);
      && r.entry.msgid == t.entry.msgid && r.entry.msgctxt == t.entry.msgctxt && r.entry.msgstr == t.entry.msgstr
      && ((exists k :: 0 <= k < |settings| && settings[k].value == t.entry.msgid) ==> !r.entry.obsolete)
      && (forall k :: 0 <= k < |settings| && settings[k].value == t.entry.msgid ==> SettingFlag(settings[k].name) in r.entry.flags)
      && ((forall k :: 0 <= k < |settings| ==> settings[k].value != t.entry.msgid) ==> r.entry == t.entry)
      && (NoDuplicateFlags(t.entry.flags) ==> NoDuplicateFlags(r.entry.flags))
      && (forall f :: f in t.entry.flags ==> f in r.entry.flags)
      && (forall n :: n in r.found <==> n in t.found || exists k :: 0 <= k < |settings| && settings[k].value == t.entry.msgid && settings[k].name == n)
      && (t.translated.Keys == t.found ==> r.translated.Keys == r.found)
      && (t.msgids <= r.msgids && t.msgstrs <= r.msgstrs)
    decreases |settings|
  {
    if settings != [] {
      var init := settings[..|settings| - 1];
      TagAllSpec(t, init);
      var last := settings[|settings| - 1];
      var m := TagAll(t, init);
      var r := TagAll(t, settings);
      assert r == TagOne(m, last);
      forall k | 0 <= k < |settings| && settings[k].value == t.entry.msgid
        ensures SettingFlag(settings[k].name) in r.entry.flags
      {
        if k < |settings| - 1 {
          assert settings[k] == init[k];
        }
      }
      if NoDuplicateFlags(t.entry.flags) && m.entry.msgid == last.value && SettingFlag(last.name) !in m.entry.flags {
        var fs := m.entry.flags + [SettingFlag(last.name)];
        forall i, j | 0 <= i < j < |fs| ensures fs[i] != fs[j] {
          if j == |fs| - 1 { assert fs[i] == m.entry.flags[i]; }
        }
      }
      forall n ensures n in r.found <==> n in t.found || exists k :: 0 <= k < |settings| && settings[k].value == t.entry.msgid && settings[k].name == n
      {
        if exists k :: 0 <= k < |init| && init[k].value == t.entry.msgid && init[k].name == n {
          var k :| 0 <= k < |init| && init[k].value == t.entry.msgid && init[k].name == n;
          assert settings[k] == init[k];
        }
        if exists k :: 0 <= k < |settings| && settings[k].value == t.entry.msgid && settings[k].name == n {
          var k :| 0 <= k < |settings| && settings[k].value == t.entry.msgid && settings[k].name == n;
          if k < |init| { assert init[k] == settings[k]; }
        }
      }
    }
  }

  /** Over the whole compendium: keys and translations are kept, every entry whose msgid
      is the value of some setting is live and flagged for each such setting (each flag at
      most once), every other entry is unchanged, and a setting is recorded as found iff
      some compendium entry has its value as msgid. */
  lemma TagEntriesSpec(compendium: seq<Entry>, settings: seq<Setting>)
    ensures var t := TagEntries(compendium, settings);
      && |t.entries| == |compendium|
      && (forall i :: 0 <= i < |compendium| ==>
            t.entries[i].msgid == compendium[i].msgid && t.entries[i].msgctxt == compendium[i].msgctxt
            && t.entries[i].msgstr == compendium[i].msgstr)
      && (forall i, k :: 0 <= i < |compendium| && 0 <= k < |settings| && settings[k].value == compendium[i].msgid ==>
            !t.entries[i].obsolete && SettingFlag(settings[k].name) in t.entries[i].flags)
      && (forall i :: 0 <= i < |compendium| && (forall k :: 0 <= k < |settings| ==> settings[k].value != compendium[i].msgid) ==>
            t.entries[i] == compendium[i])
      && (forall i :: 0 <= i < |compendium| && NoDuplicateFlags(compendium[i].flags) ==> NoDuplicateFlags(t.entries[i].flags))
      && (forall n :: n in t.found <==> exists i, k :: 0 <= i < |compendium| && 0 <= k < |settings|
                                          && settings[k].value == compendium[i].msgid && settings[k].name == n)
      && t.translated.Keys == t.found
  {
    TagEntriesEntries(compendium, settings);
    TagEntriesFound(compendium, settings);
  }

  /** The last entry of the compendium is tagged on its own. */
  lemma TagEntriesLast(compendium: seq<Entry>, settings: seq<Setting>)
    requires compendium != []
    ensures var init := compendium[..|compendium| - 1];
      var s0 := TagEntries(init, settings);
      var t := TagAll(Tagging(compendium[|compendium| - 1], s0.translated, s0.found, s0.msgids, s0.msgstrs), settings);
      TagEntries(compendium, settings) == TagState(s0.entries + [t.entry], t.translated, t.found, t.msgids, t.msgstrs)
  {
  }

  lemma {:induction false} TagEntriesEntries(compendium: seq<Entry>, settings: seq<Setting>)
    ensures var t := TagEntries(compendium, settings);
      && |t.entries| == |compendium|
      && (forall i :: 0 <= i < |compendium| ==>
            t.entries[i].msgid == compendium[i].msgid && t.entries[i].msgctxt == compendium[i].msgctxt
            && t.entries[i].msgstr == compendium[i].msgstr)
      && (forall i, k :: 0 <= i < |compendium| && 0 <= k < |settings| && settings[k].value == compendium[i].msgid ==>
            !t.entries[i].obsolete && SettingFlag(settings[k].name) in t.entries[i].flags)
      && (forall i :: 0 <= i < |compendium| && (forall k :: 0 <= k < |settings| ==> settings[k].value != compendium[i].msgid) ==>
            t.entries[i] == compendium[i])
      && (forall i :: 0 <= i < |compendium| && NoDuplicateFlags(compendium[i].flags) ==> NoDuplicateFlags(t.entries[i].flags))
    decreases |compendium|
  {
    if compendium != [] {
      var init := compendium[..|compendium| - 1];
      var last := compendium[|compendium| - 1];
      TagEntriesEntries(init, settings);
      var s0 := TagEntries(init, settings);
      var start := Tagging(last, s0.translated, s0.found, s0.msgids, s0.msgstrs);
      TagAllSpec(start, settings);
      TagEntriesLast(compendium, settings);
      var t := TagEntries(compendium, settings);
      forall i | 0 <= i < |compendium| - 1 ensures compendium[i] == init[i] && t.entries[i] == s0.entries[i] {}
    }
  }

  lemma {:induction false} TagEntriesFound(compendium: seq<Entry>, settings: seq<Setting>)
    ensures var t := TagEntries(compendium, settings);
      && (forall n :: n in t.found <==> exists i, k :: 0 <= i < |compendium| && 0 <= k < |settings|
                                          && settings[k].value == compendium[i].msgid && settings[k].name == n)
      && t.translated.Keys == t.found
    decreases |compendium|
  {
    if compendium != [] {
      var init := compendium[..|compendium| - 1];
      var last := compendium[|compendium| - 1];
      TagEntriesFound(init, settings);
      var s0 := TagEntries(init, settings);
      var start := Tagging(last, s0.translated, s0.found, s0.msgids, s0.msgstrs);
      TagAllSpec(start, settings);
      TagEntriesLast(compendium, settings);
      var t := TagEntries(compendium, settings);
      forall n ensures n in t.found <==> exists i, k :: 0 <= i < |compendium| && 0 <= k < |settings|
                                          && settings[k].value == compendium[i].msgid && settings[k].name == n
      {
        if exists i, k :: 0 <= i < |init| && 0 <= k < |settings| && settings[k].value == init[i].msgid && settings[k].name == n {
          var i, k :| 0 <= i < |init| && 0 <= k < |settings| && settings[k].value == init[i].msgid && settings[k].name == n;
          assert compendium[i] == init[i];
        }
        if exists i, k :: 0 <= i < |compendium| && 0 <= k < |settings| && settings[k].value == compendium[i].msgid && settings[k].name == n {
          var i, k :| 0 <= i < |compendium| && 0 <= k < |settings| && settings[k].value == compendium[i].msgid && settings[k].name == n;
          if i < |init| { assert compendium[i] == init[i]; }
        }
      }
    }
  }

  /** The entry created for a setting no compendium entry translates (plugin.py:383-390). */
  function SettingEntry(s: Setting): Entry
  {
    Entry(s.value, None, "", false, [SettingFlag(s.name)])
  }

  /** Each setting not found is inserted at the front, so they end up in reverse order. */
  function InsertMissing(compendium: seq<Entry>, settings: seq<Setting>, found: set<string>): seq<Entry>
    decreases |settings|
  {
    if settings == [] then compendium
    else
      var c := InsertMissing(compendium, settings[..|settings| - 1], found);
      var s := settings[|settings| - 1];
      if s.name in found then c else [SettingEntry(s)] + c
  }

  method InsertMissingSettings(compendium: seq<Entry>, settings: seq<Setting>, found: set<string>) returns (r: seq<Entry>)
    ensures r == InsertMissing(compendium, settings, found)
  {
    r := compendium;
    var j := 0;
    while j < |settings|
      invariant 0 <= j <= |settings|
      invariant r == InsertMissing(compendium, settings[..j], found)
    {
      assert settings[..j + 1][..j] == settings[..j];
      if settings[j].name !in found {
        r := [SettingEntry(settings[j])] + r;
      }
      j := j + 1;
    }
    assert settings[..j] == settings;
  }

  /** The entries created for the settings not found, newest first. */
  function MissingEntries(settings: seq<Setting>, found: set<string>): seq<Entry>
    decreases |settings|
  {
    if settings == [] then []
    else
      var s := settings[|settings| - 1];
      (if s.name in found then [] else [SettingEntry(s)]) + MissingEntries(settings[..|settings| - 1], found)
  }

  /** The old compendium follows the inserted entries unchanged, and every setting not
      found has a live entry of its own, flagged for it, among the inserted ones. */
  lemma {:induction false} InsertMissingSpec(compendium: seq<Entry>, settings: seq<Setting>, found: set<string>)
    ensures InsertMissing(compendium, settings, found) == MissingEntries(settings, found) + compendium
    ensures forall k :: 0 <= k < |settings| && settings[k].name !in found ==>
              SettingEntry(settings[k]) in MissingEntries(settings, found)
    decreases |settings|
  {
    if settings != [] {
      var init := settings[..|settings| - 1];
      InsertMissingSpec(compendium, init, found);
      forall k | 0 <= k < |settings| && settings[k].name !in found
        ensures SettingEntry(settings[k]) in MissingEntries(settings, found)
      {
        if k < |init| {
          assert settings[k] == init[k];
        }
      }
    }
  }

  // ---------------------------------------------------------------------------
  // The whole per-language merge of one page (plugin.py:288-397)
  // ---------------------------------------------------------------------------

  /** A live entry with this msgid. */
  predicate HasLive(po: seq<Entry>, msgid: string)
  {
    exists i :: 0 <= i < |po| && po[i].msgid == msgid && !po[i].obsolete
  }

  /** The page catalog and the compendium after the merge, the title, description and
      setting translations found, and the msgids and msgstrs recorded for the page. */
  datatype PageMergeResult = PageMergeResult(po: seq<Entry>, compendium: seq<Entry>,
                                             title: Option<string>, desc: Option<string>,
                                             settings: map<string, string>,
                                             msgids: seq<string>, msgstrs: seq<string>)

  lemma MembersSurviveMatch(po: seq<Entry>, title: string, desc: string, e: Entry)
    requires Contains(po, e)
    ensures Contains(MatchMeta(po, title, desc).po, e)
  {
    MatchMetaSpec(po, title, desc);
    var i :| 0 <= i < |po| && !po[i].obsolete && SameKey(po[i], e);
    assert SameKey(MatchMeta(po, title, desc).po[i], e);
  }

  lemma LiveSurvivesCopy(po: seq<Entry>, xs: seq<Entry>, msgid: string)
    requires HasLive(po, msgid)
    ensures HasLive(AppendAbsent(po, xs), msgid)
  {
    AppendAbsentExtends(po, xs);
    var i :| 0 <= i < |po| && po[i].msgid == msgid && !po[i].obsolete;
    assert AppendAbsent(po, xs)[i] == po[i];
  }

  lemma MetaLive(po: seq<Entry>, title: string, desc: string, msgid: string)
    requires msgid == title || (desc != [] && msgid == desc)
    requires exists i :: 0 <= i < |po| && po[i].msgid == msgid
    ensures HasLive(MatchMeta(po, title, desc).po, msgid)
  {
    MatchMetaSpec(po, title, desc);
    var i :| 0 <= i < |po| && po[i].msgid == msgid;
    assert MatchMeta(po, title, desc).po[i].msgid == msgid;
  }

  /** Setting-coverage of a compendium. */
  predicate SettingsCovered(compendium: seq<Entry>, settings: seq<Setting>)
  {
    forall k :: 0 <= k < |settings| ==>
      exists i :: 0 <= i < |compendium| && compendium[i].msgid == settings[k].value
                  && !compendium[i].obsolete && SettingFlag(settings[k].name) in compendium[i].flags
  }

  /** The page-catalog half of the merge (plugin.py:288-356, 373-379): extraction merged,
      title and description matched, and the missing ones inserted at the front (the
      description first, so that the title ends up before it). */
  method PrepareCatalog(po0: seq<Entry>, extracted: seq<Entry>, title: string, desc: string)
    returns (po: seq<Entry>, meta: MetaMatch)
    ensures meta == MatchMeta(AppendAbsent(po0, extracted), title, desc)
    ensures forall e :: e in extracted && !e.obsolete ==> Contains(po, e)
    ensures HasLive(po, title) && (desc != [] ==> HasLive(po, desc))
    ensures po == (if meta.title.None? then [NewEntry(title)] else [])
                  + (if desc != [] && meta.desc.None? then [NewEntry(desc)] else [])
                  + meta.po
  {
    po := MergeExtracted(po0, extracted);
    AppendAbsentCovers(po0, extracted);
    ghost var merged := po;
    meta := MatchMetadata(po, title, desc);
    MatchKeeps(merged, extracted, title, desc);
    po := InsertMeta(meta.po, title, desc, meta.title.None?, desc != [] && meta.desc.None?);
  }

  /** The scan keeps the extracted messages and leaves a found title or description live. */
  lemma MatchKeeps(merged: seq<Entry>, extracted: seq<Entry>, title: string, desc: string)
    requires forall e :: e in extracted && !e.obsolete ==> Contains(merged, e)
    ensures var m := MatchMeta(merged, title, desc);
      && (forall e :: e in extracted && !e.obsolete ==> Contains(m.po, e))
      && (m.title.Some? ==> HasLive(m.po, title))
      && (desc != [] && m.desc.Some? ==> HasLive(m.po, desc))
  {
    var m := MatchMeta(merged, title, desc);
    forall e | e in extracted && !e.obsolete ensures Contains(m.po, e) {
      MembersSurviveMatch(merged, title, desc, e);
    }
    MatchMetaTitle(merged, title, desc);
    MatchMetaDesc(merged, title, desc);
    if m.title.Some? {
      MetaLive(merged, title, desc, title);
    }
    if desc != [] && m.desc.Some? {
      MetaLive(merged, title, desc, desc);
    }
  }

  /** The description, then the title, inserted at the front when the scan did not find
      them (plugin.py:332-338, 373-379). */
  method InsertMeta(base: seq<Entry>, title: string, desc: string, missingTitle: bool, missingDesc: bool)
    returns (po: seq<Entry>)
    ensures po == (if missingTitle then [NewEntry(title)] else []) + (if missingDesc then [NewEntry(desc)] else []) + base
    ensures forall e :: Contains(base, e) ==> Contains(po, e)
    ensures forall m :: HasLive(base, m) ==> HasLive(po, m)
    ensures missingTitle ==> HasLive(po, title)
    ensures missingDesc ==> HasLive(po, desc)
  {
    po := base;
    if missingDesc {
      po := [NewEntry(desc)] + po;
    }
    if missingTitle {
      po := [NewEntry(title)] + po;
    }
    ghost var prefix := (if missingTitle then [NewEntry(title)] else []) + (if missingDesc then [NewEntry(desc)] else []);
    assert po == prefix + base;
    forall e | Contains(base, e) ensures Contains(po, e) {
      PrependKeeps(prefix, base, e);
    }
    forall m | HasLive(base, m) ensures HasLive(po, m) {
      PrependKeepsLive(prefix, base, m);
    }
    if missingTitle {
      assert po[0].msgid == title;
    }
    if missingDesc {
      assert po[|prefix| - 1].msgid == desc;
    }
  }

  /** Entries inserted in front keep the catalog's members. */
  lemma PrependKeeps(prefix: seq<Entry>, po: seq<Entry>, e: Entry)
    requires Contains(po, e)
    ensures Contains(prefix + po, e)
  {
    var i :| 0 <= i < |po| && !po[i].obsolete && SameKey(po[i], e);
    assert (prefix + po)[|prefix| + i] == po[i];
  }

  lemma PrependKeepsLive(prefix: seq<Entry>, po: seq<Entry>, msgid: string)
    requires HasLive(po, msgid)
    ensures HasLive(prefix + po, msgid)
  {
    var i :| 0 <= i < |po| && po[i].msgid == msgid && !po[i].obsolete;
    assert (prefix + po)[|prefix| + i] == po[i];
  }

  /** The old compendium entries follow the new ones, in order, with their keys and translations. */
  predicate KeepsCompendium(compendium: seq<Entry>, compendium0: seq<Entry>)
  {
    |compendium0| <= |compendium|
    && var off := |compendium| - |compendium0|;
       forall i :: 0 <= i < |compendium0| ==>
         SameKey(compendium[off + i], compendium0[i]) && compendium[off + i].msgstr == compendium0[i].msgstr
  }

  /** After tagging and inserting the missing settings, every setting is covered and the
      old compendium is kept. */
  lemma CompendiumSettings(compendium0: seq<Entry>, settings: seq<Setting>)
    requires DistinctNames(settings)
    ensures var tag := TagEntries(compendium0, settings);
      var compendium := MissingEntries(settings, tag.found) + tag.entries;
      SettingsCovered(compendium, settings) && KeepsCompendium(compendium, compendium0)
  {
    CompendiumCovered(compendium0, settings);
    CompendiumKept(compendium0, settings);
  }

  lemma CompendiumCovered(compendium0: seq<Entry>, settings: seq<Setting>)
    requires DistinctNames(settings)
    ensures var tag := TagEntries(compendium0, settings);
      SettingsCovered(MissingEntries(settings, tag.found) + tag.entries, settings)
  {
    var tag := TagEntries(compendium0, settings);
    TagEntriesEntries(compendium0, settings);
    TagEntriesFound(compendium0, settings);
    InsertMissingSpec(tag.entries, settings, tag.found);
    CoveredByParts(MissingEntries(settings, tag.found), tag.entries, compendium0, settings, tag.found);
  }

  /** Coverage from its two sources: the tagged old entries and the inserted ones. */
  lemma CoveredByParts(missing: seq<Entry>, entries: seq<Entry>, compendium0: seq<Entry>, settings: seq<Setting>,
                       found: set<string>)
    requires DistinctNames(settings)
    requires |entries| == |compendium0|
    requires forall i :: 0 <= i < |compendium0| ==> entries[i].msgid == compendium0[i].msgid
    requires forall i, k :: 0 <= i < |compendium0| && 0 <= k < |settings| && settings[k].value == compendium0[i].msgid ==>
               !entries[i].obsolete && SettingFlag(settings[k].name) in entries[i].flags
    requires forall n :: n in found ==> exists i, k :: 0 <= i < |compendium0| && 0 <= k < |settings|
                                          && settings[k].value == compendium0[i].msgid && settings[k].name == n
    requires forall k :: 0 <= k < |settings| && settings[k].name !in found ==> SettingEntry(settings[k]) in missing
    ensures SettingsCovered(missing + entries, settings)
  {
    var compendium := missing + entries;
    forall k | 0 <= k < |settings|
      ensures exists i :: 0 <= i < |compendium| && compendium[i].msgid == settings[k].value
                          && !compendium[i].obsolete && SettingFlag(settings[k].name) in compendium[i].flags
    {
      if settings[k].name in found {
        var i, k' :| 0 <= i < |compendium0| && 0 <= k' < |settings|
                     && settings[k'].value == compendium0[i].msgid && settings[k'].name == settings[k].name;
        assert k' == k;
        assert compendium[|missing| + i] == entries[i];
        assert compendium[|missing| + i].msgid == settings[k].value;
      } else {
        var i :| 0 <= i < |missing| && missing[i] == SettingEntry(settings[k]);
        assert compendium[i] == missing[i];
        assert SettingFlag(settings[k].name) in compendium[i].flags;
      }
    }
    assert forall k :: 0 <= k < |settings| ==>
      exists i :: 0 <= i < |compendium| && compendium[i].msgid == settings[k].value
                  && !compendium[i].obsolete && SettingFlag(settings[k].name) in compendium[i].flags;
  }

  lemma CompendiumKept(compendium0: seq<Entry>, settings: seq<Setting>)
    ensures var tag := TagEntries(compendium0, settings);
      KeepsCompendium(MissingEntries(settings, tag.found) + tag.entries, compendium0)
  {
    var tag := TagEntries(compendium0, settings);
    TagEntriesEntries(compendium0, settings);
    KeptByParts(MissingEntries(settings, tag.found), tag.entries, compendium0);
  }

  lemma KeptByParts(missing: seq<Entry>, entries: seq<Entry>, compendium0: seq<Entry>)
    requires |entries| == |compendium0|
    requires forall i :: 0 <= i < |compendium0| ==>
               entries[i].msgid == compendium0[i].msgid && entries[i].msgctxt == compendium0[i].msgctxt
               && entries[i].msgstr == compendium0[i].msgstr
    ensures KeepsCompendium(missing + entries, compendium0)
  {
    var compendium := missing + entries;
    forall i | 0 <= i < |compendium0|
      ensures SameKey(compendium[|missing| + i], compendium0[i]) && compendium[|missing| + i].msgstr == compendium0[i].msgstr
    {
      assert compendium[|missing| + i] == entries[i];
    }
  }

  /** The compendium half of the merge (plugin.py:358-371, 381-391). */
  method PrepareCompendium(compendium0: seq<Entry>, settings: seq<Setting>)
    returns (compendium: seq<Entry>, tag: TagState)
    requires DistinctNames(settings)
    ensures tag == TagEntries(compendium0, settings)
    ensures compendium == MissingEntries(settings, tag.found) + tag.entries
    ensures SettingsCovered(compendium, settings) && KeepsCompendium(compendium, compendium0)
  {
    tag := TagSettings(compendium0, settings);
    compendium := InsertMissingSettings(tag.entries, settings, tag.found);
    InsertMissingSpec(tag.entries, settings, tag.found);
    CompendiumSettings(compendium0, settings);
  }

  /** One page in one language, from the catalog on disk (`po0`, empty when there is
      none), the messages extracted from the page, the compendium on disk, the page
      title, its meta description (`""` when it has none) and the site settings to
      translate (the keys of a dict, so their names are distinct). */
  method MergePage(po0: seq<Entry>, extracted: seq<Entry>, compendium0: seq<Entry>,
                   title: string, desc: string, settings: seq<Setting>) returns (res: PageMergeResult)
    requires DistinctNames(settings)
    // every message extracted from the page and live in it is in the page catalog
    ensures forall e :: e in extracted && !e.obsolete ==> Contains(res.po, e)
    // and so is every live translated entry of the compendium
    ensures forall e :: e in res.compendium && !e.obsolete && e.msgstr != [] ==> Contains(res.po, e)
    // the title (and the description, if any) has a live entry, so the page always has a message
    ensures HasLive(res.po, title) && (desc != [] ==> HasLive(res.po, desc))
    ensures PoMessagesStats(res.po).total >= 1
    // the title and description translations come from the last matching entries
    ensures res.title == MatchMeta(AppendAbsent(po0, extracted), title, desc).title
    ensures res.desc == MatchMeta(AppendAbsent(po0, extracted), title, desc).desc
    // a title or description inserted untranslated is recorded among the msgids
    ensures res.title.None? ==> title in res.msgids
    ensures desc != [] && res.desc.None? ==> desc in res.msgids
    // every site setting has a live compendium entry with its value as msgid, flagged for it
    ensures SettingsCovered(res.compendium, settings)
    // the compendium keeps its entries, in order and with their keys, after the new ones
    ensures KeepsCompendium(res.compendium, compendium0)
  {
    var po, meta := PrepareCatalog(po0, extracted, title, desc);
    var msgids: seq<string> := if desc != [] && meta.desc.None? then [desc] else [];
    var compendium, tag := PrepareCompendium(compendium0, settings);
    msgids := msgids + tag.msgids + (if meta.title.None? then [title] else []);
    var msgstrs := meta.msgstrs + tag.msgstrs;
    ghost var beforeCopy := po;
    po := CopyTranslated(po, compendium);
    CopyKeepsCatalog(beforeCopy, compendium, extracted, title, desc);
    res := PageMergeResult(po, compendium, meta.title, meta.desc, tag.translated, msgids, msgstrs);
  }

  /** What copying the translated compendium entries preserves and adds. */
  lemma CopyKeepsCatalog(po: seq<Entry>, compendium: seq<Entry>, extracted: seq<Entry>, title: string, desc: string)
    requires forall e :: e in extracted && !e.obsolete ==> Contains(po, e)
    requires HasLive(po, title) && (desc != [] ==> HasLive(po, desc))
    ensures var r := AppendAbsent(po, Translated(compendium));
      && (forall e :: e in extracted && !e.obsolete ==> Contains(r, e))
      && (forall e :: e in compendium && !e.obsolete && e.msgstr != [] ==> Contains(r, e))
      && HasLive(r, title) && (desc != [] ==> HasLive(r, desc))
      && PoMessagesStats(r).total >= 1
  {
    var r := AppendAbsent(po, Translated(compendium));
    AppendAbsentCovers(po, Translated(compendium));
    TranslatedMembers(compendium);
    AppendAbsentExtends(po, Translated(compendium));
    forall e | e in extracted && !e.obsolete ensures Contains(r, e) {
      ContainsInExtension(po, r, e);
    }
    LiveSurvivesCopy(po, Translated(compendium), title);
    if desc != [] {
      LiveSurvivesCopy(po, Translated(compendium), desc);
    }
    var t :| 0 <= t < |r| && r[t].msgid == title && !r[t].obsolete;
    LiveEntryCounts(r, t);
  }
}
