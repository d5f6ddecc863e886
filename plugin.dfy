/** The plugin's build events (mkdocs_mdpo_plugin/plugin.py): the languages to translate
    into, the translation of each page and of the navigation section titles, the completion
    gate, and the end-of-build pass over the catalogs. */
module Plugin {
  import opened Wrappers
  import opened Catalog
  import opened PageMerge
  import opened CompletionGate
  import opened Dedup
  import opened Translations
  import opened TreeProcessors

  /** The failures the model keeps: `compendium_files[language]` of a language that never
      had a compendium, a catalog file that is not on disk, the gate's failures, and the
      `save` of an excluded page's catalog, a plain list, during the promotion of the
      language's repeated msgids (plugin.py:809). */
  datatype PluginError =
    | MissingCompendium(language: string) | MissingCatalog(path: PoPath) | GateFailed(error: GateError)
    | SaveWithoutFile(language: string)

  /** `_translation_languages`: the configured languages other than the default one. */
  function TranslationLanguages(languages: seq<string>, defaultLanguage: string): (r: seq<string>)
    ensures forall l :: l in r <==> l in languages && l != defaultLanguage
    ensures |r| <= |languages|
    decreases |languages|
  {
    if languages == [] then []
    else
      var last := languages[|languages| - 1];
      assert languages == languages[..|languages| - 1] + [last];
      TranslationLanguages(languages[..|languages| - 1], defaultLanguage) + (if last != defaultLanguage then [last] else [])
  }

  /** What `on_page_markdown` uses of a documentation page: its source path, its title, its
      meta description (`""` when it has none), its Markdown and the entries Md2Po extracts. */
  datatype SourcePage = SourcePage(srcPath: string, title: string, desc: string, markdown: string, extracted: seq<Entry>)

  /** What Po2Md makes of the page with the page and compendium catalogs: the translated
      Markdown, the entries it translated and the msgids of the entries it disabled. */
  datatype Po2MdOutput = Po2MdOutput(content: string, translated: seq<Entry>, disabled: seq<string>)

  /** The entries added to Po2Md's translated entries before the translation: the
      description (when there is one) and the title, both untranslated. */
  function MetaEntries(title: string, desc: string): (r: seq<Entry>)
    ensures Msgids(r) == (if desc != [] then [desc, title] else [title])
    ensures forall i :: 0 <= i < |r| ==> r[i].msgstr == []
  {
    (if desc != [] then [NewEntry(desc)] else []) + [NewEntry(title)]
  }

  /** The translation a navigation section title gets from the compendium: the msgstr of
      the first entry with the title as msgid, when it is not empty. */
  function SectionTitle(compendium: seq<Entry>, title: string): Option<string>
  {
    if HasMsgid(compendium, title) && compendium[FirstIndex(compendium, title)].msgstr != [] then
      Some(compendium[FirstIndex(compendium, title)].msgstr)
    else None
  }

  /** A section title translates to a non-empty msgstr of an entry with that msgid, with no
      entry before it holding the title; it stays untranslated when there is no such entry
      or the first one has no translation. */
  lemma SectionTitleSpec(compendium: seq<Entry>, title: string)
    ensures var t := SectionTitle(compendium, title);
      && (t.Some? ==> exists i :: 0 <= i < |compendium| && compendium[i].msgid == title && compendium[i].msgstr == t.value
                                  && t.value != [] && forall k :: 0 <= k < i ==> compendium[k].msgid != title)
      && (t.None? <==> forall i :: (0 <= i < |compendium| && compendium[i].msgid == title
                                    && (forall k :: 0 <= k < i ==> compendium[k].msgid != title)) ==> compendium[i].msgstr == [])
  {
    if HasMsgid(compendium, title) {
      var i := FirstIndex(compendium, title);
      forall j | 0 <= j < |compendium| && compendium[j].msgid == title && (forall k :: 0 <= k < j ==> compendium[k].msgid != title)
        ensures j == i
      {
      }
    }
  }

  /** The entry inserted for an unknown title shadows any later one: looking the title up
      again finds it untranslated. */
  lemma SectionTitleAfterInsert(compendium: seq<Entry>, title: string)
    ensures HasMsgid([NewEntry(title)] + compendium, title)
    ensures SectionTitle([NewEntry(title)] + compendium, title).None?
  {
    var c := [NewEntry(title)] + compendium;
    assert c[0].msgid == title;
    FirstIndexIs(c, title, 0);
  }

  /** Each translation object is listed once in `translations.all`, under its own language,
      and its catalog, when it has one, is a page catalog of that language. */
  ghost predicate Separate(all: map<string, seq<Translation>>)
  {
    && (forall l, i, l', i' :: l in all && l' in all && 0 <= i < |all[l]| && 0 <= i' < |all[l']| && all[l][i] == all[l'][i']
          ==> l == l' && i == i')
    && (forall l, i :: l in all && 0 <= i < |all[l]| ==>
          all[l][i].language == l && (all[l][i].poPath.Some? ==> all[l][i].poPath.value.PageFile? && all[l][i].poPath.value.language == l))
  }

  /** Listing a translation that is not listed yet keeps the listing separate. */
  lemma SeparateAppend(all: map<string, seq<Translation>>, tr: Translation)
    requires Separate(all)
    requires forall l, i :: l in all && 0 <= i < |all[l]| ==> all[l][i] != tr
    requires tr.poPath.Some? ==> tr.poPath.value.PageFile? && tr.poPath.value.language == tr.language
    ensures Separate(all[tr.language := (if tr.language in all then all[tr.language] else []) + [tr]])
  {
    var l0 := tr.language;
    var prior := if l0 in all then all[l0] else [];
    var all' := all[l0 := prior + [tr]];
    forall l, i | l in all' && 0 <= i < |all'[l]|
      ensures all'[l][i] == (if l == l0 && i == |prior| then tr else all[l][i])
    {
    }
  }

  /** The translations listed under one language are distinct objects of that language. */
  lemma SeparateLanguage(all: map<string, seq<Translation>>, language: string)
    requires Separate(all) && language in all
    ensures forall k, k' :: 0 <= k < k' < |all[language]| ==> all[language][k] != all[language][k']
    ensures forall k :: 0 <= k < |all[language]| && all[language][k].poPath.Some? ==>
              all[language][k].poPath.value.PageFile? && all[language][k].poPath.value.language == language
  {
  }

  /** `d2` differs from `d1` only in catalogs of `language`. */
  ghost predicate SameOutside(d1: map<PoPath, seq<Entry>>, d2: map<PoPath, seq<Entry>>, language: string)
  {
    forall p: PoPath :: p.language != language ==> (p in d1 <==> p in d2) && (p in d1 ==> d1[p] == d2[p])
  }

  /** The catalogs of a language's translations saved one after the other, each at its
      path; a translation without a path (an excluded page) is skipped. */
  function SavePages(d: map<PoPath, seq<Entry>>, paths: seq<Option<PoPath>>, pos: seq<seq<Entry>>): map<PoPath, seq<Entry>>
    requires |paths| == |pos|
  {
    if paths == [] then d
    else
      var d' := SavePages(d, paths[..|paths| - 1], pos[..|pos| - 1]);
      if paths[|paths| - 1].Some? then d'[paths[|paths| - 1].value := pos[|pos| - 1]] else d'
  }

  /** Saving one more catalog. */
  lemma SavePagesStep(d: map<PoPath, seq<Entry>>, paths: seq<Option<PoPath>>, pos: seq<seq<Entry>>, j: nat)
    requires |paths| == |pos| && j < |paths|
    ensures SavePages(d, paths[..j + 1], pos[..j + 1])
            == if paths[j].Some? then SavePages(d, paths[..j], pos[..j])[paths[j].value := pos[j]]
               else SavePages(d, paths[..j], pos[..j])
  {
    assert paths[..j + 1][..j] == paths[..j] && pos[..j + 1][..j] == pos[..j];
  }

  /** A file no translation is saved to keeps its contents. */
  lemma {:induction false} SavePagesOutside(d: map<PoPath, seq<Entry>>, paths: seq<Option<PoPath>>, pos: seq<seq<Entry>>, p: PoPath)
    requires |paths| == |pos|
    requires forall k :: 0 <= k < |paths| ==> paths[k] != Some(p)
    ensures (p in SavePages(d, paths, pos) <==> p in d) && (p in d ==> SavePages(d, paths, pos)[p] == d[p])
  {
    if paths != [] {
      SavePagesOutside(d, paths[..|paths| - 1], pos[..|pos| - 1], p);
    }
  }

  /** The last translation saved to a file decides its contents. */
  lemma {:induction false} SavePagesLast(d: map<PoPath, seq<Entry>>, paths: seq<Option<PoPath>>, pos: seq<seq<Entry>>, j: int)
    requires |paths| == |pos| && 0 <= j < |paths| && paths[j].Some?
    requires forall k :: j < k < |paths| ==> paths[k] != paths[j]
    ensures paths[j].value in SavePages(d, paths, pos) && SavePages(d, paths, pos)[paths[j].value] == pos[j]
  {
    if j < |paths| - 1 {
      SavePagesLast(d, paths[..|paths| - 1], pos[..|pos| - 1], j);
    }
  }

  /** Saving reaches a file the same way whatever the other files hold. */
  lemma {:induction false} SavePagesAt(d1: map<PoPath, seq<Entry>>, d2: map<PoPath, seq<Entry>>,
                                       paths: seq<Option<PoPath>>, pos: seq<seq<Entry>>, p: PoPath)
    requires |paths| == |pos|
    requires (p in d1 <==> p in d2) && (p in d1 ==> d1[p] == d2[p])
    ensures var s1, s2 := SavePages(d1, paths, pos), SavePages(d2, paths, pos);
      (p in s1 <==> p in s2) && (p in s1 ==> s1[p] == s2[p])
  {
    if paths != [] {
      SavePagesAt(d1, d2, paths[..|paths| - 1], pos[..|pos| - 1], p);
    }
  }

  /** The finalised compendium is saved, or its file removed when it has no entry left
      (plugin.py:828-832). */
  function SaveCompendium(d: map<PoPath, seq<Entry>>, language: string, compendium: seq<Entry>): (r: map<PoPath, seq<Entry>>)
    ensures compendium != [] ==> CompendiumFile(language) in r && r[CompendiumFile(language)] == compendium
    ensures compendium == [] ==> CompendiumFile(language) !in r
    ensures forall p :: p != CompendiumFile(language) ==> (p in r <==> p in d) && (p in d ==> r[p] == d[p])
  {
    if |compendium| > 0 then d[CompendiumFile(language) := compendium] else d - {CompendiumFile(language)}
  }

  /** What the end-of-build pass reads of a language's translations. */
  function Snapshot(trs: seq<Translation>): (r: seq<PageCatalog>)
    reads trs
    ensures |r| == |trs|
    ensures forall j :: 0 <= j < |trs| ==>
      r[j] == PageCatalog(trs[j].po, trs[j].poPath, trs[j].poMsgids, trs[j].translatedMsgids)
  {
    seq(|trs|, j requires 0 <= j < |trs| reads trs => PageCatalog(trs[j].po, trs[j].poPath, trs[j].poMsgids, trs[j].translatedMsgids))
  }

  /** The two disks hold the same file at `p`, or both lack it. */
  ghost predicate Agree(d1: map<PoPath, seq<Entry>>, d2: map<PoPath, seq<Entry>>, p: PoPath)
  {
    (p in d1 <==> p in d2) && (p in d1 ==> d1[p] == d2[p])
  }

  /** The files of `language` after `on_post_build`, from the disk before it: the
      translations' catalogs saved (plugin.py:761-767), then the compendium finalised and
      the catalogs stripped and marked (plugin.py:770-838). */
  ghost function AfterBuild(d0: map<PoPath, seq<Entry>>, language: string, pages: seq<PageCatalog>): map<PoPath, seq<Entry>>
    requires CompendiumFile(language) in d0
  {
    FinishedDisk(SavePages(d0, Paths(pages), Catalogs(pages)), language, d0[CompendiumFile(language)], pages)
  }

  /** The files of `language` after the pass of plugin.py:770-838, which read the
      compendium `compendium0`. */
  ghost function FinishedDisk(d: map<PoPath, seq<Entry>>, language: string, compendium0: seq<Entry>,
                              pages: seq<PageCatalog>): map<PoPath, seq<Entry>>
  {
    var f := Finish(compendium0, pages);
    SavePages(SaveCompendium(d, language, f.compendium), Paths(pages), f.pos)
  }

  /** Finishing a language reaches a file the same way from two disks that agree on it. */
  lemma FinishAt(d1: map<PoPath, seq<Entry>>, d2: map<PoPath, seq<Entry>>, language: string, compendium0: seq<Entry>,
                 pages: seq<PageCatalog>, p: PoPath)
    requires Agree(d1, d2, p)
    ensures Agree(FinishedDisk(d1, language, compendium0, pages), FinishedDisk(d2, language, compendium0, pages), p)
  {
    var f := Finish(compendium0, pages);
    SavePagesAt(SaveCompendium(d1, language, f.compendium), SaveCompendium(d2, language, f.compendium), Paths(pages), f.pos, p);
  }

  /** Saving the catalogs and then finishing the language, from a disk that agrees with
      the saved one, give the files of `AfterBuild`. */
  lemma AfterBuildAt(d0: map<PoPath, seq<Entry>>, saved: map<PoPath, seq<Entry>>, d: map<PoPath, seq<Entry>>,
                     language: string, pages: seq<PageCatalog>, p: PoPath)
    requires CompendiumFile(language) in d0 && Agree(d0, saved, CompendiumFile(language))
    requires Agree(saved, SavePages(d0, Paths(pages), Catalogs(pages)), p)
    requires Agree(d, FinishedDisk(saved, language, saved[CompendiumFile(language)], pages), p)
    ensures Agree(d, AfterBuild(d0, language, pages), p)
  {
    FinishAt(saved, SavePages(d0, Paths(pages), Catalogs(pages)), language, d0[CompendiumFile(language)], pages, p);
  }

  /** What the pass reads of every language's translations. */
  ghost function Snapshots(all: map<string, seq<Translation>>): (r: map<string, seq<PageCatalog>>)
    reads Listed(all)
    ensures r.Keys == all.Keys
  {
    ListedHas(all, all.Keys);
    map l | l in all :: Snapshot(all[l])
  }

  /** The files of the languages in `snaps` hold their saved catalogs (plugin.py:761-767). */
  ghost predicate SavedFrom(d0: map<PoPath, seq<Entry>>, d: map<PoPath, seq<Entry>>, snaps: map<string, seq<PageCatalog>>)
  {
    forall p: PoPath :: p.language in snaps ==>
      Agree(d, SavePages(d0, Paths(snaps[p.language]), Catalogs(snaps[p.language])), p)
  }

  /** The files of the languages in `done` hold what finishing them from `d0` gives
      (plugin.py:770-838). */
  ghost predicate FinishedFrom(d0: map<PoPath, seq<Entry>>, d: map<PoPath, seq<Entry>>,
                               snaps: map<string, seq<PageCatalog>>, done: set<string>)
  {
    forall p: PoPath :: p.language in done ==>
      && p.language in snaps && CompendiumFile(p.language) in d0
      && Agree(d, FinishedDisk(d0, p.language, d0[CompendiumFile(p.language)], snaps[p.language]), p)
  }

  /** The files of the languages in `snaps` hold what `on_post_build` makes of them. */
  ghost predicate BuiltFrom(d0: map<PoPath, seq<Entry>>, d: map<PoPath, seq<Entry>>, snaps: map<string, seq<PageCatalog>>)
  {
    forall p: PoPath :: p.language in snaps ==>
      CompendiumFile(p.language) in d0 && Agree(d, AfterBuild(d0, p.language, snaps[p.language]), p)
  }

  /** A file of a language still to do is as it was. */
  lemma PendingAgree(d0: map<PoPath, seq<Entry>>, d: map<PoPath, seq<Entry>>, langs: set<string>, todo: set<string>,
                     p: PoPath)
    requires forall q: PoPath :: q.language !in langs || q.language in todo ==> Agree(d0, d, q)
    requires p.language in todo
    ensures Agree(d0, d, p)
  {
  }

  /** Saving every language and then finishing every language is `AfterBuild`. */
  lemma BuildComposes(d0: map<PoPath, seq<Entry>>, saved: map<PoPath, seq<Entry>>, d: map<PoPath, seq<Entry>>,
                      snaps: map<string, seq<PageCatalog>>)
    requires SavedFrom(d0, saved, snaps)
    requires forall l :: Agree(d0, saved, CompendiumFile(l))
    requires FinishedFrom(saved, d, snaps, snaps.Keys)
    ensures BuiltFrom(d0, d, snaps)
  {
    forall p: PoPath | p.language in snaps
      ensures CompendiumFile(p.language) in d0 && Agree(d, AfterBuild(d0, p.language, snaps[p.language]), p)
    {
      assert Agree(d0, saved, CompendiumFile(p.language));
      AfterBuildAt(d0, saved, d, p.language, snaps[p.language], p);
    }
  }

  /** Finishing one more language extends what is finished and leaves the languages
      still to do alone. */
  lemma FinishDiskStep(d0: map<PoPath, seq<Entry>>, before: map<PoPath, seq<Entry>>, after: map<PoPath, seq<Entry>>,
                       snaps: map<string, seq<PageCatalog>>, todo: set<string>, language: string)
    requires language in todo && todo <= snaps.Keys
    requires CompendiumFile(language) in d0 && CompendiumFile(language) in before
    requires FinishedFrom(d0, before, snaps, snaps.Keys - todo)
    requires forall p: PoPath :: p.language !in snaps || p.language in todo ==> Agree(d0, before, p)
    requires after == FinishedDisk(before, language, before[CompendiumFile(language)], snaps[language])
    requires SameOutside(before, after, language)
    ensures FinishedFrom(d0, after, snaps, snaps.Keys - (todo - {language}))
    ensures forall p: PoPath :: p.language !in snaps || p.language in todo - {language} ==> Agree(d0, after, p)
  {
    assert Agree(d0, before, CompendiumFile(language));
    forall p: PoPath | p.language == language
      ensures Agree(after, FinishedDisk(d0, language, d0[CompendiumFile(language)], snaps[language]), p)
    {
      FinishAt(before, d0, language, d0[CompendiumFile(language)], snaps[language], p);
    }
  }

  /** Every translation listed under some language. */
  ghost function Listed(all: map<string, seq<Translation>>): set<Translation>
  {
    ListedIn(all, all.Keys)
  }

  /** The translations listed under the languages `langs`. */
  ghost function ListedIn(all: map<string, seq<Translation>>, langs: set<string>): set<Translation>
  {
    set l, t | l in all && l in langs && t in all[l] :: t
  }

  lemma ListedHas(all: map<string, seq<Translation>>, langs: set<string>)
    ensures forall l, t :: l in all && l in langs && t in all[l] ==> t in ListedIn(all, langs)
    ensures ListedIn(all, langs) <= Listed(all)
  {
  }

  /** Translations listed under different languages are different objects. */
  lemma ListedDisjoint(all: map<string, seq<Translation>>, a: set<string>, b: set<string>)
    requires Separate(all) && a !! b
    ensures ListedIn(all, a) !! ListedIn(all, b)
  {
    forall l, t | l in all && t in all[l]
      ensures t.language == l
    {
      var i :| 0 <= i < |all[l]| && all[l][i] == t;
    }
  }

  /** The languages in `langs` still have the catalogs `snaps` recorded. */
  ghost predicate Pending(all: map<string, seq<Translation>>, langs: set<string>, snaps: map<string, seq<PageCatalog>>)
    reads ListedIn(all, langs)
  {
    ListedHas(all, langs);
    forall l :: l in langs ==> l in all && l in snaps && Snapshot(all[l]) == snaps[l]
  }

  /** The translations of the languages in `done` hold their finished catalogs. */
  ghost predicate MarkedFrom(d0: map<PoPath, seq<Entry>>, all: map<string, seq<Translation>>, done: set<string>,
                             snaps: map<string, seq<PageCatalog>>)
    reads ListedIn(all, done)
  {
    ListedHas(all, done);
    forall l :: l in done ==>
      && l in all && l in snaps && CompendiumFile(l) in d0
      && |Finish(d0[CompendiumFile(l)], snaps[l]).pos| == |all[l]|
      && forall j :: 0 <= j < |all[l]| ==> all[l][j].po == Finish(d0[CompendiumFile(l)], snaps[l]).pos[j]
  }

  /** What the merge promises about a page catalog and the compendium it was merged with:
      every live extracted message and every live translated compendium entry is in the
      page catalog, the title (and the description, if any) has a live entry, and every
      translated site setting has a live compendium entry flagged for it. */
  ghost predicate PageMerged(po: seq<Entry>, compendium: seq<Entry>, page: SourcePage, settings: seq<Setting>)
  {
    && (forall e :: e in page.extracted && !e.obsolete ==> Contains(po, e))
    && (forall e :: e in compendium && !e.obsolete && e.msgstr != [] ==> Contains(po, e))
    && HasLive(po, page.title) && (page.desc != [] ==> HasLive(po, page.desc))
    && PoMessagesStats(po).total >= 1
    && SettingsCovered(compendium, settings)
  }

  /** After `on_page_markdown`, the catalog of `page` in `language` holds the page's live
      messages, its title and its description. */
  ghost predicate PageReady(d: map<PoPath, seq<Entry>>, language: string, page: SourcePage)
  {
    var path := PageFile(language, page.srcPath);
    && path in d
    && (forall e :: e in page.extracted && !e.obsolete ==> Contains(d[path], e))
    && HasLive(d[path], page.title) && (page.desc != [] ==> HasLive(d[path], page.desc))
  }

  lemma PageReadyOutside(d0: map<PoPath, seq<Entry>>, d: map<PoPath, seq<Entry>>, changed: string, language: string, page: SourcePage)
    requires SameOutside(d0, d, changed) && language != changed && PageReady(d0, language, page)
    ensures PageReady(d, language, page)
  {
    assert PageFile(language, page.srcPath).language != changed;
  }

  /** The processor modes for the configured Markdown extensions. */
  function TextModeFor(extensions: seq<string>): Mode
  {
    TextMode("pymdownx.tasklist" in extensions)
  }

  function TitleModeFor(extensions: seq<string>): Mode
  {
    TitleMode("abbr" in extensions, "pymdownx.emoji" in extensions, false)
  }

  /** The plugin instance: its configuration, the records of the build, and the catalogs
      on disk. */
  class MdpoPlugin {
    /** `config['languages']`: the completion gate removes languages from it. */
    var languages: seq<string>
    const defaultLanguage: string
    /** `min_translated_messages`: 0 disables the gate, a negative value is a percentage. */
    const minTranslated: real
    /** `translate`: the site settings to translate, with their configured values. */
    const translate: seq<Setting>
    const ignoreMsgids: seq<string>
    /** Source paths of the pages excluded from translation. */
    const exclude: seq<string>
    /** The configured Markdown extensions. */
    const extensions: seq<string>
    /** The `lru_cache` of `_translation_languages`. */
    var languagesCache: Option<seq<string>>
    const translations: Translations
    /** The PO files on disk. */
    var disk: map<PoPath, seq<Entry>>
    /** The pages counted in the statistics so far. */
    ghost var counted: seq<PageStats>

    ghost predicate Valid()
      reads this`counted, translations
    {
      && DistinctNames(translate)
      && CountsMatch(translations.stats, counted)
      && (forall i :: 0 <= i < |counted| ==> counted[i].stats.total >= 1)
      && (forall l :: l in translations.compendiumFiles ==> translations.compendiumFiles[l] == CompendiumFile(l))
      && translations.compendiumMsgids.Keys == translations.compendiumFiles.Keys
      && translations.compendiumMsgstrsTr.Keys == translations.compendiumFiles.Keys
      && Separate(translations.all)
    }

    constructor(languages: seq<string>, defaultLanguage: string, minTranslated: real, translate: seq<Setting>,
                ignoreMsgids: seq<string>, exclude: seq<string>, extensions: seq<string>, disk: map<PoPath, seq<Entry>>)
      requires DistinctNames(translate)
      ensures Valid() && fresh(translations)
      ensures this.languages == languages && this.defaultLanguage == defaultLanguage && this.minTranslated == minTranslated
      ensures this.translate == translate && this.ignoreMsgids == ignoreMsgids && this.exclude == exclude
      ensures this.extensions == extensions && this.disk == disk && languagesCache.None?
      ensures translations.compendiumFiles == map[] && translations.all == map[] && translations.stats == map[]
      ensures translations.current == null
    {
      this.languages := languages;
      this.defaultLanguage := defaultLanguage;
      this.minTranslated := minTranslated;
      this.translate := translate;
      this.ignoreMsgids := ignoreMsgids;
      this.exclude := exclude;
      this.extensions := extensions;
      this.disk := disk;
      languagesCache := None;
      translations := new Translations();
      counted := [];
    }

    /** `_translation_languages()`, computed once: later removals by the completion gate do
        not change the languages pages are translated into. */
    method CachedTranslationLanguages() returns (r: seq<string>)
      modifies this`languagesCache
      ensures old(languagesCache).Some? ==> r == old(languagesCache).value
      ensures old(languagesCache).None? ==> r == TranslationLanguages(languages, defaultLanguage)
      ensures languagesCache == Some(r)
    {
      if languagesCache.None? {
        languagesCache := Some(TranslationLanguages(languages, defaultLanguage));
      }
      r := languagesCache.value;
    }

    /** `_translate_section_title` of `on_page_context` (plugin.py:134-166). */
    method TranslateSectionTitle(language: string, title: string) returns (r: Result<string, PluginError>)
      requires Valid()
      modifies this`disk, translations`compendiumMsgids, translations`compendiumMsgstrsTr
      ensures Valid()
      // an empty title, or one already seen for the language, is left alone
      ensures title == [] || (language in old(translations.compendiumMsgids) && title in old(translations.compendiumMsgids[language]))
              ==> r == Ok(title) && disk == old(disk)
                  && translations.compendiumMsgids == old(translations.compendiumMsgids)
                  && translations.compendiumMsgstrsTr == old(translations.compendiumMsgstrsTr)
      ensures title != [] && language !in old(translations.compendiumMsgids)
              ==> r == Err(MissingCompendium(language)) && disk == old(disk)
                  && translations.compendiumMsgids == old(translations.compendiumMsgids)
      ensures title != [] && language in old(translations.compendiumMsgids) && title !in old(translations.compendiumMsgids[language])
              ==> var path := CompendiumFile(language);
                  if path !in old(disk) then r == Err(MissingCatalog(path)) && disk == old(disk)
                  else
                    var t := SectionTitle(old(disk[path]), title);
                    // the first compendium entry with the title gives the translation
                    && r == Ok(if t.Some? then t.value else title)
                    && translations.compendiumMsgids
                       == old(translations.compendiumMsgids)[language := old(translations.compendiumMsgids[language]) + [r.value]]
                    && translations.compendiumMsgstrsTr
                       == (if t.Some? then old(translations.compendiumMsgstrsTr)[language := old(translations.compendiumMsgstrsTr[language]) + [t.value]]
                           else old(translations.compendiumMsgstrsTr))
                    // an unknown title is inserted untranslated at the front and saved
                    && disk == if HasMsgid(old(disk[path]), title) then old(disk)
                               else old(disk)[path := [NewEntry(title)] + old(disk[path])]
    {
      if title == [] {
        return Ok(title);
      }
      if language !in translations.compendiumMsgids {
        return Err(MissingCompendium(language));
      }
      if title in translations.compendiumMsgids[language] {
        return Ok(title);
      }
      var path := translations.compendiumFiles[language];
      if path !in disk {
        return Err(MissingCatalog(path));
      }
      var compendium := disk[path];
      var found := FindFirst(compendium, title);
      var newTitle := title;
      if found.Some? {
        // the entry is made live in memory only: the compendium is not saved on this path
        var msgstr := compendium[found.value].msgstr;
        assert SectionTitle(compendium, title) == if msgstr != [] then Some(msgstr) else None;
        if msgstr != [] {
          newTitle := msgstr;
          translations.compendiumMsgstrsTr := translations.compendiumMsgstrsTr[
            language := translations.compendiumMsgstrsTr[language] + [msgstr]];
        }
      } else {
        assert SectionTitle(compendium, title).None?;
        disk := disk[path := [NewEntry(title)] + compendium];
      }
      translations.compendiumMsgids := translations.compendiumMsgids[
        language := translations.compendiumMsgids[language] + [newTitle]];
      r := Ok(newTitle);
    }

    /** The compendium of a language, registered and created empty the first time a page
        is translated into it (plugin.py:261-270). */
    method OpenCompendium(language: string) returns (r: Result<seq<Entry>, PluginError>)
      requires Valid()
      modifies this`disk, translations`compendiumFiles, translations`compendiumMsgids, translations`compendiumMsgstrsTr
      ensures Valid()
      ensures language in translations.compendiumFiles
      ensures SameOutside(old(disk), disk, language)
      ensures forall p :: p != CompendiumFile(language) ==> (p in disk <==> p in old(disk)) && (p in disk ==> disk[p] == old(disk)[p])
      ensures language !in old(translations.compendiumFiles) ==>
                disk == (if CompendiumFile(language) in old(disk) then old(disk) else old(disk)[CompendiumFile(language) := []])
                && translations.compendiumMsgids == old(translations.compendiumMsgids)[language := []]
                && translations.compendiumMsgstrsTr == old(translations.compendiumMsgstrsTr)[language := []]
      ensures language in old(translations.compendiumFiles) ==>
                disk == old(disk) && translations.compendiumMsgids == old(translations.compendiumMsgids)
                && translations.compendiumMsgstrsTr == old(translations.compendiumMsgstrsTr)
      // reading fails only when a registered compendium has gone from disk
      ensures r.Err? <==> language in old(translations.compendiumFiles) && CompendiumFile(language) !in old(disk)
      ensures r.Err? ==> r.error == MissingCatalog(CompendiumFile(language))
      ensures r.Ok? ==> CompendiumFile(language) in disk && r.value == disk[CompendiumFile(language)]
    {
      var path := CompendiumFile(language);
      if language !in translations.compendiumFiles {
        if path !in disk {
          disk := disk[path := []];
        }
        translations.compendiumFiles := translations.compendiumFiles[language := path];
        translations.compendiumMsgstrsTr := translations.compendiumMsgstrsTr[language := []];
        translations.compendiumMsgids := translations.compendiumMsgids[language := []];
      }
      if path !in disk {
        return Err(MissingCatalog(path));
      }
      r := Ok(disk[path]);
    }

    /** Counts a merged page in its language's statistics when the gate is enabled
        (plugin.py:402-415). */
    method CountPage(language: string, po: seq<Entry>)
      requires Valid() && PoMessagesStats(po).total >= 1
      modifies this`counted, translations`stats
      ensures Valid()
      ensures counted == old(counted) + (if minTranslated != 0.0 then [PageStats(language, PoMessagesStats(po))] else [])
    {
      if minTranslated != 0.0 {
        var s := PoMessagesStats(po);
        CountsAdd(translations.stats, counted, language, s);
        translations.stats := AddPage(translations.stats, language, s);
        counted := counted + [PageStats(language, s)];
      }
    }

    /** The translated part of `on_page_markdown` for one language of a page that is not
        excluded (plugin.py:247-447): the page catalog and the compendium are merged and
        saved, the page is counted, and the translation record is built from Po2Md's output. */
    method MergeLanguage(page: SourcePage, language: string, po2md: (seq<Entry>, seq<Entry>, string) -> Po2MdOutput)
      returns (r: Result<(Translation, string), PluginError>)
      requires Valid()
      modifies this`disk, this`counted, translations`compendiumFiles, translations`compendiumMsgids,
               translations`compendiumMsgstrsTr, translations`stats
      ensures Valid()
      ensures SameOutside(old(disk), disk, language)
      ensures r.Err? <==> language in old(translations.compendiumFiles) && CompendiumFile(language) !in old(disk)
      ensures r.Err? ==> counted == old(counted)
      ensures r.Ok? ==>
        var tr := r.value.0;
        var path := PageFile(language, page.srcPath);
        && fresh(tr) && tr.language == language && tr.poPath == Some(path)
        && path in disk && CompendiumFile(language) in disk
        && PageMerged(disk[path], disk[CompendiumFile(language)], page, translate)
        && Synced(State(tr)) && tr.po == disk[path]
        && counted == old(counted) + (if minTranslated != 0.0 then [PageStats(language, PoMessagesStats(disk[path]))] else [])
        // ignored msgids are never added to the catalog by the processors
        && (forall m :: m in ignoreMsgids ==> m in tr.disabledMsgids)
    {
      var comp := OpenCompendium(language);
      if comp.Err? {
        return Err(comp.error);
      }
      var tr, content := MergeOpened(page, language, comp.value, po2md);
      r := Ok((tr, content));
    }

    /** The merge once the compendium is open (plugin.py:288-447). */
    method MergeOpened(page: SourcePage, language: string, compendium0: seq<Entry>,
                       po2md: (seq<Entry>, seq<Entry>, string) -> Po2MdOutput)
      returns (tr: Translation, content: string)
      requires Valid() && CompendiumFile(language) in disk && disk[CompendiumFile(language)] == compendium0
      modifies this`disk, this`counted, translations`stats
      ensures Valid()
      ensures SameOutside(old(disk), disk, language)
      ensures var path := PageFile(language, page.srcPath);
        && fresh(tr) && tr.language == language && tr.poPath == Some(path)
        && path in disk && CompendiumFile(language) in disk
        && PageMerged(disk[path], disk[CompendiumFile(language)], page, translate)
        && Synced(State(tr)) && tr.po == disk[path]
        && counted == old(counted) + (if minTranslated != 0.0 then [PageStats(language, PoMessagesStats(disk[path]))] else [])
        && (forall m :: m in ignoreMsgids ==> m in tr.disabledMsgids)
    {
      var path := PageFile(language, page.srcPath);
      var po0 := if path in disk then disk[path] else [];
      var res := MergePage(po0, page.extracted, compendium0, page.title, page.desc, translate);
      SaveMerged(language, page, res.po, res.compendium);
      CountPage(language, res.po);
      var out := po2md(res.po, res.compendium, page.markdown);
      tr := NewPageTranslation(language, path, page, res, out);
      content := out.content;
    }

    /** Saves the merged page catalog and compendium (plugin.py:395-400). */
    method SaveMerged(language: string, page: SourcePage, po: seq<Entry>, compendium: seq<Entry>)
      requires PageMerged(po, compendium, page, translate)
      modifies this`disk
      ensures disk == old(disk)[CompendiumFile(language) := compendium][PageFile(language, page.srcPath) := po]
      ensures SameOutside(old(disk), disk, language)
      ensures var path := PageFile(language, page.srcPath);
        path in disk && CompendiumFile(language) in disk && PageMerged(disk[path], disk[CompendiumFile(language)], page, translate)
    {
      disk := disk[CompendiumFile(language) := compendium][PageFile(language, page.srcPath) := po];
    }

    /** The translation record of a merged page (plugin.py:417-447): its catalog and
        msgids, the msgstrs and msgids translated so far (title and description first, then
        what Po2Md translated), and the msgids disabled by Po2Md or ignored in the
        configuration. */
    method NewPageTranslation(language: string, path: PoPath, page: SourcePage, res: PageMergeResult, out: Po2MdOutput)
      returns (tr: Translation)
      ensures fresh(tr) && tr.language == language && tr.poPath == Some(path)
      ensures tr.po == res.po && Synced(State(tr))
      ensures forall m :: m in ignoreMsgids ==> m in tr.disabledMsgids
      ensures forall m :: m in out.disabled ==> m in tr.disabledMsgids
      ensures tr.translatedMsgids == res.msgids + Msgids(MetaEntries(page.title, page.desc) + out.translated)
      ensures tr.translatedMsgstrs == res.msgstrs + Msgstrs(MetaEntries(page.title, page.desc) + out.translated)
    {
      var translated := MetaEntries(page.title, page.desc) + out.translated;
      tr := new Translation(language, res.po, Some(path), Msgids(res.po),
                            res.msgstrs + Msgstrs(translated), res.msgids + Msgids(translated),
                            out.disabled + ignoreMsgids);
    }

    /** The two tree processors run on the translated page with `tr` as the current
        translation: the text processor on the parsed page, then, after the Markdown
        processors registered between them, the title processor. */
    method RenderPage(tr: Translation, content: string, parse: string -> Node, between: Node -> Node)
      requires Synced(State(tr))
      modifies translations`current, tr
      ensures translations.current == tr
      ensures Synced(State(tr))
      ensures |old(tr.po)| <= |tr.po| && forall i :: 0 <= i < |old(tr.po)| ==> tr.po[i].msgid == old(tr.po)[i].msgid
    {
      ghost var st0 := State(tr);
      translations.current := tr;
      var root := parse(content);
      var text := Run(translations, root, TextModeFor(extensions));
      ghost var st1 := State(tr);
      WalkIsSteps(st0, root.children, TextModeFor(extensions), true);
      StepsKeepSynced(st0, ForestMsgids(root.children, TextModeFor(extensions)), true);
      StepsGrowCatalog(st0, ForestMsgids(root.children, TextModeFor(extensions)), true);
      var titled := Run(translations, between(text), TitleModeFor(extensions));
      WalkIsSteps(st1, between(text).children, TitleModeFor(extensions), true);
      StepsKeepSynced(st1, ForestMsgids(between(text).children, TitleModeFor(extensions)), true);
      StepsGrowCatalog(st1, ForestMsgids(between(text).children, TitleModeFor(extensions)), true);
    }

    /** `on_page_markdown` for one language (plugin.py:247-456, 504-514, 574-586): the
        translation record (empty for an excluded page), the translated page rendered with
        it as the current translation, and the record listed under its language. */
    method TranslatePage(page: SourcePage, language: string, excluded: bool,
                         po2md: (seq<Entry>, seq<Entry>, string) -> Po2MdOutput,
                         parse: string -> Node, between: Node -> Node)
      returns (r: Result<Translation, PluginError>)
      requires Valid()
      modifies this`disk, this`counted, translations`compendiumFiles, translations`compendiumMsgids,
               translations`compendiumMsgstrsTr, translations`stats, translations`current, translations`all
      ensures Valid()
      ensures SameOutside(old(disk), disk, language)
      ensures excluded ==> r.Ok? && disk == old(disk) && counted == old(counted)
      ensures r.Err? <==> !excluded && language in old(translations.compendiumFiles) && CompendiumFile(language) !in old(disk)
      ensures r.Err? ==> translations.all == old(translations.all)
      ensures r.Ok? ==>
        var tr := r.value;
        && fresh(tr) && tr.language == language
        && translations.current == tr
        && translations.all == old(translations.all)[language := (if language in old(translations.all) then old(translations.all[language]) else []) + [tr]]
        // the catalog and `po_msgids` stay in step through both tree processors
        && Synced(State(tr))
        && (excluded ==> tr.poPath.None?)
        && (!excluded ==>
              var path := PageFile(language, page.srcPath);
              && tr.poPath == Some(path) && path in disk && CompendiumFile(language) in disk
              && PageMerged(disk[path], disk[CompendiumFile(language)], page, translate)
              // the processors only append to the saved catalog
              && |disk[path]| <= |tr.po| && (forall i :: 0 <= i < |disk[path]| ==> tr.po[i].msgid == disk[path][i].msgid)
              && counted == old(counted) + (if minTranslated != 0.0 then [PageStats(language, PoMessagesStats(disk[path]))] else []))
    {
      var tr: Translation;
      var content: string;
      if excluded {
        tr := new Translation(language, [], None, [], [], [], []);
        content := page.markdown;
      } else {
        var merged := MergeLanguage(page, language, po2md);
        if merged.Err? {
          return Err(merged.error);
        }
        tr, content := merged.value.0, merged.value.1;
      }
      RenderPage(tr, content, parse, between);
      SeparateAppend(translations.all, tr);
      var prior := if language in translations.all then translations.all[language] else [];
      translations.all := translations.all[language := prior + [tr]];
      r := Ok(tr);
    }

    /** `on_page_markdown` (plugin.py:197-588): an original page is translated into every
        translation language, in order; pages built for a translation are left alone. */
    method OnPageMarkdown(page: SourcePage, isTranslation: bool,
                          po2md: (seq<Entry>, seq<Entry>, string) -> Po2MdOutput,
                          parse: string -> Node, between: Node -> Node)
      returns (r: Result<(), PluginError>)
      requires Valid()
      modifies this`disk, this`counted, this`languagesCache, translations`compendiumFiles, translations`compendiumMsgids,
               translations`compendiumMsgstrsTr, translations`stats, translations`current, translations`all
      ensures Valid()
      ensures isTranslation ==> r.Ok? && disk == old(disk) && translations.all == old(translations.all)
      ensures !isTranslation && r.Ok? ==> translations.current == null && languagesCache.Some?
      ensures !isTranslation && r.Ok? ==> forall l :: l in languagesCache.value ==>
        l in translations.all && (page.srcPath !in exclude ==> PageReady(disk, l, page))
    {
      if isTranslation {
        return Ok(());
      }
      var excluded := page.srcPath in exclude;
      var langs := CachedTranslationLanguages();
      var i := 0;
      while i < |langs|
        invariant 0 <= i <= |langs|
        invariant Valid() && languagesCache == Some(langs)
        invariant forall l :: l in langs[..i] ==> l in translations.all && (!excluded ==> PageReady(disk, l, page))
      {
        ghost var before := disk;
        var one := TranslatePage(page, langs[i], excluded, po2md, parse, between);
        if one.Err? {
          return Err(one.error);
        }
        forall l | l in langs[..i + 1]
          ensures l in translations.all && (!excluded ==> PageReady(disk, l, page))
        {
          if l != langs[i] {
            assert l in langs[..i];
            if !excluded {
              PageReadyOutside(before, disk, langs[i], l, page);
            }
          }
        }
        i := i + 1;
      }
      translations.current := null;
      r := Ok(());
    }

    /** `on_post_page` (plugin.py:606-659): a translated page (`language` is its
        `_mdpo_language`) goes through the completion gate; an original page is written. */
    method OnPostPage(language: Option<string>) returns (r: Result<bool, PluginError>)
      requires Valid()
      modifies this`languages, translations`stats
      ensures Valid()
      ensures language.None? ==> r == Ok(true) && languages == old(languages) && translations.stats == old(translations.stats)
      ensures language.Some? ==>
        match Gate(old(translations.stats), language.value, minTranslated, old(languages))
        case Ok(d) => r == Ok(d.publish) && languages == d.languages && translations.stats == d.stats
        case Err(e) => r == Err(GateFailed(e)) && languages == old(languages) && translations.stats == old(translations.stats)
      // the gate fails only when it is enabled and every page of the language was excluded
      ensures language.Some? ==> (r.Err? <==> minTranslated != 0.0 && !HasPages(counted, language.value))
    {
      if language.None? {
        return Ok(true);
      }
      GateFailsOnlyWithoutPages(translations.stats, counted, language.value, minTranslated, languages);
      var g := Gate(translations.stats, language.value, minTranslated, languages);
      if g.Err? {
        return Err(GateFailed(g.error));
      }
      GateKeepsCounts(translations.stats, counted, language.value, minTranslated, languages);
      languages := g.value.languages;
      translations.stats := g.value.stats;
      r := Ok(g.value.publish);
    }

    /** The end-of-build pass of `on_post_build` for one language (plugin.py:770-838):
        repeated msgids promoted into the compendium, the compendium finalised and saved
        (or removed when empty), and the page catalogs marked and saved. The pass stops when
        the promotion reaches the catalog of an excluded page, which has no file. */
    method FinishLanguage(language: string) returns (r: Result<(), PluginError>)
      requires Valid() && language in translations.all
      modifies this`disk, ListedIn(translations.all, {language})
      ensures Valid()
      ensures SameOutside(old(disk), disk, language)
      ensures language !in translations.compendiumFiles ==> r == Err(MissingCompendium(language))
      ensures language in translations.compendiumFiles && CompendiumFile(language) !in old(disk)
              ==> r == Err(MissingCatalog(CompendiumFile(language)))
      ensures language in translations.compendiumFiles && CompendiumFile(language) in old(disk)
              && !old(PassCompletes(Snapshot(translations.all[language])))
              ==> r == Err(SaveWithoutFile(language))
      ensures r.Err? && !r.error.SaveWithoutFile? ==> disk == old(disk)
      ensures r.Ok? <==> language in translations.compendiumFiles && CompendiumFile(language) in old(disk)
                         && old(PassCompletes(Snapshot(translations.all[language])))
      ensures r.Ok? ==>
        var trs := translations.all[language];
        var pages := old(Snapshot(trs));
        var f := Finish(old(disk[CompendiumFile(language)]), pages);
        && (forall j :: 0 <= j < |trs| ==> trs[j].po == f.pos[j])
        && disk == FinishedDisk(old(disk), language, old(disk[CompendiumFile(language)]), pages)
    {
      if language !in translations.compendiumFiles {
        return Err(MissingCompendium(language));
      }
      var cpath := translations.compendiumFiles[language];
      if cpath !in disk {
        return Err(MissingCatalog(cpath));
      }
      var trs := translations.all[language];
      SeparateLanguage(translations.all, language);
      ListedHas(translations.all, {language});
      var pages := Snapshot(trs);
      FinishAsWritten(disk[cpath], pages);
      if PromoteAllAsWritten(Promotion(disk[cpath], Catalogs(pages)), Paths(pages),
                             ScanAll(Flatten(MsgidLists(pages))).repeated).None? {
        return Err(SaveWithoutFile(language));
      }
      var f := FinishPages(disk[cpath], pages);
      ghost var d0 := disk;
      disk := SaveCompendium(disk, language, f.compendium);
      WritePages(language, trs, pages, f.pos);
      r := Ok(());
    }

    /** The first loop of `on_post_build` for one language (plugin.py:761-767): each
        translation's catalog is saved to its file, if it has one. */
    method SaveLanguage(language: string)
      requires Valid() && language in translations.all
      modifies this`disk
      ensures disk == SavePages(old(disk), Paths(Snapshot(translations.all[language])), Catalogs(Snapshot(translations.all[language])))
      ensures SameOutside(old(disk), disk, language)
      ensures forall p: PoPath :: p.CompendiumFile? ==> Agree(old(disk), disk, p)
    {
      var trs := translations.all[language];
      SeparateLanguage(translations.all, language);
      ghost var pages := Snapshot(trs);
      var j := 0;
      while j < |trs|
        invariant 0 <= j <= |trs|
        invariant disk == SavePages(old(disk), Paths(pages)[..j], Catalogs(pages)[..j])
      {
        if trs[j].poPath.Some? {
          disk := disk[trs[j].poPath.value := trs[j].po];
        }
        assert Paths(pages)[..j + 1][..j] == Paths(pages)[..j] && Catalogs(pages)[..j + 1][..j] == Catalogs(pages)[..j];
        j := j + 1;
      }
      assert Paths(pages)[..j] == Paths(pages) && Catalogs(pages)[..j] == Catalogs(pages);
      forall p: PoPath | p.language != language || p.CompendiumFile?
        ensures Agree(old(disk), disk, p)
      {
        SavePagesOutside(old(disk), Paths(pages), Catalogs(pages), p);
      }
    }

    /** The first loop of `on_post_build` (plugin.py:761-767) over every language. */
    method SaveAll(ghost snaps: map<string, seq<PageCatalog>>)
      requires Valid() && snaps == Snapshots(translations.all)
      modifies this`disk
      ensures SavedFrom(old(disk), disk, snaps)
      ensures forall p: PoPath :: p.language !in translations.all || p.CompendiumFile? ==> Agree(old(disk), disk, p)
    {
      var todo := translations.all.Keys;
      while todo != {}
        invariant todo <= translations.all.Keys
        invariant SavedFrom(old(disk), disk, snaps - todo)
        invariant forall p: PoPath :: p.language !in translations.all || p.language in todo || p.CompendiumFile? ==>
                    Agree(old(disk), disk, p)
        decreases |todo|
      {
        var l :| l in todo;
        ghost var before := disk;
        SaveLanguage(l);
        assert snaps[l] == Snapshot(translations.all[l]);
        forall p: PoPath | p.language == l
          ensures Agree(disk, SavePages(old(disk), Paths(snaps[l]), Catalogs(snaps[l])), p)
        {
          SavePagesAt(before, old(disk), Paths(snaps[l]), Catalogs(snaps[l]), p);
        }
        todo := todo - {l};
      }
    }

    /** The second loop of `on_post_build` (plugin.py:770-838): each language finished in
        turn, stopping at the first one without a compendium or whose promotion reaches an
        excluded page's catalog. */
    method FinishAll(ghost snaps: map<string, seq<PageCatalog>>) returns (r: Result<(), PluginError>)
      requires Valid() && snaps == Snapshots(translations.all)
      modifies this`disk, Listed(translations.all)
      ensures Valid()
      ensures r.Ok? <==> forall l :: l in translations.all ==>
                           l in translations.compendiumFiles && CompendiumFile(l) in old(disk) && PassCompletes(snaps[l])
      ensures r.Ok? ==> FinishedFrom(old(disk), disk, snaps, translations.all.Keys)
      ensures forall p: PoPath :: p.language !in translations.all ==> Agree(old(disk), disk, p)
    {
      var todo := translations.all.Keys;
      ProgressStart(snaps);
      while todo != {}
        invariant todo <= translations.all.Keys && Progress(old(disk), snaps, todo)
        decreases |todo|
      {
        var l :| l in todo;
        ListedHas(translations.all, {l});
        r := FinishStep(l, todo, snaps, old(disk));
        if r.Err? {
          return;
        }
        todo := todo - {l};
      }
      ProgressDone(old(disk), snaps);
      r := Ok(());
    }

    /** Before the loop of plugin.py:770-838 every language is still to do. */
    lemma ProgressStart(snaps: map<string, seq<PageCatalog>>)
      requires Valid() && snaps == Snapshots(translations.all)
      ensures Progress(disk, snaps, translations.all.Keys)
    {
      ListedHas(translations.all, translations.all.Keys);
    }

    /** After the loop of plugin.py:770-838 every language is finished. */
    lemma ProgressDone(d0: map<PoPath, seq<Entry>>, snaps: map<string, seq<PageCatalog>>)
      requires Progress(d0, snaps, {})
      ensures forall l :: l in translations.all ==>
                l in translations.compendiumFiles && CompendiumFile(l) in d0 && PassCompletes(snaps[l])
      ensures FinishedFrom(d0, disk, snaps, translations.all.Keys)
    {
      assert translations.all.Keys - {} == translations.all.Keys;
    }

    /** The state of the loop of plugin.py:770-838 with the languages `todo` still to do:
        the others are finished from the disk `d0` the loop started with. */
    ghost predicate Progress(d0: map<PoPath, seq<Entry>>, snaps: map<string, seq<PageCatalog>>, todo: set<string>)
      reads this, translations, ListedIn(translations.all, todo)
    {
      && Valid() && todo <= translations.all.Keys == snaps.Keys
      && (forall l :: l in translations.all && l !in todo ==>
            l in translations.compendiumFiles && CompendiumFile(l) in d0 && PassCompletes(snaps[l]))
      && FinishedFrom(d0, disk, snaps, translations.all.Keys - todo)
      && (forall p: PoPath :: p.language !in translations.all || p.language in todo ==> Agree(d0, disk, p))
      && Pending(translations.all, todo, snaps)
    }

    /** One turn of the loop of plugin.py:770-838: the language `language`, still to do,
        is finished. */
    method FinishStep(language: string, ghost todo: set<string>, ghost snaps: map<string, seq<PageCatalog>>,
                      ghost d0: map<PoPath, seq<Entry>>) returns (r: Result<(), PluginError>)
      requires language in todo && Progress(d0, snaps, todo)
      modifies this`disk, ListedIn(translations.all, {language})
      ensures Valid()
      ensures r.Ok? <==> language in translations.compendiumFiles && CompendiumFile(language) in d0
                         && PassCompletes(snaps[language])
      ensures forall p: PoPath :: p.language !in translations.all ==> Agree(d0, disk, p)
      ensures r.Ok? ==> Progress(d0, snaps, todo - {language})
    {
      ghost var before := disk;
      ListedHas(translations.all, {language});
      ListedDisjoint(translations.all, {language}, todo - {language});
      assert Pending(translations.all, todo - {language}, snaps);
      PendingAgree(d0, disk, translations.all.Keys, todo, CompendiumFile(language));
      r := FinishLanguage(language);
      if r.Ok? {
        FinishDiskStep(d0, before, disk, snaps, todo, language);
      }
    }

    /** `on_post_build` (plugin.py:739-838): every translation's catalog is saved, then
        each language is finished. It fails when a language has translations but never got
        a compendium (every page of it was excluded), when its compendium file is gone, or
        when an excluded page's catalog holds one of its repeated msgids. */
    method OnPostBuild() returns (r: Result<(), PluginError>)
      requires Valid()
      modifies this`disk, Listed(translations.all)
      ensures Valid()
      ensures r.Ok? <==> forall l :: l in translations.all ==>
                           l in translations.compendiumFiles && CompendiumFile(l) in old(disk)
                           && PassCompletes(old(Snapshots(translations.all))[l])
      ensures r.Ok? ==> BuiltFrom(old(disk), disk, old(Snapshots(translations.all)))
      ensures forall p: PoPath :: p.language !in translations.all ==> Agree(old(disk), disk, p)
    {
      ghost var snaps := Snapshots(translations.all);
      SaveAll(snaps);
      ghost var saved := disk;
      assert forall l :: CompendiumFile(l) in saved <==> CompendiumFile(l) in old(disk) by {
        forall l ensures Agree(old(disk), saved, CompendiumFile(l)) { }
      }
      r := FinishAll(snaps);
      if r.Ok? {
        BuildComposes(old(disk), saved, disk, snaps);
      }
    }

    /** The marked catalogs stored in the translations and saved, in order, to the files
        of those that have one (plugin.py:831-838). */
    method WritePages(language: string, trs: seq<Translation>, pages: seq<PageCatalog>, pos: seq<seq<Entry>>)
      requires |pages| == |trs| == |pos|
      requires forall k, k' :: 0 <= k < k' < |trs| ==> trs[k] != trs[k']
      requires forall k :: 0 <= k < |trs| ==> pages[k].poPath == trs[k].poPath
      requires forall k :: 0 <= k < |trs| && trs[k].poPath.Some? ==> trs[k].poPath.value.language == language
      modifies this`disk, trs
      ensures forall k :: 0 <= k < |trs| ==> trs[k].po == pos[k]
      ensures disk == SavePages(old(disk), Paths(pages), pos)
      ensures SameOutside(old(disk), disk, language)
    {
      ghost var d1 := disk;
      var j := 0;
      while j < |trs|
        invariant 0 <= j <= |trs|
        invariant disk == SavePages(d1, Paths(pages)[..j], pos[..j])
        invariant forall k :: 0 <= k < j ==> trs[k].po == pos[k]
      {
        SavePagesStep(d1, Paths(pages), pos, j);
        trs[j].po := pos[j];
        if trs[j].poPath.Some? {
          disk := disk[trs[j].poPath.value := pos[j]];
        }
        j := j + 1;
      }
      assert Paths(pages)[..j] == Paths(pages) && pos[..j] == pos;
      forall p: PoPath | p.language != language
        ensures (p in d1 <==> p in disk) && (p in d1 ==> d1[p] == disk[p])
      {
        SavePagesOutside(d1, Paths(pages), pos, p);
      }
    }
  }
}
