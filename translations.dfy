/** The records the plugin keeps while building (mkdocs_mdpo_plugin/translations.py). */
module Translations {
  import opened Wrappers
  import opened Strings
  import opened Catalog
  import opened CompletionGate
  import opened SearchIndexes

  /** The translation of one page into one language, shared by the tree processors
      (`translations.current`) and the end-of-build pass (`translations.all`). */
  class Translation {
    /** The language and the catalog path are never reassigned after construction. */
    const language: string
    var po: seq<Entry>
    /** `None` for a page excluded from translation. */
    const poPath: Option<PoPath>
    var poMsgids: seq<string>
    var translatedMsgstrs: seq<string>
    var translatedMsgids: seq<string>
    var disabledMsgids: seq<string>

    /** `Translation(...)` stores its seven arguments unchanged. */
    constructor(language: string, po: seq<Entry>, poPath: Option<PoPath>, poMsgids: seq<string>,
                translatedMsgstrs: seq<string>, translatedMsgids: seq<string>, disabledMsgids: seq<string>)
      ensures this.language == language && this.po == po && this.poPath == poPath && this.poMsgids == poMsgids
      ensures this.translatedMsgstrs == translatedMsgstrs && this.translatedMsgids == translatedMsgids
      ensures this.disabledMsgids == disabledMsgids
    {
      this.language := language;
      this.po := po;
      this.poPath := poPath;
      this.poMsgids := poMsgids;
      this.translatedMsgstrs := translatedMsgstrs;
      this.translatedMsgids := translatedMsgids;
      this.disabledMsgids := disabledMsgids;
    }
  }

  /** A translated navigation title and its URL. */
  datatype NavTranslation = NavTranslation(title: string, url: string)

  /** Everything translated during a build. */
  class Translations {
    /** `files[src_path][language]`: temporary translated file of a page. */
    var files: map<string, map<string, string>>
    /** `nav[original_title][language]` */
    var nav: map<string, map<string, NavTranslation>>
    var compendiumFiles: map<string, PoPath>
    var compendiumMsgids: map<string, seq<string>>
    var compendiumMsgstrsTr: map<string, seq<string>>
    /** The translation of the page being rendered, if any. */
    var current: Translation?
    var all: map<string, seq<Translation>>
    /** Per-language completion counts and the language of each page location. */
    var stats: map<string, LanguageStats>
    var locations: map<string, string>

    constructor()
      ensures files == map[] && nav == map[] && compendiumFiles == map[]
      ensures compendiumMsgids == map[] && compendiumMsgstrsTr == map[]
      ensures current == null && all == map[] && stats == map[] && locations == map[]
    {
      files := map[];
      nav := map[];
      compendiumFiles := map[];
      compendiumMsgids := map[];
      compendiumMsgstrsTr := map[];
      current := null;
      all := map[];
      stats := map[];
      locations := map[];
    }
  }

  /** `<lang>/` */
  function LanguagePrefix(language: string): string
  {
    language + "/"
  }

  /** The location starts with the prefix of one of the languages. */
  predicate HasLanguagePrefix(location: string, languages: seq<string>)
  {
    exists l :: l in languages && StartsWith(location, LanguagePrefix(l))
  }

  /** Whether a record belongs to `language`'s index: the default language takes what no
      language prefix claims (its own prefix included), the others their own prefix. */
  predicate InBucket(location: string, languages: seq<string>, defaultLanguage: string, language: string)
  {
    if language == defaultLanguage then !HasLanguagePrefix(location, languages)
    else StartsWith(location, LanguagePrefix(language))
  }

  /** The records of `language`'s index, in order. */
  function Bucket(records: seq<Record>, languages: seq<string>, defaultLanguage: string, language: string): seq<Record>
  {
    if records == [] then []
    else
      var last := records[|records| - 1];
      Bucket(records[..|records| - 1], languages, defaultLanguage, language)
        + (if InBucket(last.location, languages, defaultLanguage, language) then [last] else [])
  }

  /** A bucket holds exactly the records of its language. */
  lemma {:induction false} BucketMembers(records: seq<Record>, languages: seq<string>, defaultLanguage: string, language: string)
    ensures forall x :: x in Bucket(records, languages, defaultLanguage, language) <==>
                        x in records && InBucket(x.location, languages, defaultLanguage, language)
    decreases |records|
  {
    if records != [] {
      var last := records[|records| - 1];
      assert records == records[..|records| - 1] + [last];
      BucketMembers(records[..|records| - 1], languages, defaultLanguage, language);
    }
  }


  /** Two language prefixes never both start a location (languages have no `/`). */
  lemma PrefixesExclusive(location: string, l1: string, l2: string)
    requires '/' !in l1 && '/' !in l2
    requires StartsWith(location, LanguagePrefix(l1)) && StartsWith(location, LanguagePrefix(l2))
    ensures l1 == l2
  {
    SlashAfterPrefix(location, l1);
    SlashAfterPrefix(location, l2);
  }

  lemma SlashAfterPrefix(location: string, language: string)
    requires StartsWith(location, LanguagePrefix(language))
    ensures |location| > |language| && location[|language|] == '/' && location[..|language|] == language
  {
    assert location[..|language|] == LanguagePrefix(language)[..|language|];
  }

  /** A record goes to at most one of the languages' indexes. */
  lemma AtMostOneBucket(location: string, languages: seq<string>, defaultLanguage: string, l1: string, l2: string)
    requires forall l :: l in languages ==> '/' !in l
    requires l1 in languages && l2 in languages
    requires InBucket(location, languages, defaultLanguage, l1) && InBucket(location, languages, defaultLanguage, l2)
    ensures l1 == l2
  {
    if l1 != defaultLanguage && l2 != defaultLanguage {
      PrefixesExclusive(location, l1, l2);
    }
  }

  /** A record goes to some index unless it carries the default language's own prefix, in
      which case it goes to none. */
  lemma SomeBucketUnlessDefaultPrefix(location: string, languages: seq<string>, defaultLanguage: string)
    requires forall l :: l in languages ==> '/' !in l
    requires defaultLanguage in languages
    ensures (exists l :: l in languages && InBucket(location, languages, defaultLanguage, l))
            <==> !StartsWith(location, LanguagePrefix(defaultLanguage))
  {
    if StartsWith(location, LanguagePrefix(defaultLanguage)) {
      forall l | l in languages
        ensures !InBucket(location, languages, defaultLanguage, l)
      {
        if l != defaultLanguage && StartsWith(location, LanguagePrefix(l)) {
          PrefixesExclusive(location, l, defaultLanguage);
        }
      }
    } else if HasLanguagePrefix(location, languages) {
      var l :| l in languages && StartsWith(location, LanguagePrefix(l));
      assert InBucket(location, languages, defaultLanguage, l);
    } else {
      assert InBucket(location, languages, defaultLanguage, defaultLanguage);
    }
  }

  /** The per-language loader script: `path.rstrip('.js') + '_<lang>.js'`, loading the
      language's index. */
  function LoaderFor(loader: JsFile, language: string): (r: Result<(string, string), PatchError>)
    ensures r.Ok? <==> loader.path.Some? && loader.content.Some?
  {
    if loader.path.None? || loader.content.None? then Err(WorkerFileMissing)
    else
      Ok((LanguageExtensionPath(loader.path.value, ".js", language, "_"),
          Replace(loader.content.value, "/search/search_index.json", "/search/search_index_" + language + ".json")))
  }

  /** A loader that fetched the site's index is written next to it under the language's
      name and fetches the language's index. */
  lemma LoaderLoadsLanguageIndex(path: string, content: string, language: string)
    requires HasInfix(content, "/search/search_index.json")
    ensures var r := LoaderFor(JsFile(Some(path), Some(content)), language);
      r.Ok? && EndsWith(r.value.0, "_" + language + ".js")
      && HasInfix(r.value.1, "/search/search_index_" + language + ".json")
  {
    LanguageExtensionPathShape(path, ".js", language, "_");
    ReplaceIntroduces(content, "/search/search_index.json", "/search/search_index_" + language + ".json");
  }

  /** The records of one index, collected in one pass. */
  method CollectBucket(records: seq<Record>, languages: seq<string>, defaultLanguage: string, language: string)
    returns (bucket: seq<Record>)
    ensures bucket == Bucket(records, languages, defaultLanguage, language)
  {
    bucket := [];
    var i := 0;
    while i < |records|
      invariant 0 <= i <= |records|
      invariant bucket == Bucket(records[..i], languages, defaultLanguage, language)
    {
      assert records[..i + 1][..i] == records[..i];
      if InBucket(records[i].location, languages, defaultLanguage, language) {
        bucket := bucket + [records[i]];
      }
      i := i + 1;
    }
    assert records[..i] == records;
  }

  /** The older search-index split, by location prefix. */
  class TranslationSearchIndexes {
    var searchIndexJsonPath: string
    var searchIndexJson: SearchIndexJson
    var searchIndex: seq<Record>
    var languages: seq<string>
    var defaultLanguage: string
    var langSearchIndexes: map<string, seq<Record>>
    var indexLoaderJs: JsFile
    /** Files written: language indexes and loader scripts. */
    var indexFiles: map<string, SearchIndexJson>
    var scriptFiles: map<string, string>

    /** The site's index and the loader script are read by the caller. */
    constructor(siteDir: string, json: SearchIndexJson, languages: seq<string>, defaultLanguage: string, loader: JsFile)
      ensures searchIndexJsonPath == siteDir + "/search/search_index.json"
      ensures searchIndexJson == json && searchIndex == json.docs
      ensures this.languages == languages && this.defaultLanguage == defaultLanguage
      ensures langSearchIndexes == map[defaultLanguage := []] && indexLoaderJs == loader
      ensures indexFiles == map[] && scriptFiles == map[]
    {
      searchIndexJsonPath := siteDir + "/search/search_index.json";
      searchIndexJson := json;
      searchIndex := json.docs;
      this.languages := languages;
      this.defaultLanguage := defaultLanguage;
      langSearchIndexes := map[defaultLanguage := []];
      indexLoaderJs := loader;
      indexFiles := map[];
      scriptFiles := map[];
    }

    /** `patch_site_dir` without the HTML pages: per language, its bucket, its index file
        (`_lang_search_index_json`) and its loader (`_lang_index_loader_js`). A missing
        loader fails after the first index is written. */
    method PatchSiteDir() returns (r: Result<(), PatchError>)
      modifies this
      ensures languages == old(languages) && defaultLanguage == old(defaultLanguage) && searchIndex == old(searchIndex)
      ensures searchIndexJsonPath == old(searchIndexJsonPath) && indexLoaderJs == old(indexLoaderJs)
      ensures r.Err? <==> |languages| > 0 && LoaderFor(indexLoaderJs, languages[0]).Err?
      ensures r.Ok? ==> langSearchIndexes.Keys == old(langSearchIndexes).Keys + (set l | l in languages)
      ensures r.Ok? ==> Written(searchIndex, languages, defaultLanguage, searchIndexJsonPath, indexLoaderJs,
                                languages, langSearchIndexes, indexFiles, scriptFiles)
      ensures r.Ok? && |languages| > 0 ==> searchIndexJson.docs == langSearchIndexes[languages[|languages| - 1]]
    {
      var buckets, json, indexes, scripts, ok :=
        WriteLanguages(searchIndex, languages, defaultLanguage, searchIndexJsonPath, indexLoaderJs,
                       langSearchIndexes, searchIndexJson, indexFiles, scriptFiles);
      langSearchIndexes, searchIndexJson, indexFiles, scriptFiles := buckets, json, indexes, scripts;
      r := if ok then Ok(()) else Err(WorkerFileMissing);
    }
  }

  /** For each language in `done`: its bucket, its index file and its loader script. */
  predicate Written(records: seq<Record>, langs: seq<string>, defaultLanguage: string, path0: string, loader: JsFile,
                    done: seq<string>, buckets: map<string, seq<Record>>,
                    indexes: map<string, SearchIndexJson>, scripts: map<string, string>)
  {
    forall l :: l in done ==>
      l in buckets && buckets[l] == Bucket(records, langs, defaultLanguage, l)
      && IndexHolds(indexes, path0, records, langs, defaultLanguage, l)
      && LoaderWritten(scripts, loader, l)
  }

  /** The loop of `patch_site_dir` on the values it updates. */
  method WriteLanguages(records: seq<Record>, langs: seq<string>, defaultLanguage: string, path0: string, loader: JsFile,
                        buckets0: map<string, seq<Record>>, json0: SearchIndexJson,
                        indexes0: map<string, SearchIndexJson>, scripts0: map<string, string>)
    returns (buckets: map<string, seq<Record>>, json: SearchIndexJson,
             indexes: map<string, SearchIndexJson>, scripts: map<string, string>, ok: bool)
    ensures !ok <==> |langs| > 0 && LoaderFor(loader, langs[0]).Err?
    ensures ok ==> buckets.Keys == buckets0.Keys + (set l | l in langs)
    ensures ok ==> Written(records, langs, defaultLanguage, path0, loader, langs, buckets, indexes, scripts)
    ensures ok && |langs| > 0 ==> json.docs == buckets[langs[|langs| - 1]]
  {
    buckets, json, indexes, scripts := buckets0, json0, indexes0, scripts0;
    var i := 0;
    while i < |langs|
      invariant 0 <= i <= |langs|
      invariant buckets.Keys == buckets0.Keys + (set l | l in langs[..i])
      invariant Written(records, langs, defaultLanguage, path0, loader, langs[..i], buckets, indexes, scripts)
      invariant i > 0 ==> json.docs == buckets[langs[i - 1]] && LoaderFor(loader, langs[0]).Ok?
    {
      assert langs[..i + 1] == langs[..i] + [langs[i]];
      buckets, json, indexes, scripts, ok :=
        WriteLanguage(records, langs, defaultLanguage, path0, loader, langs[..i], langs[i], buckets, json, indexes, scripts);
      if !ok {
        return;
      }
      i := i + 1;
    }
    assert langs[..i] == langs;
    ok := true;
  }

  /** One round of the loop: the bucket, the index (`_lang_search_index_json`) and the
      loader (`_lang_index_loader_js`) of `language`. */
  method WriteLanguage(records: seq<Record>, langs: seq<string>, defaultLanguage: string, path0: string, loader: JsFile,
                       done: seq<string>, language: string, buckets0: map<string, seq<Record>>, json0: SearchIndexJson,
                       indexes0: map<string, SearchIndexJson>, scripts0: map<string, string>)
    returns (buckets: map<string, seq<Record>>, json: SearchIndexJson,
             indexes: map<string, SearchIndexJson>, scripts: map<string, string>, ok: bool)
    requires Written(records, langs, defaultLanguage, path0, loader, done, buckets0, indexes0, scripts0)
    ensures buckets == buckets0[language := Bucket(records, langs, defaultLanguage, language)]
    ensures json.docs == buckets[language]
    ensures ok <==> LoaderFor(loader, language).Ok?
    ensures ok ==> Written(records, langs, defaultLanguage, path0, loader, done + [language], buckets, indexes, scripts)
  {
    var bucket := CollectBucket(records, langs, defaultLanguage, language);
    buckets := buckets0[language := bucket];
    var path := LanguageExtensionPath(path0, ".json", language, "_");
    // `search_index_json` itself is rewritten, not a copy
    json := LanguageIndex(json0, Material, language, bucket);
    IndexWriteKeeps(indexes0, path0, records, langs, defaultLanguage, done, language, json);
    indexes := indexes0[path := json];
    scripts := scripts0;
    var script := LoaderFor(loader, language);
    if script.Err? {
      return buckets, json, indexes, scripts, false;
    }
    LoaderWriteKeeps(scripts0, loader, done, language);
    scripts := scripts0[script.value.0 := script.value.1];
    ok := true;
  }

  /** The index file of `language` holds exactly its bucket. */
  predicate IndexHolds(indexes: map<string, SearchIndexJson>, path: string, records: seq<Record>,
                       languages: seq<string>, defaultLanguage: string, language: string)
  {
    var p := LanguageExtensionPath(path, ".json", language, "_");
    p in indexes && indexes[p].docs == Bucket(records, languages, defaultLanguage, language)
  }

  /** Writing one language's index keeps the other languages' indexes. */
  lemma IndexWriteKeeps(indexes: map<string, SearchIndexJson>, path: string, records: seq<Record>,
                        languages: seq<string>, defaultLanguage: string, done: seq<string>, language: string,
                        json: SearchIndexJson)
    requires forall l :: l in done ==> IndexHolds(indexes, path, records, languages, defaultLanguage, l)
    requires json.docs == Bucket(records, languages, defaultLanguage, language)
    ensures forall l :: l in done + [language] ==>
      IndexHolds(indexes[LanguageExtensionPath(path, ".json", language, "_") := json], path, records, languages, defaultLanguage, l)
  {
    forall l | l in done + [language]
      ensures IndexHolds(indexes[LanguageExtensionPath(path, ".json", language, "_") := json], path, records, languages, defaultLanguage, l)
    {
      if LanguageExtensionPath(path, ".json", l, "_") == LanguageExtensionPath(path, ".json", language, "_") {
        LanguageIndexPathInjective(path, ".json", l, language);
      }
    }
  }

  /** Writing one language's loader keeps the other languages' loaders. */
  lemma LoaderWriteKeeps(scripts: map<string, string>, loader: JsFile, done: seq<string>, language: string)
    requires forall l :: l in done ==> LoaderWritten(scripts, loader, l)
    requires LoaderFor(loader, language).Ok?
    ensures var w := LoaderFor(loader, language).value;
      forall l :: l in done + [language] ==> LoaderWritten(scripts[w.0 := w.1], loader, l)
  {
    var w := LoaderFor(loader, language).value;
    forall l | l in done + [language]
      ensures LoaderWritten(scripts[w.0 := w.1], loader, l)
    {
      if LoaderFor(loader, l).value.0 == w.0 {
        LanguageIndexPathInjective(loader.path.value, ".js", l, language);
      }
    }
  }

  /** The loader script of `language` was written with its rewritten content. */
  predicate LoaderWritten(scripts: map<string, string>, loader: JsFile, language: string)
  {
    var r := LoaderFor(loader, language);
    r.Ok? && r.value.0 in scripts && scripts[r.value.0] == r.value.1
  }
}
