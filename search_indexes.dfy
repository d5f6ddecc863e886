/** Splitting the site's search index by language (mkdocs_mdpo_plugin/search_indexes.py). */
module SearchIndexes {
  import opened Wrappers
  import opened Strings

  /** `_language_extension_path`: `path.rstrip(extension)` (a character-set strip), then
      the separator, the language and the extension. */
  function LanguageExtensionPath(path: string, extension: string, language: string, separator: string): string
  {
    RStrip(path, extension) + separator + language + extension
  }

  /** The new path ends with the separator, the language and the extension, after a prefix of
      the old path from which only characters of the extension were stripped. */
  lemma LanguageExtensionPathShape(path: string, extension: string, language: string, separator: string)
    ensures var r := LanguageExtensionPath(path, extension, language, separator);
      var stem := RStrip(path, extension);
      EndsWith(r, separator + language + extension) && r == stem + separator + language + extension
      && StartsWith(path, stem) && forall i :: |stem| <= i < |path| ==> path[i] in extension
  {
    var r := LanguageExtensionPath(path, extension, language, separator);
    assert r[|r| - |separator + language + extension|..] == separator + language + extension;
  }

  /** When the stem does not end in one of the extension's characters, the strip is the
      removal of the extension (`search_index.json`, `worker.js`, `main.js`). */
  lemma LanguageExtensionPathOfStem(stem: string, extension: string, language: string, separator: string)
    requires stem != [] && stem[|stem| - 1] !in extension
    ensures LanguageExtensionPath(stem + extension, extension, language, separator) == stem + separator + language + extension
  {
    RStripStopsAtStem(stem, extension);
  }

  lemma {:induction false} RStripStopsAtStem(stem: string, chars: string)
    requires stem != [] && stem[|stem| - 1] !in chars
    ensures RStrip(stem + chars, chars) == stem
    decreases |chars|
  {
    if chars == [] {
      assert stem + chars == stem;
    } else {
      var s := stem + chars;
      assert s[|s| - 1] == chars[|chars| - 1];
      assert s[..|s| - 1] == stem + chars[..|chars| - 1];
      RStripMore(stem, chars[..|chars| - 1], chars);
    }
  }

  /** Stripping the characters of `chars` from `stem + tail`, where `tail` only uses them. */
  lemma {:induction false} RStripMore(stem: string, tail: string, chars: string)
    requires stem != [] && stem[|stem| - 1] !in chars
    requires forall c :: c in tail ==> c in chars
    ensures RStrip(stem + tail, chars) == stem
    decreases |tail|
  {
    if tail == [] {
      assert stem + tail == stem;
    } else {
      var s := stem + tail;
      assert s[|s| - 1] == tail[|tail| - 1];
      assert s[..|s| - 1] == stem + tail[..|tail| - 1];
      RStripMore(stem, tail[..|tail| - 1], chars);
    }
  }

  /** The strip is not suffix removal: `tabs.js` loses its `s` as well. */
  lemma RStripIsNotSuffixRemoval()
    ensures LanguageExtensionPath("tabs.js", ".js", "es", "_") == "tab_es.js"
  {
    RStripMore("tab", "s.js", ".js");
    assert "tab" + "s.js" == "tabs.js";
  }

  /** A search-index record; only the location matters for the split. */
  datatype Record = Record(location: string, title: string, text: string)

  /** `search_index.json`: `config` (with its optional `lang`) and `docs`. */
  datatype SearchConfig = SearchConfig(lang: Option<seq<string>>)
  datatype SearchIndexJson = SearchIndexJson(config: Option<SearchConfig>, docs: seq<Record>)

  /** A worker file: `{'path': …, 'content': …}`, either of which may be missing. */
  datatype JsFile = JsFile(path: Option<string>, content: Option<string>)

  datatype Theme = Material | Mkdocs

  /** Which bucket a record goes to (search_indexes.py:208-223): `None` for no bucket. */
  function RecordLanguage(location: string, locations: map<string, string>, defaultLanguage: string): Option<string>
  {
    if location == [] then Some(defaultLanguage)
    else if '#' in location then
      if location[0] == '#' then Some(defaultLanguage)
      else
        var clean := BeforeFirst(location, '#');
        if clean in locations then Some(locations[clean]) else None
    else if location in locations then Some(locations[location])
    else None
  }

  /** The records whose bucket is `language`, in order. */
  function RecordsOf(records: seq<Record>, locations: map<string, string>, defaultLanguage: string, language: string)
    : seq<Record>
  {
    if records == [] then []
    else
      var last := records[|records| - 1];
      RecordsOf(records[..|records| - 1], locations, defaultLanguage, language)
        + (if RecordLanguage(last.location, locations, defaultLanguage) == Some(language) then [last] else [])
  }

  /** A bucket gets exactly the records of its language. */
  lemma {:induction false} RecordsOfMembers(records: seq<Record>, locations: map<string, string>, defaultLanguage: string,
                                            language: string)
    ensures forall x :: x in RecordsOf(records, locations, defaultLanguage, language)
                        <==> x in records && RecordLanguage(x.location, locations, defaultLanguage) == Some(language)
  {
    if records != [] {
      var last := records[|records| - 1];
      assert records == records[..|records| - 1] + [last];
      RecordsOfMembers(records[..|records| - 1], locations, defaultLanguage, language);
    }
  }

  datatype PatchError = WorkerFileMissing | UnknownLanguage(language: string)

  /** Appending the records to the buckets, failing like `lang_search_indexes[language]`
      on a language without a bucket. */
  function Partition(buckets: map<string, seq<Record>>, records: seq<Record>, locations: map<string, string>,
                     defaultLanguage: string): Result<map<string, seq<Record>>, PatchError>
    decreases |records|
  {
    if records == [] then Ok(buckets)
    else
      var prev := Partition(buckets, records[..|records| - 1], locations, defaultLanguage);
      if prev.Err? then prev
      else
        var last := records[|records| - 1];
        match RecordLanguage(last.location, locations, defaultLanguage)
        case None => prev
        case Some(l) =>
          if l in prev.value then Ok(prev.value[l := prev.value[l] + [last]]) else Err(UnknownLanguage(l))
  }

  /** When it succeeds, the partition keeps the buckets and appends to each exactly the
      records of its language, in order; it fails exactly when a record's language has no
      bucket. */
  lemma PartitionSpec(buckets: map<string, seq<Record>>, records: seq<Record>,
                      locations: map<string, string>, defaultLanguage: string)
    ensures var r := Partition(buckets, records, locations, defaultLanguage);
      (r.Ok? <==> forall i :: 0 <= i < |records| ==>
                    var l := RecordLanguage(records[i].location, locations, defaultLanguage);
                    l.Some? ==> l.value in buckets)
      && (r.Ok? ==> r.value.Keys == buckets.Keys
                    && forall l :: l in buckets ==> r.value[l] == buckets[l] + RecordsOf(records, locations, defaultLanguage, l))
  {
    PartitionFails(buckets, records, locations, defaultLanguage);
    PartitionBuckets(buckets, records, locations, defaultLanguage);
  }

  lemma {:induction false} PartitionFails(buckets: map<string, seq<Record>>, records: seq<Record>,
                                          locations: map<string, string>, defaultLanguage: string)
    ensures var r := Partition(buckets, records, locations, defaultLanguage);
      (r.Ok? <==> forall i :: 0 <= i < |records| ==>
                    var l := RecordLanguage(records[i].location, locations, defaultLanguage);
                    l.Some? ==> l.value in buckets)
      && (r.Ok? ==> r.value.Keys == buckets.Keys)
    decreases |records|
  {
    if records != [] {
      var init := records[..|records| - 1];
      PartitionFails(buckets, init, locations, defaultLanguage);
      assert forall i :: 0 <= i < |init| ==> init[i] == records[i];
    }
  }

  lemma {:induction false} PartitionBuckets(buckets: map<string, seq<Record>>, records: seq<Record>,
                                            locations: map<string, string>, defaultLanguage: string)
    ensures var r := Partition(buckets, records, locations, defaultLanguage);
      r.Ok? ==> r.value.Keys == buckets.Keys
                && forall l :: l in buckets ==> r.value[l] == buckets[l] + RecordsOf(records, locations, defaultLanguage, l)
    decreases |records|
  {
    if records != [] {
      PartitionBuckets(buckets, records[..|records| - 1], locations, defaultLanguage);
    }
  }

  /** `_get_html_files_by_language` for the given paths relative to the site directory. */
  function HtmlLanguage(relpath: string, locations: map<string, string>, defaultLanguage: string): string
  {
    var location := RStrip(relpath, "index.html");
    if location in locations then locations[location] else defaultLanguage
  }

  /** For a page rendered as `dir/index.html`, the strip is the removal of `index.html`. */
  lemma HtmlLocationOfIndex(dir: string)
    requires dir != [] && dir[|dir| - 1] == '/'
    ensures RStrip(dir + "index.html", "index.html") == dir
  {
    RStripStopsAtStem(dir, "index.html");
  }

  /** The paths of one language's bucket, in order. */
  function FilesOf(paths: seq<string>, locations: map<string, string>, defaultLanguage: string, language: string)
    : seq<string>
  {
    if paths == [] then []
    else
      var last := paths[|paths| - 1];
      FilesOf(paths[..|paths| - 1], locations, defaultLanguage, language)
        + (if HtmlLanguage(last, locations, defaultLanguage) == language then [last] else [])
  }

  /** A bucket holds exactly the paths whose language is the bucket's. */
  lemma {:induction false} FilesOfMembers(paths: seq<string>, locations: map<string, string>, defaultLanguage: string,
                                          language: string)
    ensures forall p :: p in FilesOf(paths, locations, defaultLanguage, language)
                        <==> p in paths && HtmlLanguage(p, locations, defaultLanguage) == language
  {
    if paths != [] {
      var last := paths[|paths| - 1];
      assert paths == paths[..|paths| - 1] + [last];
      FilesOfMembers(paths[..|paths| - 1], locations, defaultLanguage, language);
    }
  }

  /** One more path extends only its own language's bucket. */
  lemma FilesOfStep(paths: seq<string>, i: int, locations: map<string, string>, defaultLanguage: string, language: string)
    requires 0 <= i < |paths|
    ensures FilesOf(paths[..i + 1], locations, defaultLanguage, language)
            == FilesOf(paths[..i], locations, defaultLanguage, language)
               + (if HtmlLanguage(paths[i], locations, defaultLanguage) == language then [paths[i]] else [])
  {
    assert paths[..i + 1][..i] == paths[..i];
  }

  /** Every path's language is among `keys`. */
  predicate Known(paths: seq<string>, locations: map<string, string>, defaultLanguage: string, keys: set<string>)
  {
    paths == []
    || (Known(paths[..|paths| - 1], locations, defaultLanguage, keys)
        && HtmlLanguage(paths[|paths| - 1], locations, defaultLanguage) in keys)
  }

  lemma KnownStep(paths: seq<string>, i: int, locations: map<string, string>, defaultLanguage: string, keys: set<string>)
    requires 0 <= i < |paths|
    ensures Known(paths[..i + 1], locations, defaultLanguage, keys)
            == (Known(paths[..i], locations, defaultLanguage, keys) && HtmlLanguage(paths[i], locations, defaultLanguage) in keys)
  {
    assert paths[..i + 1][..i] == paths[..i];
  }

  lemma {:induction false} KnownMeans(paths: seq<string>, locations: map<string, string>, defaultLanguage: string,
                                      keys: set<string>)
    ensures Known(paths, locations, defaultLanguage, keys)
            <==> forall i :: 0 <= i < |paths| ==> HtmlLanguage(paths[i], locations, defaultLanguage) in keys
  {
    if paths != [] {
      var init := paths[..|paths| - 1];
      KnownMeans(init, locations, defaultLanguage, keys);
      assert forall i :: 0 <= i < |init| ==> init[i] == paths[i];
    }
  }

  /** The loop over the HTML files: each lands in the bucket of exactly one language. */
  method HtmlFilesByLanguage(paths: seq<string>, languages: seq<string>, locations: map<string, string>,
                             defaultLanguage: string) returns (r: Result<map<string, seq<string>>, PatchError>)
    ensures r.Ok? <==> forall i :: 0 <= i < |paths| ==> HtmlLanguage(paths[i], locations, defaultLanguage) in languages
    ensures r.Ok? ==> r.value.Keys == set l | l in languages
    ensures r.Ok? ==> forall l :: l in r.value ==> r.value[l] == FilesOf(paths, locations, defaultLanguage, l)
  {
    var files: map<string, seq<string>> := map l | l in languages :: [];
    ghost var known := set l | l in languages;
    var i := 0;
    while i < |paths|
      invariant 0 <= i <= |paths|
      invariant forall l :: l in files <==> l in languages
      invariant Known(paths[..i], locations, defaultLanguage, known)
      invariant forall l :: l in files ==> files[l] == FilesOf(paths[..i], locations, defaultLanguage, l)
    {
      var language := HtmlLanguage(paths[i], locations, defaultLanguage);
      if language !in files {
        return Err(UnknownLanguage(language));
      }
      files := files[language := files[language] + [paths[i]]];
      KnownStep(paths, i, locations, defaultLanguage, known);
      forall l | l in files
        ensures files[l] == FilesOf(paths[..i + 1], locations, defaultLanguage, l)
      {
        FilesOfStep(paths, i, locations, defaultLanguage, l);
      }
      i := i + 1;
    }
    assert paths[..i] == paths;
    KnownMeans(paths, locations, defaultLanguage, known);
    return Ok(files);
  }

  /** The JSON written for a language: the same document with `docs` replaced by the
      bucket and, for the themes that need it, `config.lang` set to the language. */
  function LanguageIndex(json: SearchIndexJson, theme: Theme, language: string, records: seq<Record>): (r: SearchIndexJson)
    ensures r.docs == records
    ensures theme == Material && json.config.Some? && json.config.value.lang.Some? ==> r.config == Some(SearchConfig(Some([language])))
    ensures !(theme == Material && json.config.Some? && json.config.value.lang.Some?) ==> r.config == json.config
  {
    var config := if theme == Material && json.config.Some? && json.config.value.lang.Some?
                  then Some(SearchConfig(Some([language]))) else json.config;
    SearchIndexJson(config, records)
  }

  /** The worker files of a theme were all found: one for material, worker and main script for mkdocs. */
  predicate CompleteFor(theme: Theme, files: seq<JsFile>)
  {
    (forall f :: f in files ==> f.path.Some? && f.content.Some?)
    && (theme == Material ==> |files| >= 1)
    && (theme == Mkdocs ==> |files| == 2)
  }

  /** Worker and loader rewrites for a language (search_indexes.py:70-107): one script per
      worker file the theme uses, written beside it with `_<language>` before `.js`. */
  function PatchWorkerFiles(theme: Theme, files: seq<JsFile>, language: string): (r: seq<(string, string)>)
    requires CompleteFor(theme, files)
    ensures |r| == (if theme == Material then 1 else 2) && |r| <= |files|
    ensures forall k :: 0 <= k < |r| ==> r[k].0 == LanguageExtensionPath(files[k].path.value, ".js", language, "_")
  {
    match theme
    case Material =>
      [(LanguageExtensionPath(files[0].path.value, ".js", language, "_"),
        Replace(files[0].content.value, "/search/search_index.json", "/search/search_index_" + language + ".json"))]
    case Mkdocs =>
      [(LanguageExtensionPath(files[0].path.value, ".js", language, "_"),
        Replace(files[0].content.value, "search_index.json", "search_index_" + language + ".json")),
       (LanguageExtensionPath(files[1].path.value, ".js", language, "_"),
        Replace(files[1].content.value, "search/worker.js", "search/worker_" + language + ".js"))]
  }

  /** Rewriting an HTML page to load the language's assets (search_indexes.py:120-148). */
  function PatchHtml(theme: Theme, content: string, language: string, workerName: string): string
    requires workerName != []
  {
    match theme
    case Material =>
      Replace(content, "assets/javascripts/" + workerName + "\"",
              "assets/javascripts/" + LanguageExtensionPath(workerName, ".js", language, "_") + "\"")
    case Mkdocs => Replace(content, "search/main.js", "search/main_" + language + ".js")
  }

  /** A page that loads the theme's search script loads the language's script once
      rewritten; a page that does not load it is left as it was. */
  lemma PatchHtmlLoadsLanguageScript(theme: Theme, content: string, language: string, workerName: string)
    requires workerName != []
    ensures var patched := PatchHtml(theme, content, language, workerName);
      var script := "assets/javascripts/" + workerName + "\"";
      && (theme == Material && HasInfix(content, script)
          ==> HasInfix(patched, "assets/javascripts/" + LanguageExtensionPath(workerName, ".js", language, "_") + "\""))
      && (theme == Material && !HasInfix(content, script) ==> patched == content)
      && (theme == Mkdocs && HasInfix(content, "search/main.js") ==> HasInfix(patched, "search/main_" + language + ".js"))
      && (theme == Mkdocs && !HasInfix(content, "search/main.js") ==> patched == content)
  {
    var script := "assets/javascripts/" + workerName + "\"";
    var target := "assets/javascripts/" + LanguageExtensionPath(workerName, ".js", language, "_") + "\"";
    match theme
    case Material =>
      if HasInfix(content, script) {
        ReplaceIntroduces(content, script, target);
      } else {
        ReplaceWithoutPattern(content, script, target);
      }
    case Mkdocs =>
      if HasInfix(content, "search/main.js") {
        ReplaceIntroduces(content, "search/main.js", "search/main_" + language + ".js");
      } else {
        ReplaceWithoutPattern(content, "search/main.js", "search/main_" + language + ".js");
      }
  }

  /** A material worker that loads the index loads the language's index once rewritten. */
  lemma MaterialWorkerPatched(worker: string, language: string)
    requires HasInfix(worker, "/search/search_index.json")
    ensures var patched := PatchWorkerFiles(Material, [JsFile(Some("worker.js"), Some(worker))], language);
      HasInfix(patched[0].1, "/search/search_index_" + language + ".json")
  {
    ReplaceIntroduces(worker, "/search/search_index.json", "/search/search_index_" + language + ".json");
  }

  /** A mkdocs-theme worker that loads the index loads the language's index afterwards, and
      the main script loads the language's worker. */
  lemma MkdocsWorkerPatched(worker: string, main: string, language: string)
    requires HasInfix(worker, "search_index.json") && HasInfix(main, "search/worker.js")
    ensures var patched := PatchWorkerFiles(Mkdocs, [JsFile(Some("worker.js"), Some(worker)), JsFile(Some("main.js"), Some(main))], language);
      HasInfix(patched[0].1, "search_index_" + language + ".json")
      && HasInfix(patched[1].1, "search/worker_" + language + ".js")
  {
    ReplaceIntroduces(worker, "search_index.json", "search_index_" + language + ".json");
    ReplaceIntroduces(main, "search/worker.js", "search/worker_" + language + ".js");
  }

  /** `TranslationsSearchPatcher`: the state of one split of the search index. */
  class TranslationsSearchPatcher {
    var searchIndexJsonPath: string
    var searchIndexJson: SearchIndexJson
    var searchIndex: seq<Record>
    var languages: seq<string>
    var defaultLanguage: string
    var theme: Theme
    var locations: map<string, string>
    var langSearchIndexes: map<string, seq<Record>>
    var workerJsFiles: seq<JsFile>
    /** Files written by the patch: language indexes and worker scripts. */
    var indexFiles: map<string, SearchIndexJson>
    var scriptFiles: map<string, string>

    /** The constructor: the JSON document and the worker files are read by the caller;
        the `OSError` for a missing worker file is the caller's check (`Create`). */
    constructor(searchIndexJsonPath: string, json: SearchIndexJson, languages: seq<string>, defaultLanguage: string,
                theme: Theme, locations: map<string, string>, workerJsFiles: seq<JsFile>)
      ensures this.searchIndexJsonPath == searchIndexJsonPath && this.searchIndexJson == json
      ensures searchIndex == json.docs && this.languages == languages && this.defaultLanguage == defaultLanguage
      ensures this.theme == theme && this.locations == locations && this.workerJsFiles == workerJsFiles
      ensures langSearchIndexes == map l | l in languages :: []
      ensures indexFiles == map[] && scriptFiles == map[]
    {
      this.searchIndexJsonPath := searchIndexJsonPath;
      this.searchIndexJson := json;
      searchIndex := json.docs;
      this.languages := languages;
      this.defaultLanguage := defaultLanguage;
      this.theme := theme;
      this.locations := locations;
      langSearchIndexes := map l | l in languages :: [];
      this.workerJsFiles := workerJsFiles;
      indexFiles := map[];
      scriptFiles := map[];
    }

    /** Splits the records into the language buckets (search_indexes.py:207-223). */
    method PartitionRecords() returns (r: Result<(), PatchError>)
      modifies this
      ensures var p := Partition(old(langSearchIndexes), searchIndex, locations, defaultLanguage);
        (r.Ok? <==> p.Ok?) && (p.Ok? ==> langSearchIndexes == p.value)
      ensures searchIndex == old(searchIndex) && locations == old(locations) && defaultLanguage == old(defaultLanguage)
      ensures languages == old(languages) && theme == old(theme) && workerJsFiles == old(workerJsFiles)
      ensures searchIndexJson == old(searchIndexJson) && searchIndexJsonPath == old(searchIndexJsonPath)
      ensures indexFiles == old(indexFiles) && scriptFiles == old(scriptFiles)
    {
      var i := 0;
      while i < |searchIndex|
        invariant 0 <= i <= |searchIndex|
        invariant Partition(old(langSearchIndexes), searchIndex[..i], locations, defaultLanguage) == Ok(langSearchIndexes)
        invariant searchIndex == old(searchIndex) && locations == old(locations) && defaultLanguage == old(defaultLanguage)
        invariant languages == old(languages) && theme == old(theme) && workerJsFiles == old(workerJsFiles)
        invariant searchIndexJson == old(searchIndexJson) && searchIndexJsonPath == old(searchIndexJsonPath)
        invariant indexFiles == old(indexFiles) && scriptFiles == old(scriptFiles)
      {
        assert searchIndex[..i + 1][..i] == searchIndex[..i];
        var record := searchIndex[i];
        var language := RecordLanguage(record.location, locations, defaultLanguage);
        if language.Some? {
          if language.value !in langSearchIndexes {
            PartitionFailureSticks(old(langSearchIndexes), searchIndex, i + 1, locations, defaultLanguage);
            assert searchIndex[..|searchIndex|] == searchIndex;
            return Err(UnknownLanguage(language.value));
          }
          langSearchIndexes := langSearchIndexes[language.value := langSearchIndexes[language.value] + [record]];
        }
        i := i + 1;
      }
      assert searchIndex[..i] == searchIndex;
      return Ok(());
    }

    /** `patch_site_dir` after the split (search_indexes.py:225-240): per language, its
        index file and its worker scripts. HTML pages are read and written by the caller
        with `PatchHtml`. */
    method WriteLanguageFiles() returns (r: Result<(), PatchError>)
      requires CompleteFor(theme, workerJsFiles)
      modifies this
      ensures languages == old(languages) && langSearchIndexes == old(langSearchIndexes)
      ensures theme == old(theme) && workerJsFiles == old(workerJsFiles) && searchIndexJsonPath == old(searchIndexJsonPath)
      ensures r.Ok? <==> forall l :: l in languages ==> l in langSearchIndexes
      ensures r.Ok? ==> IndexesWritten(old(indexFiles), indexFiles, searchIndexJsonPath, old(searchIndexJson), theme,
                                       langSearchIndexes, languages)
      ensures r.Ok? ==> scriptFiles == ScriptsAfter(old(scriptFiles), theme, workerJsFiles, languages)
      // the shallow copies share `config`: the last language's `lang` stays in the original
      ensures r.Ok? ==> searchIndexJson == SharedJsonAfter(old(searchIndexJson), theme, languages)
    {
      r, searchIndexJson, indexFiles, scriptFiles :=
        WriteLanguageIndexes(languages, langSearchIndexes, searchIndexJsonPath, theme, workerJsFiles,
                       searchIndexJson, indexFiles, scriptFiles);
    }
  }

  /** The loop of `patch_site_dir` over the languages (search_indexes.py:227-240), on the
      patcher's values: the JSON document, the index files and the script files. */
  method WriteLanguageIndexes(langs: seq<string>, buckets: map<string, seq<Record>>, path0: string, theme: Theme,
                        workers: seq<JsFile>, json0: SearchIndexJson, indexes0: map<string, SearchIndexJson>,
                        scripts0: map<string, string>)
    returns (r: Result<(), PatchError>, json: SearchIndexJson, indexes: map<string, SearchIndexJson>,
             scripts: map<string, string>)
    requires CompleteFor(theme, workers)
    ensures r.Ok? <==> forall l :: l in langs ==> l in buckets
    ensures r.Ok? ==> IndexesWritten(indexes0, indexes, path0, json0, theme, buckets, langs)
    ensures r.Ok? ==> scripts == ScriptsAfter(scripts0, theme, workers, langs)
    ensures r.Ok? ==> json == SharedJsonAfter(json0, theme, langs)
  {
    json, indexes, scripts := json0, indexes0, scripts0;
    var i := 0;
    while i < |langs|
      invariant 0 <= i <= |langs|
      invariant IndexesWritten(indexes0, indexes, path0, json0, theme, buckets, langs[..i])
      invariant scripts == ScriptsAfter(scripts0, theme, workers, langs[..i])
      invariant json == SharedJsonAfter(json0, theme, langs[..i])
    {
      var language := langs[i];
      if language !in buckets {
        return Err(UnknownLanguage(language)), json, indexes, scripts;
      }
      var index := LanguageIndex(json, theme, language, buckets[language]);
      LanguageStep(langs, i, buckets, path0, theme, workers, json0, indexes0, scripts0, json, indexes, scripts);
      indexes := indexes[LanguageExtensionPath(path0, ".json", language, "_") := index];
      json := json.(config := index.config);
      scripts := WriteScripts(scripts, PatchWorkerFiles(theme, workers, language));
      i := i + 1;
    }
    assert langs[..i] == langs;
    r := Ok(());
  }

  /** One turn of the loop of `WriteLanguageIndexes` takes its three values from the
      languages before `langs[i]` to the languages up to it. */
  lemma LanguageStep(langs: seq<string>, i: int, buckets: map<string, seq<Record>>, path0: string, theme: Theme,
                     workers: seq<JsFile>, json0: SearchIndexJson, indexes0: map<string, SearchIndexJson>,
                     scripts0: map<string, string>, json: SearchIndexJson, indexes: map<string, SearchIndexJson>,
                     scripts: map<string, string>)
    requires CompleteFor(theme, workers) && 0 <= i < |langs| && langs[i] in buckets
    requires IndexesWritten(indexes0, indexes, path0, json0, theme, buckets, langs[..i])
    requires scripts == ScriptsAfter(scripts0, theme, workers, langs[..i])
    requires json == SharedJsonAfter(json0, theme, langs[..i])
    ensures var index := LanguageIndex(json, theme, langs[i], buckets[langs[i]]);
      && IndexesWritten(indexes0, indexes[LanguageExtensionPath(path0, ".json", langs[i], "_") := index], path0, json0,
                        theme, buckets, langs[..i + 1])
      && WriteScripts(scripts, PatchWorkerFiles(theme, workers, langs[i])) == ScriptsAfter(scripts0, theme, workers, langs[..i + 1])
      && json.(config := index.config) == SharedJsonAfter(json0, theme, langs[..i + 1])
  {
    var language := langs[i];
    SharedJsonIndexes(json0, theme, langs[..i], language, buckets[language]);
    IndexesStep(indexes0, indexes, path0, json0, theme, buckets, langs[..i], language);
    SharedJsonSnoc(json0, theme, langs, i);
    ScriptsAfterSnoc(scripts0, theme, workers, langs, i);
    assert langs[..i + 1] == langs[..i] + [language];
  }

  /** The index file of `language` holds the index of its bucket. */
  predicate IndexWritten(indexes: map<string, SearchIndexJson>, path: string, json: SearchIndexJson, theme: Theme,
                         buckets: map<string, seq<Record>>, language: string)
  {
    var p := LanguageExtensionPath(path, ".json", language, "_");
    language in buckets && p in indexes && indexes[p] == LanguageIndex(json, theme, language, buckets[language])
  }

  /** Every language of `done` has its index file, and the files at other paths are as
      they were in `indexes0`. */
  ghost predicate IndexesWritten(indexes0: map<string, SearchIndexJson>, indexes: map<string, SearchIndexJson>, path: string,
                           json: SearchIndexJson, theme: Theme, buckets: map<string, seq<Record>>, done: seq<string>)
  {
    && (forall l :: l in done ==> IndexWritten(indexes, path, json, theme, buckets, l))
    && (forall p :: (forall l :: l in done ==> p != LanguageExtensionPath(path, ".json", l, "_"))
          ==> (p in indexes <==> p in indexes0) && (p in indexes0 ==> indexes[p] == indexes0[p]))
  }

  /** Writing one more language's index keeps the indexes already written. */
  lemma IndexesStep(indexes0: map<string, SearchIndexJson>, indexes: map<string, SearchIndexJson>, path: string,
                    json: SearchIndexJson, theme: Theme, buckets: map<string, seq<Record>>, done: seq<string>,
                    language: string)
    requires IndexesWritten(indexes0, indexes, path, json, theme, buckets, done) && language in buckets
    ensures var p := LanguageExtensionPath(path, ".json", language, "_");
      IndexesWritten(indexes0, indexes[p := LanguageIndex(json, theme, language, buckets[language])], path, json, theme,
                     buckets, done + [language])
  {
    var p := LanguageExtensionPath(path, ".json", language, "_");
    forall l | l in done && LanguageExtensionPath(path, ".json", l, "_") == p
      ensures l == language
    {
      LanguageIndexPathInjective(path, ".json", l, language);
    }
  }

  /** The site's JSON document after the indexes of `langs` were made from shallow copies
      of it: where `config.lang` is rewritten, the last language's value is left in it. */
  function SharedJsonAfter(json: SearchIndexJson, theme: Theme, langs: seq<string>): (r: SearchIndexJson)
    ensures r.docs == json.docs
  {
    if langs == [] then json else json.(config := LanguageIndex(json, theme, langs[|langs| - 1], []).config)
  }

  /** The rewritten `config.lang` of the shared document does not change the index made
      for any later language. */
  lemma SharedJsonIndexes(json: SearchIndexJson, theme: Theme, langs: seq<string>, language: string, records: seq<Record>)
    ensures LanguageIndex(SharedJsonAfter(json, theme, langs), theme, language, records) == LanguageIndex(json, theme, language, records)
  {
  }

  /** One more language of the loop of `patch_site_dir` leaves its `lang` in the shared
      document. */
  lemma SharedJsonSnoc(json: SearchIndexJson, theme: Theme, langs: seq<string>, i: int)
    requires 0 <= i < |langs|
    ensures SharedJsonAfter(json, theme, langs[..i + 1])
            == SharedJsonAfter(json, theme, langs[..i]).(config := LanguageIndex(SharedJsonAfter(json, theme, langs[..i]), theme, langs[i], []).config)
  {
    assert langs[..i + 1][..i] == langs[..i];
  }

  /** One more language of the loop of `patch_site_dir`: its scripts are written after those
      of the languages before it. */
  lemma ScriptsAfterSnoc(scripts: map<string, string>, theme: Theme, workers: seq<JsFile>, langs: seq<string>, i: int)
    requires CompleteFor(theme, workers) && 0 <= i < |langs|
    ensures ScriptsAfter(scripts, theme, workers, langs[..i + 1])
            == WriteScripts(ScriptsAfter(scripts, theme, workers, langs[..i]), PatchWorkerFiles(theme, workers, langs[i]))
  {
    assert langs[..i + 1][..i] == langs[..i];
  }

  /** The script files after the rewrites of the languages `langs`, written in order. */
  function ScriptsAfter(scripts: map<string, string>, theme: Theme, workers: seq<JsFile>, langs: seq<string>)
    : map<string, string>
    requires CompleteFor(theme, workers)
    decreases |langs|
  {
    if langs == [] then scripts
    else WriteScripts(ScriptsAfter(scripts, theme, workers, langs[..|langs| - 1]),
                      PatchWorkerFiles(theme, workers, langs[|langs| - 1]))
  }

  /** No two rewritten scripts, of one language or of two, share a path. */
  predicate DistinctScriptPaths(theme: Theme, workers: seq<JsFile>, langs: seq<string>)
    requires CompleteFor(theme, workers)
  {
    forall l1, l2, k1, k2 :: l1 in langs && l2 in langs && (l1 != l2 || k1 != k2)
      && 0 <= k1 < |PatchWorkerFiles(theme, workers, l1)| && 0 <= k2 < |PatchWorkerFiles(theme, workers, l2)|
      ==> PatchWorkerFiles(theme, workers, l1)[k1].0 != PatchWorkerFiles(theme, workers, l2)[k2].0
  }

  /** When no two rewritten scripts share a path, every rewritten script of every language
      is on disk with its rewritten content, and other scripts are kept. */
  lemma {:induction false} ScriptsAfterHold(scripts: map<string, string>, theme: Theme, workers: seq<JsFile>,
                                            langs: seq<string>, language: string, k: int)
    requires CompleteFor(theme, workers) && DistinctScriptPaths(theme, workers, langs)
    requires language in langs && 0 <= k < |PatchWorkerFiles(theme, workers, language)|
    ensures var file := PatchWorkerFiles(theme, workers, language)[k];
      file.0 in ScriptsAfter(scripts, theme, workers, langs) && ScriptsAfter(scripts, theme, workers, langs)[file.0] == file.1
    decreases |langs|
  {
    var init := langs[..|langs| - 1];
    var last := langs[|langs| - 1];
    var files := PatchWorkerFiles(theme, workers, last);
    var file := PatchWorkerFiles(theme, workers, language)[k];
    if language == last {
      WriteScriptsLast(ScriptsAfter(scripts, theme, workers, init), files, k);
    } else {
      assert language in init by { assert langs == init + [last]; }
      assert DistinctScriptPaths(theme, workers, init);
      ScriptsAfterHold(scripts, theme, workers, init, language, k);
      assert forall j :: 0 <= j < |files| ==> files[j].0 != file.0;
      WriteScriptsKeeps(ScriptsAfter(scripts, theme, workers, init), files);
    }
  }

  /** The last write to a path decides its content. */
  lemma {:induction false} WriteScriptsLast(scripts: map<string, string>, files: seq<(string, string)>, k: int)
    requires 0 <= k < |files|
    requires forall j :: k < j < |files| ==> files[j].0 != files[k].0
    ensures files[k].0 in WriteScripts(scripts, files) && WriteScripts(scripts, files)[files[k].0] == files[k].1
    decreases |files|
  {
    if k > 0 {
      WriteScriptsLast(scripts[files[0].0 := files[0].1], files[1..], k - 1);
    } else {
      assert forall j :: 0 <= j < |files[1..]| ==> files[1..][j].0 != files[0].0;
      WriteScriptsKeeps(scripts[files[0].0 := files[0].1], files[1..]);
    }
  }

  function WriteScripts(scripts: map<string, string>, files: seq<(string, string)>): map<string, string>
    decreases |files|
  {
    if files == [] then scripts
    else WriteScripts(scripts[files[0].0 := files[0].1], files[1..])
  }

  /** Writing files in order: the written paths are added, and untouched paths keep their
      content. */
  lemma {:induction false} WriteScriptsKeeps(scripts: map<string, string>, files: seq<(string, string)>)
    ensures var r := WriteScripts(scripts, files);
      && r.Keys == scripts.Keys + (set k | 0 <= k < |files| :: files[k].0)
      && forall p :: p in scripts && (forall k :: 0 <= k < |files| ==> files[k].0 != p) ==> r[p] == scripts[p]
    decreases |files|
  {
    if files != [] {
      WriteScriptsKeeps(scripts[files[0].0 := files[0].1], files[1..]);
      var paths := set k | 0 <= k < |files| :: files[k].0;
      var rest := set k | 0 <= k < |files[1..]| :: files[1..][k].0;
      assert paths == {files[0].0} + rest by {
        forall x | x in paths ensures x in {files[0].0} + rest {
          var k :| 0 <= k < |files| && files[k].0 == x;
          if k > 0 {
            assert files[1..][k - 1].0 == x;
          }
        }
      }
    }
  }

  /** Different languages get different paths. */
  lemma LanguageIndexPathInjective(path: string, extension: string, l1: string, l2: string)
    requires LanguageExtensionPath(path, extension, l1, "_") == LanguageExtensionPath(path, extension, l2, "_")
    ensures l1 == l2
  {
    var s := RStrip(path, extension);
    var a := s + "_" + l1 + extension;
    var b := s + "_" + l2 + extension;
    assert |l1| == |l2|;
    assert a[|s| + 1..|s| + 1 + |l1|] == l1;
    assert b[|s| + 1..|s| + 1 + |l2|] == l2;
  }

  /** Once a prefix of the records fails to partition, every longer prefix fails too. */
  lemma {:induction false} PartitionFailureSticks(buckets: map<string, seq<Record>>, records: seq<Record>, n: nat,
                                                  locations: map<string, string>, defaultLanguage: string)
    requires n <= |records|
    requires Partition(buckets, records[..n], locations, defaultLanguage).Err?
    ensures Partition(buckets, records, locations, defaultLanguage).Err?
    decreases |records| - n
  {
    if n < |records| {
      assert records[..n + 1][..n] == records[..n];
      PartitionFailureSticks(buckets, records, n + 1, locations, defaultLanguage);
    } else {
      assert records[..n] == records;
    }
  }

  /** `TranslationsSearchPatcher(...)`, raising `OSError` when a worker file was not found. */
  method Create(searchIndexJsonPath: string, json: SearchIndexJson, languages: seq<string>, defaultLanguage: string,
                theme: Theme, locations: map<string, string>, workerJsFiles: seq<JsFile>)
    returns (r: Result<TranslationsSearchPatcher, PatchError>)
    ensures r.Err? <==> exists f :: f in workerJsFiles && (f.path.None? || f.content.None?)
    ensures r.Ok? ==> fresh(r.value) && r.value.workerJsFiles == workerJsFiles && r.value.languages == languages
  {
    var p := new TranslationsSearchPatcher(searchIndexJsonPath, json, languages, defaultLanguage, theme, locations, workerJsFiles);
    var i := 0;
    while i < |workerJsFiles|
      invariant 0 <= i <= |workerJsFiles|
      invariant forall k :: 0 <= k < i ==> workerJsFiles[k].path.Some? && workerJsFiles[k].content.Some?
    {
      if workerJsFiles[i].path.None? || workerJsFiles[i].content.None? {
        return Err(WorkerFileMissing);
      }
      i := i + 1;
    }
    return Ok(p);
  }
}
