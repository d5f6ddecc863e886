/** Per-language translation statistics and the `min_translated_messages` gate
    (mkdocs_mdpo_plugin/plugin.py:400-415, 606-659). */
module CompletionGate {
  import opened Wrappers
  import opened Strings
  import opened Catalog

  /** `translations.stats[language]`: running sums, plus the percentage once computed. */
  datatype LanguageStats = LanguageStats(translated: nat, total: nat, percent: Option<real>)

  /** Adds one page's `po_messages_stats` to its language's running sums (plugin.py:402-415). */
  function AddPage(stats: map<string, LanguageStats>, language: string, page: MessageStats): map<string, LanguageStats>
  {
    if language !in stats then stats[language := LanguageStats(page.translated, page.total, None)]
    else
      var s := stats[language];
      stats[language := s.(translated := s.translated + page.translated, total := s.total + page.total)]
  }

  /** One processed page: its language and the statistics of its merged catalog. */
  datatype PageStats = PageStats(language: string, stats: MessageStats)

  function AddPages(stats: map<string, LanguageStats>, pages: seq<PageStats>): map<string, LanguageStats>
    decreases |pages|
  {
    if pages == [] then stats
    else
      var last := pages[|pages| - 1];
      AddPage(AddPages(stats, pages[..|pages| - 1]), last.language, last.stats)
  }

  function SumTranslated(pages: seq<PageStats>, language: string): nat
    decreases |pages|
  {
    if pages == [] then 0
    else
      var last := pages[|pages| - 1];
      SumTranslated(pages[..|pages| - 1], language) + (if last.language == language then last.stats.translated else 0)
  }

  function SumTotal(pages: seq<PageStats>, language: string): nat
    decreases |pages|
  {
    if pages == [] then 0
    else
      var last := pages[|pages| - 1];
      SumTotal(pages[..|pages| - 1], language) + (if last.language == language then last.stats.total else 0)
  }

  predicate HasPages(pages: seq<PageStats>, language: string)
  {
    exists i :: 0 <= i < |pages| && pages[i].language == language
  }

  /** Starting from no statistics, a language has an entry iff one of its pages was
      processed, and its counts are the sums over those pages; no percentage is cached yet. */
  lemma {:induction false} RunningSums(pages: seq<PageStats>)
    ensures var stats := AddPages(map[], pages);
      forall l :: (l in stats <==> HasPages(pages, l))
                  && (l in stats ==> stats[l].translated == SumTranslated(pages, l)
                                     && stats[l].total == SumTotal(pages, l)
                                     && stats[l].percent.None?)
    decreases |pages|
  {
    if pages != [] {
      var init := pages[..|pages| - 1];
      RunningSums(init);
      var last := pages[|pages| - 1];
      var prev := AddPages(map[], init);
      assert AddPages(map[], pages) == AddPage(prev, last.language, last.stats);
      var stats := AddPages(map[], pages);
      forall l
        ensures (l in stats <==> HasPages(pages, l))
                && (l in stats ==>
                      stats[l].translated == SumTranslated(pages, l) && stats[l].total == SumTotal(pages, l)
                      && stats[l].percent.None?)
      {
        assert l in prev ==> prev[l].translated == SumTranslated(init, l) && prev[l].total == SumTotal(init, l);
        assert SumTranslated(pages, l) == SumTranslated(init, l) + (if last.language == l then last.stats.translated else 0);
        assert SumTotal(pages, l) == SumTotal(init, l) + (if last.language == l then last.stats.total else 0);
        if HasPages(init, l) {
          var i :| 0 <= i < |init| && init[i].language == l;
          assert pages[i] == init[i];
        }
        if HasPages(pages, l) && last.language != l {
          var i :| 0 <= i < |pages| && pages[i].language == l;
          assert init[i] == pages[i];
        }
        if last.language == l {
          assert HasPages(pages, l);
          if l in prev {
            assert stats[l].translated == prev[l].translated + last.stats.translated;
          } else {
            assert SumTranslated(init, l) == 0 && SumTotal(init, l) == 0 by { NoPagesNoSums(init, l); }
          }
        } else if l in stats {
          assert stats[l] == prev[l];
        }
      }
    }
  }

  lemma {:induction false} NoPagesNoSums(pages: seq<PageStats>, language: string)
    requires !HasPages(pages, language)
    ensures SumTranslated(pages, language) == 0 && SumTotal(pages, language) == 0
    decreases |pages|
  {
    if pages != [] {
      NoPagesNoSums(pages[..|pages| - 1], language);
    }
  }

  /** Every merged page catalog has a live title entry, so a language's total is never
      zero once one of its pages has been counted. */
  lemma {:induction false} TotalPositive(pages: seq<PageStats>, language: string)
    requires forall i :: 0 <= i < |pages| ==> pages[i].stats.total >= 1
    requires HasPages(pages, language)
    ensures SumTotal(pages, language) >= 1
    decreases |pages|
  {
    var init := pages[..|pages| - 1];
    if pages[|pages| - 1].language != language {
      var i :| 0 <= i < |pages| && pages[i].language == language;
      assert init[i] == pages[i];
      TotalPositive(init, language);
    }
  }

  /** The gate's two failure paths in the code: `stats[language]` of a language none of
      whose pages was counted (every page excluded), and the division by a zero total. */
  datatype GateError = MissingStats | DivisionByZero

  /** Whether the page is written, the statistics (with the percentage cached) and the
      configured languages afterwards. */
  datatype GateDecision = GateDecision(publish: bool, stats: map<string, LanguageStats>, languages: seq<string>)

  function Percent(s: LanguageStats): real
    requires s.total > 0
  {
    s.translated as real / s.total as real * 100.0
  }

  function MinReal(a: real, b: real): real
  {
    if a <= b then a else b
  }

  /** Count mode as written (plugin.py:638-659): the clamp to `total` only changes the
      logged threshold, the page is excluded whenever `translated < min`. */
  predicate CountExcludesAsWritten(s: LanguageStats, minTranslated: real)
  {
    (s.translated as real) < minTranslated
  }

  /** Count mode as the clamp and its warning intend: the threshold is `min(min, total)`. */
  predicate CountExcludes(s: LanguageStats, minTranslated: real)
  {
    (s.translated as real) < MinReal(minTranslated, s.total as real)
  }

  /** `on_post_page` for a translated page (plugin.py:606-659). `minTranslated` is the
      configured value: 0 disables the gate, a negative value is a percentage. */
  function Gate(stats: map<string, LanguageStats>, language: string, minTranslated: real, languages: seq<string>)
    : Result<GateDecision, GateError>
  {
    if minTranslated == 0.0 then Ok(GateDecision(true, stats, languages))
    else if language !in stats then Err(MissingStats)
    else
      var s := stats[language];
      if minTranslated < 0.0 then
        if s.percent.None? && s.total == 0 then Err(DivisionByZero)
        else
          var p := if s.percent.Some? then s.percent.value else Percent(s);
          var cached := stats[language := s.(percent := Some(p))];
          if p < -minTranslated then Ok(GateDecision(false, cached, RemoveFirst(languages, language)))
          else Ok(GateDecision(true, cached, languages))
      else if CountExcludesAsWritten(s, minTranslated) then Ok(GateDecision(false, stats, RemoveFirst(languages, language)))
      else Ok(GateDecision(true, stats, languages))
  }

  /** The gate with the clamp of plugin.py:640-647 applied to the comparison, as its warning
      says: in count mode a page is excluded only below `min(min_translated, total)`. */
  function ClampedGate(stats: map<string, LanguageStats>, language: string, minTranslated: real, languages: seq<string>)
    : Result<GateDecision, GateError>
  {
    if minTranslated > 0.0 && language in stats && !CountExcludes(stats[language], minTranslated) then
      Ok(GateDecision(true, stats, languages))
    else Gate(stats, language, minTranslated, languages)
  }

  /** The gate only ever removes the page's own language: a page that is not written
      takes exactly one occurrence of its language out of the list when it is listed, a
      written page changes no language, and the statistics keep their counts. */
  lemma GateOneWay(stats: map<string, LanguageStats>, language: string, minTranslated: real, languages: seq<string>)
    requires Gate(stats, language, minTranslated, languages).Ok?
    ensures var d := Gate(stats, language, minTranslated, languages).value;
      && multiset(d.languages) <= multiset(languages)
      && (forall l :: l != language ==> multiset(d.languages)[l] == multiset(languages)[l])
      && (!d.publish && language in languages ==> multiset(d.languages)[language] + 1 == multiset(languages)[language])
      && (d.publish ==> d.languages == languages)
      && (language !in languages ==> d.languages == languages)
      && d.stats.Keys == stats.Keys
      && (forall l :: l in stats ==> d.stats[l].translated == stats[l].translated && d.stats[l].total == stats[l].total)
  {
    var g := Gate(stats, language, minTranslated, languages);
    if minTranslated == 0.0 {
      assert g == Ok(GateDecision(true, stats, languages));
    } else {
      var s := stats[language];
      if minTranslated < 0.0 {
        var p := if s.percent.Some? then s.percent.value else Percent(s);
        var cached := stats[language := s.(percent := Some(p))];
        assert cached.Keys == stats.Keys;
        assert forall l :: l in stats ==> cached[l].translated == stats[l].translated && cached[l].total == stats[l].total;
        if p < -minTranslated {
          assert g == Ok(GateDecision(false, cached, RemoveFirst(languages, language)));
          RemoveFirstCounts(languages, language);
        } else {
          assert g == Ok(GateDecision(true, cached, languages));
        }
      } else if CountExcludesAsWritten(s, minTranslated) {
        assert g == Ok(GateDecision(false, stats, RemoveFirst(languages, language)));
        RemoveFirstCounts(languages, language);
      } else {
        assert g == Ok(GateDecision(true, stats, languages));
      }
    }
  }

  /** Dropping a language takes one of its occurrences and leaves every other count. */
  lemma RemoveFirstCounts(languages: seq<string>, language: string)
    ensures var r := RemoveFirst(languages, language);
      && multiset(r) <= multiset(languages)
      && (forall l :: l != language ==> multiset(r)[l] == multiset(languages)[l])
      && (language in languages ==> multiset(r)[language] + 1 == multiset(languages)[language])
  {
    var r := RemoveFirst(languages, language);
    assert multiset(r) == multiset(languages) - multiset{language};
    if language in languages {
      assert multiset(languages)[language] > 0;
    }
  }

  /** In count mode the page of a language with statistics is dropped iff fewer messages
      than the threshold are translated, whatever the total, and the statistics are not
      touched. */
  lemma GateCountExact(stats: map<string, LanguageStats>, language: string, minTranslated: real, languages: seq<string>)
    requires minTranslated > 0.0 && language in stats
    ensures Gate(stats, language, minTranslated, languages).Ok?
    ensures var d := Gate(stats, language, minTranslated, languages).value;
      && (!d.publish <==> (stats[language].translated as real) < minTranslated)
      && d.stats == stats
  {
  }

  /** `translated / total * 100 < p` decided without division. */
  lemma PercentBelow(t: nat, total: nat, p: real)
    requires total > 0
    ensures t as real / total as real * 100.0 < p <==> (t * 100) as real < p * total as real
  {
    var T := total as real;
    var q := t as real / T;
    assert q * T == t as real;
    calc {
      q * 100.0 < p;
    ==  { assert T > 0.0; }
      q * 100.0 * T < p * T;
    ==
      (t * 100) as real < p * T;
    }
  }

  /** With a percentage threshold and no cached value, the page is excluded iff
      `translated * 100 < |min| * total`. */
  lemma GatePercentExact(stats: map<string, LanguageStats>, language: string, minTranslated: real, languages: seq<string>)
    requires minTranslated < 0.0 && language in stats
    requires stats[language].percent.None? && stats[language].total > 0
    ensures Gate(stats, language, minTranslated, languages).Ok?
    ensures var s := stats[language];
      !Gate(stats, language, minTranslated, languages).value.publish
      <==> (s.translated * 100) as real < -minTranslated * s.total as real
  {
    var s := stats[language];
    var below := (s.translated * 100) as real < -minTranslated * s.total as real;
    PercentBelow(s.translated, s.total, -minTranslated);
    assert Percent(s) < -minTranslated <==> below;
    var cached := stats[language := s.(percent := Some(Percent(s)))];
    if below {
      assert Gate(stats, language, minTranslated, languages) == Ok(GateDecision(false, cached, RemoveFirst(languages, language)));
    } else {
      assert Gate(stats, language, minTranslated, languages) == Ok(GateDecision(true, cached, languages));
    }
  }

  /** Once computed, the percentage is reused: pages counted afterwards do not change
      the decision for the language. */
  lemma CachedPercentSticks(stats: map<string, LanguageStats>, language: string, minTranslated: real,
                            languages: seq<string>, later: MessageStats)
    requires minTranslated < 0.0
    requires Gate(stats, language, minTranslated, languages).Ok?
    ensures var d := Gate(stats, language, minTranslated, languages).value;
      var again := Gate(AddPage(d.stats, language, later), language, minTranslated, languages);
      again.Ok? && again.value.publish == d.publish
  {
  }

  /** With counts accumulated from merged pages (each with a live title entry), neither
      failure path of the gate can be taken for a language with at least one counted page. */
  lemma GateNeverFails(pages: seq<PageStats>, language: string, minTranslated: real, languages: seq<string>)
    requires forall i :: 0 <= i < |pages| ==> pages[i].stats.total >= 1
    requires HasPages(pages, language)
    ensures Gate(AddPages(map[], pages), language, minTranslated, languages).Ok?
  {
    RunningSums(pages);
    TotalPositive(pages, language);
  }

  /** The statistics hold, for each language, the running sums over its counted pages, and
      only languages with a counted page have an entry; a cached percentage is allowed. */
  ghost predicate CountsMatch(stats: map<string, LanguageStats>, pages: seq<PageStats>)
  {
    forall l :: (l in stats <==> HasPages(pages, l))
                && (l in stats ==> stats[l].translated == SumTranslated(pages, l) && stats[l].total == SumTotal(pages, l))
  }

  /** Counting one more page keeps the statistics equal to the running sums. */
  lemma CountsAdd(stats: map<string, LanguageStats>, pages: seq<PageStats>, language: string, page: MessageStats)
    requires CountsMatch(stats, pages)
    ensures CountsMatch(AddPage(stats, language, page), pages + [PageStats(language, page)])
  {
    var pages' := pages + [PageStats(language, page)];
    var stats' := AddPage(stats, language, page);
    assert pages'[..|pages'| - 1] == pages;
    forall l
      ensures (l in stats' <==> HasPages(pages', l))
              && (l in stats' ==> stats'[l].translated == SumTranslated(pages', l) && stats'[l].total == SumTotal(pages', l))
    {
      if HasPages(pages, l) {
        var i :| 0 <= i < |pages| && pages[i].language == l;
        assert pages'[i] == pages[i];
      }
      if HasPages(pages', l) && l != language {
        var i :| 0 <= i < |pages'| && pages'[i].language == l;
        assert pages[i] == pages'[i];
      }
      if l == language {
        assert pages'[|pages|].language == l;
        if l !in stats {
          NoPagesNoSums(pages, l);
        }
      }
    }
  }

  /** The gate leaves the counts alone. */
  lemma GateKeepsCounts(stats: map<string, LanguageStats>, pages: seq<PageStats>, language: string,
                        minTranslated: real, languages: seq<string>)
    requires CountsMatch(stats, pages)
    requires Gate(stats, language, minTranslated, languages).Ok?
    ensures CountsMatch(Gate(stats, language, minTranslated, languages).value.stats, pages)
  {
    GateOneWay(stats, language, minTranslated, languages);
  }

  /** With statistics that are the running sums of merged pages, the gate fails exactly when
      it is enabled and no page of the language was counted (every page excluded). */
  lemma GateFailsOnlyWithoutPages(stats: map<string, LanguageStats>, pages: seq<PageStats>, language: string,
                                  minTranslated: real, languages: seq<string>)
    requires CountsMatch(stats, pages)
    requires forall i :: 0 <= i < |pages| ==> pages[i].stats.total >= 1
    ensures Gate(stats, language, minTranslated, languages).Err?
            <==> minTranslated != 0.0 && !HasPages(pages, language)
  {
    if HasPages(pages, language) {
      TotalPositive(pages, language);
    }
  }

  /** The clamp as written does not help: a language with all 3 of its messages translated
      is excluded by a threshold of 5 and taken out of the languages, where the clamped
      gate writes the page. */
  lemma AsWrittenExcludesComplete()
    ensures var stats := map["es" := LanguageStats(3, 3, None)];
      && Gate(stats, "es", 5.0, ["en", "es"]) == Ok(GateDecision(false, stats, ["en"]))
      && ClampedGate(stats, "es", 5.0, ["en", "es"]) == Ok(GateDecision(true, stats, ["en", "es"]))
  {
    var stats := map["es" := LanguageStats(3, 3, None)];
    assert RemoveFirst(["en", "es"], "es") == ["en"] by {
      assert ["en", "es"][1..] == ["es"];
    }
  }

  /** With the clamp applied, a fully translated language is never excluded in count mode;
      the clamped gate only ever writes pages the code drops, and it agrees with the code
      whenever the threshold is at most the total. */
  lemma ClampedGateKeepsComplete(stats: map<string, LanguageStats>, language: string, minTranslated: real,
                                 languages: seq<string>)
    ensures minTranslated > 0.0 && language in stats && stats[language].translated == stats[language].total
            ==> ClampedGate(stats, language, minTranslated, languages) == Ok(GateDecision(true, stats, languages))
    ensures language !in stats || minTranslated <= stats[language].total as real
            ==> ClampedGate(stats, language, minTranslated, languages) == Gate(stats, language, minTranslated, languages)
    ensures var g := Gate(stats, language, minTranslated, languages);
            g.Ok? && g.value.publish ==> ClampedGate(stats, language, minTranslated, languages) == g
  {
  }
}
