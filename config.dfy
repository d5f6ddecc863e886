/** mkdocs_mdpo_plugin/config.py and its older twin mkdocs_mdpo_plugin/on_config.py: the
    `on_config` event. It normalises `lc_messages`, resolves `languages` and
    `default_language`, makes the md4c extension list follow the configured
    Python-Markdown extensions and registers the plugin's own Markdown extension last.
    The two files differ only in the name of that extension and in the attribute that
    holds the md4c list, so both are one method here, given the extension's name. */
module Config {
  import opened Wrappers
  import Strings

  /** The plugin's own Markdown extension, as config.py and as on_config.py name it. */
  const OwnExtension := "mkdocs-mdpo"
  const LegacyOwnExtension := "mkdocs.mdpo"

  /** `lc_messages` is declared as a string or a boolean. */
  datatype LcMessages = LcFlag(flag: bool) | LcDir(dir: string)

  /** The theme section: its name and its `locale` variable, when set. */
  datatype Theme = Theme(name: string, locale: Option<string>)

  /** One item of `extra.alternate`; its `lang` key may be missing. */
  datatype Alternate = Alternate(lang: Option<string>)

  /** The `extra` section, reduced to its `alternate` list. */
  datatype Extra = Extra(alternate: Option<seq<Alternate>>)

  datatype ConfigError =
    /** The `ValidationError` raised when no language can be found; `material` chooses
        its wording (see `LanguagesRequired`). */
    | LanguagesMissing(material: bool)
    /** `alt['lang']` on an alternate without a `lang` key raises `KeyError`. */
    | MissingLang

  /** The plugin's own settings that `on_config` rewrites. */
  class PluginConfig {
    var lcMessages: LcMessages
    var languages: Option<seq<string>>
    var defaultLanguage: Option<string>

    constructor(lcMessages: LcMessages, languages: Option<seq<string>>, defaultLanguage: Option<string>)
      ensures this.lcMessages == lcMessages && this.languages == languages && this.defaultLanguage == defaultLanguage
    {
      this.lcMessages := lcMessages;
      this.languages := languages;
      this.defaultLanguage := defaultLanguage;
    }
  }

  /** The extension lists the plugin keeps: the Markdown extensions of the build and the
      md4c parser extensions used when translating. */
  class Extensions {
    var markdown: Option<seq<string>>
    var md4c: seq<string>

    constructor(md4c: seq<string>)
      ensures markdown == None && this.md4c == md4c
    {
      markdown := None;
      this.md4c := md4c;
    }
  }

  /** The parts of the MkDocs configuration that `on_config` reads or changes in place. */
  class MkdocsConfig {
    const theme: Option<Theme>
    const extra: Option<Extra>
    var markdownExtensions: Option<seq<string>>

    constructor(theme: Option<Theme>, extra: Option<Extra>, markdownExtensions: Option<seq<string>>)
      ensures this.theme == theme && this.extra == extra && this.markdownExtensions == markdownExtensions
    {
      this.theme := theme;
      this.extra := extra;
      this.markdownExtensions := markdownExtensions;
    }
  }

  predicate UsingMaterial(theme: Option<Theme>)
  {
    theme.Some? && theme.value.name == "material"
  }

  /** The `ValidationError` message raised when no language can be found; only a build with
      the material theme is told about `extra.alternate`. */
  function LanguagesRequired(material: bool): string
  {
    "You must define the languages you will translate the content into using"
    + (if material then " either" else " the")
    + " 'plugins.mdpo.languages'"
    + (if material then " or 'extra.alternate'" else "")
    + " configuration setting"
    + (if material then "s" else "")
    + "."
  }

  /** The normalised `lc_messages`: `True` is the conventional directory name, any falsy
      value is the empty string and any other string is kept. */
  function NormalLcMessages(value: LcMessages): string
  {
    match value
    case LcFlag(flag) => if flag then "LC_MESSAGES" else ""
    case LcDir(dir) => dir
  }

  /** The `lang` values of the alternates, in order. */
  function AlternateLanguages(alternate: seq<Alternate>): Result<seq<string>, ConfigError>
  {
    if alternate == [] then Ok([])
    else if alternate[0].lang.None? then Err(MissingLang)
    else
      match AlternateLanguages(alternate[1..])
      case Ok(rest) => Ok([alternate[0].lang.value] + rest)
      case Err(e) => Err(e)
  }

  /** The `languages` setting after `on_config`, or the error it raises. */
  function ResolveLanguages(languages: Option<seq<string>>, theme: Option<Theme>, extra: Option<Extra>): Result<seq<string>, ConfigError>
  {
    if languages.Some? && languages.value != [] then Ok(languages.value)
    else if !UsingMaterial(theme) then Err(LanguagesMissing(false))
    else if extra.None? || extra.value.alternate.None? || extra.value.alternate.value == [] then
      Err(LanguagesMissing(true))
    else AlternateLanguages(extra.value.alternate.value)
  }

  /** The `default_language` setting after `on_config`: the configured one, else the theme
      locale when it is one of the languages, else the first language. */
  function ResolveDefault(defaultLanguage: Option<string>, locale: Option<string>, languages: seq<string>, material: bool): Result<string, ConfigError>
  {
    if defaultLanguage.Some? && defaultLanguage.value != [] then Ok(defaultLanguage.value)
    else if locale.Some? && locale.value != [] && locale.value in languages then Ok(locale.value)
    else if languages == [] then Err(LanguagesMissing(material))
    else Ok(languages[0])
  }

  function ThemeLocale(theme: Option<Theme>): Option<string>
  {
    if theme.None? then None else theme.value.locale
  }

  /** An alternate list with a `lang` everywhere gives those languages, in order. */
  lemma {:induction false} AlternateLanguagesSpec(alternate: seq<Alternate>)
    ensures AlternateLanguages(alternate).Ok? <==> forall k :: 0 <= k < |alternate| ==> alternate[k].lang.Some?
    ensures AlternateLanguages(alternate).Ok? ==>
      var langs := AlternateLanguages(alternate).value;
      |langs| == |alternate| && forall k :: 0 <= k < |alternate| ==> langs[k] == alternate[k].lang.value
  {
    if alternate != [] {
      AlternateLanguagesSpec(alternate[1..]);
      if alternate[0].lang.Some? && AlternateLanguages(alternate[1..]).Ok? {
        var rest := AlternateLanguages(alternate[1..]).value;
        forall k | 0 < k < |alternate|
          ensures ([alternate[0].lang.value] + rest)[k] == alternate[k].lang.value
        {
          assert alternate[1..][k - 1] == alternate[k];
        }
      } else if alternate[0].lang.Some? {
        var k :| 0 <= k < |alternate[1..]| && alternate[1..][k].lang.None?;
        assert alternate[k + 1].lang.None?;
      }
    }
  }

  /** Whenever the languages resolve, they are a non-empty list, so the second
      "languages required" error (the one met while choosing the default language) is never
      raised; a default language that was not configured is one of the languages. */
  lemma LanguagesThenDefault(languages: Option<seq<string>>, theme: Option<Theme>, extra: Option<Extra>, defaultLanguage: Option<string>)
    requires ResolveLanguages(languages, theme, extra).Ok?
    ensures ResolveLanguages(languages, theme, extra).value != []
    ensures var chosen := ResolveDefault(defaultLanguage, ThemeLocale(theme), ResolveLanguages(languages, theme, extra).value, UsingMaterial(theme));
      && chosen.Ok?
      && (defaultLanguage.None? || defaultLanguage.value == [] ==> chosen.value in ResolveLanguages(languages, theme, extra).value)
  {
    if !(languages.Some? && languages.value != []) {
      AlternateLanguagesSpec(extra.value.alternate.value);
    }
  }

  /** A membership-guarded append of `x` (when `on`) or removal of it (otherwise). */
  function Toggle(l: seq<string>, x: string, on: bool): seq<string>
  {
    if on then (if x in l then l else l + [x])
    else (if x in l then Strings.RemoveFirst(l, x) else l)
  }

  /** The md4c list after `on_config`, given the configured Markdown extensions. */
  function Md4cFor(md4c: seq<string>, markdown: seq<string>): seq<string>
  {
    var tables := Toggle(md4c, "tables", "tables" in markdown);
    var wikilinks := Toggle(tables, "wikilinks", "wikilinks" in markdown);
    var headers := Toggle(wikilinks, "permissive_atx_headers", "pymdownx.saneheaders" !in markdown);
    var tasklists := Toggle(headers, "tasklists", "pymdownx.tasklist" in markdown);
    if "pymdownx.tilde" in markdown && "strikethrough" in tasklists then Strings.RemoveFirst(tasklists, "strikethrough")
    else tasklists
  }

  /** The Markdown extensions after `on_config`: the plugin's own extension moved, or
      added, to the end. */
  function WithOwn(markdown: seq<string>, own: string): seq<string>
  {
    (if own in markdown then Strings.RemoveFirst(markdown, own) else markdown) + [own]
  }

  ghost predicate NoDuplicates(l: seq<string>)
  {
    forall x :: multiset(l)[x] <= 1
  }

  /** Switching one name keeps a list free of duplicates, makes the name present exactly
      when asked and leaves every other name as it was. */
  lemma ToggleSpec(l: seq<string>, x: string, on: bool)
    ensures multiset(Toggle(l, x, on))[x] == (if on then (if x in l then multiset(l)[x] else 1) else (if x in l then multiset(l)[x] - 1 else 0))
    ensures forall y :: y != x ==> multiset(Toggle(l, x, on))[y] == multiset(l)[y]
    ensures NoDuplicates(l) ==> NoDuplicates(Toggle(l, x, on)) && (x in Toggle(l, x, on) <==> on)
  {
  }

  /** Four switches over four distinct names: each is present exactly as asked and every
      other name keeps its count. */
  lemma FourSwitches(l: seq<string>, a: string, b: string, c: string, d: string,
                     onA: bool, onB: bool, onC: bool, onD: bool)
    requires NoDuplicates(l)
    requires a != b && a != c && a != d && b != c && b != d && c != d
    ensures var t := Toggle(Toggle(Toggle(Toggle(l, a, onA), b, onB), c, onC), d, onD);
      && NoDuplicates(t)
      && (a in t <==> onA) && (b in t <==> onB) && (c in t <==> onC) && (d in t <==> onD)
      && (forall y :: y != a && y != b && y != c && y != d ==> multiset(t)[y] == multiset(l)[y])
  {
    var ta := Toggle(l, a, onA);
    ToggleSpec(l, a, onA);
    var tb := Toggle(ta, b, onB);
    ToggleSpec(ta, b, onB);
    var tc := Toggle(tb, c, onC);
    ToggleSpec(tb, c, onC);
    ToggleSpec(tc, d, onD);
  }

  /** Four switches and a removal over five distinct names, as `Md4cFor` performs them. */
  lemma SwitchesSpec(l: seq<string>, a: string, b: string, c: string, d: string, e: string,
                     onA: bool, onB: bool, onC: bool, onD: bool, dropE: bool)
    requires NoDuplicates(l)
    requires a != b && a != c && a != d && a != e && b != c && b != d && b != e && c != d && c != e && d != e
    ensures var t := Toggle(Toggle(Toggle(Toggle(l, a, onA), b, onB), c, onC), d, onD);
      var r := if dropE && e in t then Strings.RemoveFirst(t, e) else t;
      && NoDuplicates(r)
      && (a in r <==> onA) && (b in r <==> onB) && (c in r <==> onC) && (d in r <==> onD)
      && (e in r <==> e in l && !dropE)
      && (forall y :: y != a && y != b && y != c && y != d && y != e ==> multiset(r)[y] == multiset(l)[y])
  {
    var t := Toggle(Toggle(Toggle(Toggle(l, a, onA), b, onB), c, onC), d, onD);
    FourSwitches(l, a, b, c, d, onA, onB, onC, onD);
    DropAfterSwitches(l, t, a, b, c, d, e, dropE);
  }

  /** The removal that follows the switches keeps what they established. */
  lemma DropAfterSwitches(l: seq<string>, t: seq<string>, a: string, b: string, c: string, d: string, e: string,
                          dropE: bool)
    requires NoDuplicates(t) && a != e && b != e && c != e && d != e
    requires forall y :: y != a && y != b && y != c && y != d ==> multiset(t)[y] == multiset(l)[y]
    ensures var r := if dropE && e in t then Strings.RemoveFirst(t, e) else t;
      && NoDuplicates(r)
      && (a in r <==> a in t) && (b in r <==> b in t) && (c in r <==> c in t) && (d in r <==> d in t)
      && (e in r <==> e in l && !dropE)
      && (forall y :: y != e ==> multiset(r)[y] == multiset(t)[y])
  {
    assert multiset(t)[e] == multiset(l)[e];
    if dropE && e in t {
      var r := Strings.RemoveFirst(t, e);
      assert multiset(r) == multiset(t) - multiset{e};
      assert multiset(t)[e] == 1;
      assert e !in r by { assert multiset(r)[e] == 0; }
      forall y | y != e ensures multiset(r)[y] == multiset(t)[y] { }
      assert NoDuplicates(r) by {
        forall x ensures multiset(r)[x] <= 1 { assert multiset(r)[x] <= multiset(t)[x]; }
      }
      forall x | x == a || x == b || x == c || x == d ensures x in r <==> x in t {
        assert multiset(r)[x] == multiset(t)[x];
        assert x in r <==> x in multiset(r);
        assert x in t <==> x in multiset(t);
      }
    }
  }

  /** With a duplicate-free md4c list: `tables` and `wikilinks` follow the same-named
      Markdown extensions, `permissive_atx_headers` is on exactly when
      `pymdownx.saneheaders` is absent, `tasklists` follows `pymdownx.tasklist`,
      `strikethrough` can only disappear (with `pymdownx.tilde`), every other md4c
      extension is untouched, and no duplicate appears. */
  lemma Md4cForSpec(md4c: seq<string>, markdown: seq<string>)
    requires NoDuplicates(md4c)
    ensures var r := Md4cFor(md4c, markdown);
      && NoDuplicates(r)
      && ("tables" in r <==> "tables" in markdown)
      && ("wikilinks" in r <==> "wikilinks" in markdown)
      && ("permissive_atx_headers" in r <==> "pymdownx.saneheaders" !in markdown)
      && ("tasklists" in r <==> "pymdownx.tasklist" in markdown)
      && ("strikethrough" in r <==> "strikethrough" in md4c && "pymdownx.tilde" !in markdown)
      && (forall y :: y != "tables" && y != "wikilinks" && y != "permissive_atx_headers" && y != "tasklists" && y != "strikethrough" ==>
            multiset(r)[y] == multiset(md4c)[y])
  {
    assert "tables"[0] != "wikilinks"[0] && "tables"[0] != "permissive_atx_headers"[0] && "tables"[2] != "tasklists"[2];
    assert "tables"[0] != "strikethrough"[0] && "wikilinks"[0] != "permissive_atx_headers"[0] && "wikilinks"[0] != "tasklists"[0];
    assert "wikilinks"[0] != "strikethrough"[0] && "permissive_atx_headers"[0] != "tasklists"[0] && "permissive_atx_headers"[0] != "strikethrough"[0];
    assert "tasklists"[0] != "strikethrough"[0];
    SwitchesSpec(md4c, "tables", "wikilinks", "permissive_atx_headers", "tasklists", "strikethrough",
                 "tables" in markdown, "wikilinks" in markdown, "pymdownx.saneheaders" !in markdown,
                 "pymdownx.tasklist" in markdown, "pymdownx.tilde" in markdown);
  }

  /** The plugin's own extension ends the list; it is there exactly once when it was there
      at most once before, and every other extension keeps its count. */
  lemma WithOwnSpec(markdown: seq<string>, own: string)
    ensures var r := WithOwn(markdown, own);
      && r != [] && r[|r| - 1] == own
      && (multiset(markdown)[own] <= 1 ==> multiset(r)[own] == 1)
      && (forall y :: y != own ==> multiset(r)[y] == multiset(markdown)[y])
  {
  }

  /** One md4c switch of `on_config`: a guarded append when the extension is wanted, a
      guarded removal when it is not. */
  method Switch(md4c: seq<string>, x: string, on: bool) returns (r: seq<string>)
    ensures r == Toggle(md4c, x, on)
  {
    r := md4c;
    if on {
      if x !in r {
        r := r + [x];
      }
    } else {
      if x in r {
        r := Strings.RemoveFirst(r, x);
      }
    }
  }

  /** The md4c half of `on_config`: each md4c extension is switched to follow the configured
      Markdown extensions. */
  method AdjustMd4c(extensions: Extensions, md: seq<string>)
    modifies extensions
    ensures extensions.md4c == Md4cFor(old(extensions.md4c), md)
    ensures extensions.markdown == old(extensions.markdown)
  {
    var md4c := Switch(extensions.md4c, "tables", "tables" in md);
    md4c := Switch(md4c, "wikilinks", "wikilinks" in md);
    // `pymdownx.saneheaders` makes the space after '#' mandatory
    md4c := Switch(md4c, "permissive_atx_headers", "pymdownx.saneheaders" !in md);
    md4c := Switch(md4c, "tasklists", "pymdownx.tasklist" in md);
    // `pymdownx.tilde` only works with md4c's own strikethrough disabled; it is never re-enabled
    if "pymdownx.tilde" in md {
      if "strikethrough" in md4c {
        md4c := Strings.RemoveFirst(md4c, "strikethrough");
      }
    }
    extensions.md4c := md4c;
  }

  /** `lc_messages`: `True` becomes the conventional directory name and a falsy value the
      empty string. */
  method NormaliseLcMessages(plugin: PluginConfig)
    modifies plugin`lcMessages
    ensures plugin.lcMessages == LcDir(NormalLcMessages(old(plugin.lcMessages)))
  {
    if plugin.lcMessages == LcFlag(true) {
      plugin.lcMessages := LcDir("LC_MESSAGES");
    } else if plugin.lcMessages == LcFlag(false) || plugin.lcMessages == LcDir("") {
      plugin.lcMessages := LcDir("");
    }
  }

  /** `languages`: kept when set, else read from the material theme's `extra.alternate`. */
  method SetLanguages(plugin: PluginConfig, config: MkdocsConfig) returns (r: Result<(), ConfigError>)
    modifies plugin`languages
    ensures var languages := ResolveLanguages(old(plugin.languages), config.theme, config.extra);
      && (r.Err? <==> languages.Err?)
      && (r.Err? ==> r.error == languages.error && plugin.languages == old(plugin.languages))
      && (r.Ok? ==> plugin.languages == Some(languages.value) && languages.value != [])
  {
    var material := UsingMaterial(config.theme);
    var languages := plugin.languages;
    if languages.None? || languages.value == [] {
      if material {
        if config.extra.None? {
          return Err(LanguagesMissing(material));
        }
        var alternate := config.extra.value.alternate;
        if alternate.None? || alternate.value == [] {
          return Err(LanguagesMissing(material));
        }
        var langs := AlternateLanguages(alternate.value);
        if langs.Err? {
          return Err(langs.error);
        }
        AlternateLanguagesSpec(alternate.value);
        plugin.languages := Some(langs.value);
      } else {
        return Err(LanguagesMissing(material));
      }
    }
    r := Ok(());
  }

  /** `default_language`: kept when set, else the theme locale when it is one of the
      languages, else the first language. */
  method SetDefaultLanguage(plugin: PluginConfig, config: MkdocsConfig)
    requires plugin.languages.Some? && plugin.languages.value != []
    modifies plugin`defaultLanguage
    ensures var chosen := ResolveDefault(old(plugin.defaultLanguage), ThemeLocale(config.theme), plugin.languages.value, UsingMaterial(config.theme));
      chosen.Ok? && plugin.defaultLanguage == Some(chosen.value)
  {
    var defaultLanguage := plugin.defaultLanguage;
    if defaultLanguage.None? || defaultLanguage.value == [] {
      var locale := ThemeLocale(config.theme);
      if locale.Some? && locale.value != [] && locale.value in plugin.languages.value {
        plugin.defaultLanguage := locale;
      } else {
        // `languages` is a non-empty list by now, so the check that raises here never fires
        plugin.defaultLanguage := Some(plugin.languages.value[0]);
      }
    }
  }

  /** The extensions half of `on_config`: with Markdown extensions configured, the md4c
      list follows them and the plugin's own extension is moved, or added, to the end;
      the plugin then keeps a reference to that same list. */
  method RegisterExtensions(extensions: Extensions, config: MkdocsConfig, own: string)
    modifies extensions, config`markdownExtensions
    ensures var markdown := old(config.markdownExtensions);
      && (if markdown.Some? && markdown.value != [] then
            && extensions.md4c == Md4cFor(old(extensions.md4c), markdown.value)
            && config.markdownExtensions == Some(WithOwn(markdown.value, own))
          else
            extensions.md4c == old(extensions.md4c) && config.markdownExtensions == markdown)
      && extensions.markdown == config.markdownExtensions
  {
    var markdown := config.markdownExtensions;
    if markdown.Some? && markdown.value != [] {
      var md := markdown.value;
      AdjustMd4c(extensions, md);
      if own in md {
        md := Strings.RemoveFirst(md, own);
      }
      config.markdownExtensions := Some(md + [own]);
    }
    extensions.markdown := config.markdownExtensions;
  }

  /** The `on_config` event, `own` being the name of the plugin's Markdown extension
      (`OwnExtension` for config.py, `LegacyOwnExtension` for on_config.py). */
  method OnConfigEvent(plugin: PluginConfig, extensions: Extensions, config: MkdocsConfig, own: string)
    returns (r: Result<(), ConfigError>)
    modifies plugin, extensions, config
    ensures plugin.lcMessages == LcDir(NormalLcMessages(old(plugin.lcMessages)))
    ensures var languages := ResolveLanguages(old(plugin.languages), config.theme, config.extra);
      && (r.Err? <==> languages.Err?)
      && (r.Err? ==>
            && r.error == languages.error
            && plugin.languages == old(plugin.languages) && plugin.defaultLanguage == old(plugin.defaultLanguage)
            && extensions.md4c == old(extensions.md4c) && extensions.markdown == old(extensions.markdown)
            && config.markdownExtensions == old(config.markdownExtensions))
      && (r.Ok? ==>
            && plugin.languages == Some(languages.value)
            && var chosen := ResolveDefault(old(plugin.defaultLanguage), ThemeLocale(config.theme), languages.value, UsingMaterial(config.theme));
               chosen.Ok? && plugin.defaultLanguage == Some(chosen.value))
    ensures r.Ok? ==>
      var markdown := old(config.markdownExtensions);
      && (if markdown.Some? && markdown.value != [] then
            && extensions.md4c == Md4cFor(old(extensions.md4c), markdown.value)
            && config.markdownExtensions == Some(WithOwn(markdown.value, own))
          else
            extensions.md4c == old(extensions.md4c) && config.markdownExtensions == markdown)
      && extensions.markdown == config.markdownExtensions
  {
    NormaliseLcMessages(plugin);
    r := SetLanguages(plugin, config);
    if r.Err? {
      return;
    }
    SetDefaultLanguage(plugin, config);
    RegisterExtensions(extensions, config, own);
  }
}
