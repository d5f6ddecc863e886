# mkdocs-mdpo-plugin: a verified model of the catalog reconciliation engine

mkdocs-mdpo-plugin translates an MkDocs site with gettext PO files. For every documentation
page and every translation language it keeps a page catalog (`<locale_dir>/<lang>/<page>.po`)
and one compendium per language (`_compendium.po`). While the site builds, the plugin
reconciles these catalogs with what the Markdown really contains. This project models that
reconciliation in Dafny and proves what it promises.

- **Per-page merge** (`on_page_markdown`). Newly extracted messages are appended to the page
  catalog. The page title and description are matched or inserted at the front. Translated
  site settings are tagged in the compendium. Translated compendium entries are copied into
  the page catalog. Per-language message statistics are accumulated.
- **Completion gate** (`on_post_page`). A translated page is dropped, and its language is
  removed from `languages` once, when the language's running statistics fall short of
  `min_translated_messages`. A negative threshold is a percentage.
- **End-of-build deduplication** (`on_post_build`).
  - Msgids repeated across a language's pages are promoted into the compendium, where the
    first holder wins, and the first matching entry is removed from each page catalog.
  - Compendium entries are then either cleared of their `mdpo-site_*` tags or marked
    obsolete, and an empty compendium file is removed.
  - Page-catalog entries that the translation pass did not consume are marked obsolete.
- **Tree processors** (`extensions.py`, and the older `extension.py`). They walk the rendered
  element tree. For each text or `title` they translate it, revive the entries with that
  msgid, or add a new entry, and they record which msgids were consumed.
- **Secondary parts**:
  - Search-index partitioning by language (`search_indexes.py`, `translations.py`). The
    path helpers keep Python's character-set `rstrip`.
  - Configuration normalisation (`config.py`, `on_config.py`): languages, default language,
    `lc_messages`, the md4c extension list, and the plugin's own Markdown extension.
  - Event-table selection for md2po, po2md and md4c (`mdpo_events.py`, `md4c_events.py`).
  - `removesuffix`, the `MkdocsBuild` singleton, the `on_build_error` hook, the MkDocs
    version tuple and the lunr language list (`utils.py`, `mkdocs_utils.py`).

Model decisions:

- A PO entry is a value (`Catalog.Entry`) and a catalog is a `seq<Entry>`. polib's `entry in
  po` is modelled as `Catalog.Contains`: a live (non-obsolete) entry with the same msgid and
  msgctxt, because polib's `find` skips obsolete entries by default.
- The PO files on disk are a map from `Catalog.PoPath` (compendium or page catalog of a
  language) to catalogs. `polib.pofile` reads from that map, `save` writes to it, and
  `os.remove` deletes from it.
- The plugin instance is the class `Plugin.MdpoPlugin`. The build's records are the class
  `Translations.Translations`, and each per-page translation record is the class
  `Translations.Translation`; their methods update those fields in place.
- The tree walks are specified by pure functions (`TreeProcessors.Walk`, `Steps`, `Step`).
  The recursive methods (`IterateChildren`, `VisitChild`, `ProcessTranslation`) update the
  current `Translation` and are proved equal to those functions.
- `Md2Po`, `Po2Md` and the Markdown parser are parameters. Extraction is the page's
  `extracted` entries. `Po2Md` is a function from the page catalog, the compendium and the
  Markdown to the translated content, its translated entries and its disabled msgids. The
  Markdown renderer is a function from content to element tree.
- `po_messages_stats` counts live entries (`total`) and live entries with a non-empty msgstr
  (`translated`). `remove_mdpo_setting_tags_from_po_entry` drops the flags starting with
  `mdpo-site_`. Neither helper's source is part of this model; these are the contracts their
  names and uses give them.
- Percentages are exact reals, not floats. Over the reals, `translated / total * 100 < p` is
  `translated * 100 < p * total` (`CompletionGate.PercentBelow`). Python's float division can
  round across the threshold at the boundary; see "Left out". The division by a zero total,
  which the code does not guard, is an explicit error.

## Model

| member | source | states |
|---|---|---|
| Catalog.NewEntry | mkdocs_mdpo_plugin/plugin.py:374-378 | a new catalog entry has the given msgid, an empty msgstr, no msgctxt, no flags, and is live |
| Catalog.PoMessagesStats | mkdocs_mdpo_plugin/plugin.py:402-403 | the translated count never exceeds the total, and the total never exceeds the catalog's length |
| Catalog.LiveEntryCounts | mkdocs_mdpo_plugin/plugin.py:402-403 | a catalog with a live entry has a total of at least one (what makes the gate's division safe) |
| Catalog.RemoveSettingTags | mkdocs_mdpo_plugin/plugin.py:818 | stripping the setting tags keeps msgid, msgctxt, msgstr and obsolete, and keeps exactly the flags that are not `mdpo-site_*` tags |
| Catalog.WithoutSettingTags | mkdocs_mdpo_plugin/plugin.py:822 | a flag survives iff it was present and is not a setting tag; the list never grows |
| Utils.RemoveSuffix | mkdocs_mdpo_plugin/utils.py:10-13 | with a non-empty suffix that `s` ends with, result + suffix == s; otherwise, or with an empty suffix, `s` unchanged; the result is a prefix of `s` |
| Utils.SuffixRoundTrip | mkdocs_mdpo_plugin/utils.py:10-13 | removing a non-empty suffix that was just appended gives back the original string |
| Strings.RStrip | mkdocs_mdpo_plugin/search_indexes.py:23 | Python `rstrip(chars)`: the result is a prefix of `s`, its last character is not in `chars`, and every removed character is in `chars` |
| Strings.JoinLines | mkdocs_mdpo_plugin/extensions.py:53 | joining the lines of a text with single spaces keeps its length and changes exactly the newlines into spaces |
| Strings.Split | mkdocs_mdpo_plugin/mkdocs_utils.py:12 | `str.split(sep)` yields at least one field, the first is the text before the first separator, and a text without the separator is its own only field |
| Strings.SplitAfterField | mkdocs_mdpo_plugin/mkdocs_utils.py:70 | the fields after the first separator are the fields of the text after it, so the second field is the text between the first and second separator |
| Strings.SplitJoin | mkdocs_mdpo_plugin/mkdocs_utils.py:12 | joining the fields of `str.split(sep)` back with `sep` gives the text again, and no field holds the separator |
| Strings.RemoveFirst | mkdocs_mdpo_plugin/plugin.py:649-658 | `list.remove` behind an `in` test takes out exactly one occurrence when the item is listed and leaves the list alone otherwise |
| Strings.ReplaceIntroduces | mkdocs_mdpo_plugin/search_indexes.py:90-105 | replacing a pattern that occurs puts the replacement into the text |
| Strings.ReplaceWithoutPattern | mkdocs_mdpo_plugin/search_indexes.py:90-105 | replacing a pattern that does not occur leaves the text unchanged |
| Config.NormaliseLcMessages | mkdocs_mdpo_plugin/config.py:32-35 | `lc_messages` becomes `'LC_MESSAGES'` for `True`, `''` for any false value, and is unchanged otherwise |
| Config.AlternateLanguagesSpec | mkdocs_mdpo_plugin/config.py:47-53 | the material `extra.alternate` list gives languages iff every item has `lang`, and then exactly those values in order |
| Config.SetLanguages | mkdocs_mdpo_plugin/config.py:43-68 | `languages` is resolved or left unchanged with the error that the code raises (no material alternates, non-material theme, empty list), and a resolved list is non-empty |
| Config.LanguagesThenDefault | mkdocs_mdpo_plugin/config.py:70-86 | once languages are resolved, a default language always resolves, and a resolved default left unset is one of the languages (the raise at 80-84 cannot be reached) |
| Config.SetDefaultLanguage | mkdocs_mdpo_plugin/config.py:70-86 | `default_language` becomes the explicit value, else the theme locale if it is a language, else the first language |
| Config.ToggleSpec | mkdocs_mdpo_plugin/config.py:96-123 | a guarded append or remove changes only the count of that one name, keeps the list duplicate-free, and leaves the name present iff it was switched on |
| Config.FourSwitches | mkdocs_mdpo_plugin/config.py:96-123 | the four guarded toggles leave each name present iff it was switched on, keep the list duplicate-free, and change no other name |
| Config.DropAfterSwitches | mkdocs_mdpo_plugin/config.py:125-129 | the guarded removal of `strikethrough` leaves it present iff it was there and not dropped, keeps the other switched names, and changes no other count |
| Config.SwitchesSpec | mkdocs_mdpo_plugin/config.py:94-129 | the five toggles in sequence leave each toggled name present iff its condition holds, keep the list duplicate-free, and change no other name |
| Config.Md4cForSpec | mkdocs_mdpo_plugin/config.py:94-129 | `tables`/`wikilinks` iff configured, `permissive_atx_headers` iff no `pymdownx.saneheaders`, `tasklists` iff `pymdownx.tasklist`, `strikethrough` only removed (when `pymdownx.tilde`); nothing else changes |
| Config.WithOwnSpec | mkdocs_mdpo_plugin/config.py:131-134 | the plugin's own extension ends the list, occurs once when it occurred at most once before, and no other extension changes |
| Config.Switch | mkdocs_mdpo_plugin/config.py:96-123 | the in-place guarded append/remove on the md4c list computes the toggle |
| Config.AdjustMd4c | mkdocs_mdpo_plugin/config.py:94-129 | updates the plugin's md4c list in place to the adjusted list and touches nothing else |
| Config.RegisterExtensions | mkdocs_mdpo_plugin/config.py:90-137 | with configured extensions the md4c list is adjusted and `mkdocs-mdpo` appended; with none both are left alone; the plugin's Markdown list is the config's |
| Config.OnConfigEvent | mkdocs_mdpo_plugin/config.py:21-137 | the whole event: it fails exactly when languages cannot be resolved and then changes nothing else, and otherwise sets languages and the default language; the older on_config.py event is the same method with `mkdocs.mdpo` as the own extension and `_md4c_extensions` as the md4c list |
| Events.BuildEvents | mkdocs_mdpo_plugin/mdpo_events.py:83-88 | an event key is installed iff one of its table extensions is configured, and always with its own callback |
| Events.MarkdownExtensionsOf | mkdocs_mdpo_plugin/mdpo_events.py:48 | `argument['markdown_extensions']` has a value iff the argument is a build configuration, and then it is its extension list; a list argument raises |
| Events.PluginCallRaises | mkdocs_mdpo_plugin/plugin.py:236-243 | the plugin passes the extension list itself, for which the lookup fails, while a configuration holding the same list yields it |
| Events.BuildMd2poEvents | mkdocs_mdpo_plugin/mdpo_events.py:24-38 | `text` iff one of admonition/def_list/details/snippets/tabbed, `msgid` iff def_list, `link_reference` iff footnotes |
| Events.BuildPo2mdEvents | mkdocs_mdpo_plugin/mdpo_events.py:93-115 | the po2md table holds at most `link_reference`, and holds it iff footnotes is configured |
| Events.BuildMd4cEvents | mkdocs_mdpo_plugin/md4c_events.py:29-40 | only `text` and `msgid` exist, each iff one of its extensions is configured; the loop stops at the first match |
| Events.Md2poTextEvent | mkdocs_mdpo_plugin/mdpo_events.py:50-66 | returns False iff a configured extension's pattern matches the text, and only then appends the text to the disabled entries |
| Events.Md4cTextEvent | mkdocs_mdpo_plugin/md4c_events.py:46-66 | as above with the md4c guards: False and one appended disabled entry iff a guard matches |
| Events.TextGuardsCompared | mkdocs_mdpo_plugin/md4c_events.py:46-66 | every md2po guard match is an md4c guard match, and without def_list the two guards agree |
| Events.Md2poMsgidEvent | mkdocs_mdpo_plugin/mdpo_events.py:68-70 | the disable-next-line flag is set iff the msgid starts with `': '` (and is never cleared) |
| Events.Md4cMsgidEvent | mkdocs_mdpo_plugin/md4c_events.py:68-71 | the flag is set only when def_list is configured and the msgid starts with `': '` |
| Events.LinkReferenceEvent | mkdocs_mdpo_plugin/mdpo_events.py:72-74 | never returns True, and returns False iff the target starts with `^` |
| Translations.Translation.constructor | mkdocs_mdpo_plugin/translations.py:7-34 | a translation record stores its seven arguments unchanged |
| Translations.Translations.constructor | mkdocs_mdpo_plugin/translations.py:62-88 | the build records start with empty files, nav, compendium, `all` and stats maps and no current translation |
| PageMerge.MergeExtracted | mkdocs_mdpo_plugin/plugin.py:288-290 | the loop computes "append each extracted entry absent from the catalog" |
| PageMerge.AppendAbsentExtends | mkdocs_mdpo_plugin/plugin.py:288-290 | the old catalog is an unchanged prefix of the merge, and every appended entry was extracted and absent |
| PageMerge.AppendAbsentCovers | mkdocs_mdpo_plugin/plugin.py:288-290 | every live extracted entry is in the merged catalog |
| PageMerge.AppendAbsentNoLiveDuplicates | mkdocs_mdpo_plugin/plugin.py:288-290 | a catalog without duplicate live keys keeps none after the merge |
| PageMerge.MergeIdempotent | mkdocs_mdpo_plugin/plugin.py:288-290 | merging the same live extraction twice is the same as merging it once |
| PageMerge.MatchMetadata | mkdocs_mdpo_plugin/plugin.py:311-356 | the two scans (with and without a description) compute the metadata match |
| PageMerge.MatchMetaSpec | mkdocs_mdpo_plugin/plugin.py:311-356 | exactly the title/description entries are revived and no other entry changes; the title is found iff some entry has it, and its translation is that of the last one; the description likewise |
| PageMerge.LastWithSpec | mkdocs_mdpo_plugin/plugin.py:347-356 | the last-match scan yields nothing iff no entry has the msgid, else the msgstr of the last entry with it |
| PageMerge.TagSettings | mkdocs_mdpo_plugin/plugin.py:358-371 | the nested loop over compendium entries and settings computes the tagging |
| PageMerge.TagAllSpec | mkdocs_mdpo_plugin/plugin.py:359-371 | an entry matching a setting is revived and gains that setting's flag, without a duplicate flag; an entry matching none is unchanged; the found settings grow by exactly the matches |
| PageMerge.TagEntriesSpec | mkdocs_mdpo_plugin/plugin.py:358-371 | over the whole compendium: keys and msgstrs are kept, matched entries are live and flagged, unmatched ones unchanged, and a setting is found iff some entry matches its value |
| PageMerge.InsertMissingSettings | mkdocs_mdpo_plugin/plugin.py:381-391 | the loop computes the insertions at the front of the compendium |
| PageMerge.InsertMissingSpec | mkdocs_mdpo_plugin/plugin.py:381-391 | the compendium is prefixed with the missing settings' entries, and every setting not found gets its flagged empty entry |
| PageMerge.CompendiumSettings | mkdocs_mdpo_plugin/plugin.py:358-392 | after tagging and insertion, every translated setting has a live compendium entry flagged for it, and every old compendium entry's key and msgstr is kept |
| PageMerge.PrepareCompendium | mkdocs_mdpo_plugin/plugin.py:358-392 | the prepared compendium covers every setting and keeps the old entries |
| PageMerge.CopyTranslated | mkdocs_mdpo_plugin/plugin.py:394-397 | the loop appends the compendium entries with a msgstr that the page catalog lacks |
| PageMerge.TranslatedMembers | mkdocs_mdpo_plugin/plugin.py:396 | an entry is copied iff it is in the compendium with a non-empty msgstr; untranslated entries are never copied |
| PageMerge.InsertMeta | mkdocs_mdpo_plugin/plugin.py:333-379 | a missing title, then a missing description, is inserted at the front with an empty msgstr; everything present and live stays |
| PageMerge.PrepareCatalog | mkdocs_mdpo_plugin/plugin.py:283-379 | the page catalog contains every live extracted message and a live title (and description) entry, inserted only when no entry had that msgid |
| PageMerge.CopyKeepsCatalog | mkdocs_mdpo_plugin/plugin.py:394-398 | copying the compendium keeps those guarantees, adds every live translated compendium entry, and leaves a positive total |
| PageMerge.MergePage | mkdocs_mdpo_plugin/plugin.py:283-398 | the whole merge for one page and language: extracted, compendium-translated, title and description messages are in the catalog; title/description translations come from the last matches |
| CompletionGate.RunningSums | mkdocs_mdpo_plugin/plugin.py:400-415 | a language has statistics iff one of its pages was counted, and they are the sums of its pages' counts |
| CompletionGate.TotalPositive | mkdocs_mdpo_plugin/plugin.py:400-415 | a language with counted pages has a positive total |
| CompletionGate.CountsAdd | mkdocs_mdpo_plugin/plugin.py:404-415 | adding a page's statistics keeps the statistics equal to the per-language sums |
| CompletionGate.GateOneWay | mkdocs_mdpo_plugin/plugin.py:606-659 | a dropped page takes exactly one occurrence of its language out of the list when it is listed, and changes no other language's count; a published page changes no language; counts are untouched |
| CompletionGate.RemoveFirstCounts | mkdocs_mdpo_plugin/plugin.py:649-658 | dropping a language takes one of its occurrences when listed and leaves every other count |
| CompletionGate.GateCountExact | mkdocs_mdpo_plugin/plugin.py:638-659 | as written, in count mode a language with statistics is dropped iff `translated < min_translated_messages`, whatever its total, and the statistics are not touched |
| CompletionGate.PercentBelow | mkdocs_mdpo_plugin/plugin.py:620-624 | over exact reals, `translated / total * 100 < p` iff `translated * 100 < p * total` |
| CompletionGate.GatePercentExact | mkdocs_mdpo_plugin/plugin.py:615-636 | in percent mode the page is dropped iff `translated * 100 < p * total` |
| CompletionGate.CachedPercentSticks | mkdocs_mdpo_plugin/plugin.py:617-623 | the cached percentage decides later pages of the language in the same way, whatever is counted afterwards |
| CompletionGate.GateNeverFails | mkdocs_mdpo_plugin/plugin.py:614-622 | a language with counted pages never hits the missing-statistics or zero-division errors |
| CompletionGate.GateKeepsCounts | mkdocs_mdpo_plugin/plugin.py:606-659 | the gate keeps the statistics equal to the per-language sums |
| CompletionGate.GateFailsOnlyWithoutPages | mkdocs_mdpo_plugin/plugin.py:612-622 | the gate fails iff it is enabled and no page of the language was counted |
| CompletionGate.AsWrittenExcludesComplete | mkdocs_mdpo_plugin/plugin.py:638-659 | as written (`Gate`), a fully translated language (3 of 3) is dropped by a count threshold of 5, while the clamped gate (`ClampedGate`) publishes it |
| CompletionGate.ClampedGateKeepsComplete | mkdocs_mdpo_plugin/plugin.py:638-659 | the clamped gate never drops a fully translated language, agrees with the code whenever the language has no statistics or the threshold is at most the total, and agrees whenever the code publishes |
| Dedup.RepeatedMsgids | mkdocs_mdpo_plugin/plugin.py:771-779 | the nested loop computes the scan of the concatenated `po_msgids` lists |
| Dedup.ScanSpec | mkdocs_mdpo_plugin/plugin.py:772-779 | a msgid is seen iff it occurs, repeated iff it occurs at least twice, and the repeated list has no duplicates |
| Dedup.FindFirst | mkdocs_mdpo_plugin/plugin.py:794-806 | the scan finds nothing iff no entry has the msgid, else the first entry with it |
| Dedup.InCompendium | mkdocs_mdpo_plugin/plugin.py:785-789 | the flag is set iff the compendium has an entry with the msgid |
| Dedup.TakeFirst | mkdocs_mdpo_plugin/plugin.py:793-808 | returns the first entry with the msgid, if any, and the catalog without exactly that entry |
| Dedup.PromoteMsgid | mkdocs_mdpo_plugin/plugin.py:784-809 | the loop over the pages computes the promotion of one msgid |
| Dedup.PromoteRepeated | mkdocs_mdpo_plugin/plugin.py:784-809 | the loop over the repeated msgids computes their promotion in order |
| Dedup.PromoteAllAppends | mkdocs_mdpo_plugin/plugin.py:784-806 | promotion only appends to the compendium, and each appended entry is a repeated msgid the compendium lacked, taken from its first holder |
| Dedup.PromoteAllDistinct | mkdocs_mdpo_plugin/plugin.py:784-806 | each repeated msgid is appended at most once |
| Dedup.PromoteAllCovers | mkdocs_mdpo_plugin/plugin.py:784-806 | every repeated msgid that some page holds is in the compendium afterwards |
| Dedup.PromoteAllStrips | mkdocs_mdpo_plugin/plugin.py:792-808 | each page catalog loses exactly one occurrence of each repeated msgid it holds and nothing else |
| Dedup.FinalizeEntry | mkdocs_mdpo_plugin/plugin.py:811-822 | keys and msgstr are kept; the entry becomes obsolete iff it is not repeated and has no site flag; a live entry keeps no setting tag |
| Dedup.FinalizeCompendium | mkdocs_mdpo_plugin/plugin.py:811-822 | the loop finalizes every compendium entry in place |
| Dedup.MarkUnconsumed | mkdocs_mdpo_plugin/plugin.py:835-837 | exactly the entries whose msgid is not among the consumed msgids become obsolete |
| Dedup.FinishPromotes | mkdocs_mdpo_plugin/plugin.py:771-809 | the end-of-build pass repeats exactly the msgids occurring twice, and every repeated msgid held by a page ends in the compendium |
| Dedup.FinishCompendium | mkdocs_mdpo_plugin/plugin.py:784-822 | the old compendium entries are finalized in place, only repeated msgids are appended, and no live entry keeps a setting tag |
| Dedup.FinishStripsPages | mkdocs_mdpo_plugin/plugin.py:792-838 | each page catalog ends with one fewer occurrence of each repeated msgid it held |
| Dedup.FinishMarksPages | mkdocs_mdpo_plugin/plugin.py:830-838 | a saved page's entry is live iff it survived promotion live and was consumed; an excluded page is not marked |
| Dedup.FinishPages | mkdocs_mdpo_plugin/plugin.py:771-838 | the per-language pass computes the repeated msgids, the compendium and the page catalogs |
| Dedup.ExcludedPageStopsPromotion | mkdocs_mdpo_plugin/plugin.py:807-809 | as written, an excluded page holding a repeated msgid makes the promotion fail (its catalog has no file to save to) |
| Dedup.AsWrittenAgreesWithoutExcludedHolders | mkdocs_mdpo_plugin/plugin.py:784-809 | when no excluded page holds a repeated msgid, the code as written promotes exactly as the corrected model |
| Dedup.HeldUntilPromoted | mkdocs_mdpo_plugin/plugin.py:792-808 | a page catalog still holds a msgid not yet promoted iff it held it at the start |
| Dedup.PromotionStopsIff | mkdocs_mdpo_plugin/plugin.py:784-809 | the promotion as written stops iff a catalog without a file holds one of the repeated msgids, and otherwise promotes as the corrected model |
| Dedup.FinishAsWritten | mkdocs_mdpo_plugin/plugin.py:771-809 | over a language's pages, the promotion as written completes iff no excluded page holds a repeated msgid, and then equals the promotion of the pass |
| TreeProcessors.Apply | mkdocs_mdpo_plugin/extensions.py:21-90 | a translation replaces the node's text (text processor, line 22) or its `title` attribute (title processor, line 90) and nothing else; no translation leaves the node unchanged |
| TreeProcessors.Revive | mkdocs_mdpo_plugin/extensions.py:19-28 | exactly the entries with the msgid become live |
| TreeProcessors.ReviveMatching | mkdocs_mdpo_plugin/extensions.py:18-31 | the loop revives the matching entries, collects their msgids and non-empty msgstrs when recording, and yields the last non-empty msgstr |
| TreeProcessors.StepSpec | mkdocs_mdpo_plugin/extensions.py:16-35 | an already produced translation is skipped; a known msgid's entries become live and it is recorded, with any replacement being one of its msgstrs; an unknown, non-disabled msgid grows `po` and `po_msgids` by one; a disabled one changes nothing |
| TreeProcessors.StepKnown | mkdocs_mdpo_plugin/extensions.py:18-31 | a known msgid keeps the catalog in sync, is recorded, has a live entry, and any replacement is a non-empty msgstr of it |
| TreeProcessors.StepUnknown | mkdocs_mdpo_plugin/extensions.py:32-35 | an unknown, non-disabled msgid adds one empty entry and one `po_msgids` item, and nothing replaces the node |
| TreeProcessors.ProcessTranslation | mkdocs_mdpo_plugin/extensions.py:16-35 | updates the current translation in place to the step's state and returns its replacement |
| TreeProcessors.StepsKeepSynced | mkdocs_mdpo_plugin/extensions.py:16-35 | `po_msgids` lists the catalog's msgids before and after any number of steps |
| TreeProcessors.StepsGrowCatalog | mkdocs_mdpo_plugin/extensions.py:32-35 | the walk only appends to the catalog and never removes or reorders an entry |
| TreeProcessors.WalkIsSteps | mkdocs_mdpo_plugin/extensions.py:42-73 | the recursive walk acts as one step per candidate node, in document order |
| TreeProcessors.WalkKeepsShape | mkdocs_mdpo_plugin/extensions.py:42-73 | the walk keeps the number and tags of the children |
| TreeProcessors.IterateChildren | mkdocs_mdpo_plugin/extensions.py:42-71 | the loop over the children updates the translation as the walk does and returns the walked nodes |
| TreeProcessors.VisitChild | mkdocs_mdpo_plugin/extensions.py:43-56 | a child is translated only when the node filters let it through, then its children are walked |
| TreeProcessors.Run | mkdocs_mdpo_plugin/extensions.py:10-145 | with no current translation the tree is unchanged; otherwise the whole tree is walked with recording, in text mode or in title mode (title attribute, no `mdpo`, `abbr` and emoji filters) |
| TreeProcessors.LegacyBuild.Run | mkdocs_mdpo_plugin/extension.py:9-57 | the older processor walks without recording and saves the page catalog after the walk |
| TreeProcessors.LegacyStepsRecordNothing | mkdocs_mdpo_plugin/extension.py:20-32 | the older processing never records translated msgids, msgstrs or disabled msgids |
| Plugin.TranslationLanguages | mkdocs_mdpo_plugin/plugin.py:61-66 | a language is translated iff it is configured and is not the default language |
| Plugin.MdpoPlugin.CachedTranslationLanguages | mkdocs_mdpo_plugin/plugin.py:61-66 | the first call computes and caches the list; later calls return the cached list even after the gate removes a language |
| Plugin.SectionTitleSpec | mkdocs_mdpo_plugin/plugin.py:142-154 | a section title is translated iff the first compendium entry with it has a msgstr, and then to that msgstr |
| Plugin.SectionTitleAfterInsert | mkdocs_mdpo_plugin/plugin.py:155-163 | after inserting an unknown title, the compendium has it and it stays untranslated |
| Plugin.MdpoPlugin.TranslateSectionTitle | mkdocs_mdpo_plugin/plugin.py:134-166 | empty or already seen titles are left alone; otherwise the compendium is read, the first matching entry revived (not saved), or the title inserted and saved, and the title recorded |
| Plugin.MdpoPlugin.OpenCompendium | mkdocs_mdpo_plugin/plugin.py:260-272 | the first visit of a language creates its compendium file if absent and resets its caches; reading fails only when a registered compendium has gone |
| Plugin.MdpoPlugin.CountPage | mkdocs_mdpo_plugin/plugin.py:400-415 | the page's statistics are added to its language only when the gate is enabled |
| Plugin.MdpoPlugin.MergeLanguage | mkdocs_mdpo_plugin/plugin.py:260-447 | one language of a page: it fails only for a vanished compendium; otherwise both catalogs on disk satisfy the merge guarantees and only that language's files change |
| Plugin.MdpoPlugin.SaveMerged | mkdocs_mdpo_plugin/plugin.py:392-398 | the compendium and page catalog are written, and the merge guarantees hold of what is on disk |
| Plugin.MetaEntries | mkdocs_mdpo_plugin/plugin.py:425-437 | the description (if any) and then the title are added to Po2Md's translated entries with empty msgstrs |
| Plugin.MdpoPlugin.NewPageTranslation | mkdocs_mdpo_plugin/plugin.py:440-513 | the record holds the page catalog in sync with `po_msgids`, the ignored and disabled msgids, and the metadata and Po2Md translated msgids after the merge's |
| Plugin.MdpoPlugin.RenderPage | mkdocs_mdpo_plugin/plugin.py:514 | while rendering, the translation is current and the tree processors only append to its catalog |
| Plugin.MdpoPlugin.TranslatePage | mkdocs_mdpo_plugin/plugin.py:247-586 | an excluded page changes no file and no statistics; otherwise it fails only for a vanished compendium; the new translation is appended to its language |
| Plugin.MdpoPlugin.OnPageMarkdown | mkdocs_mdpo_plugin/plugin.py:197-588 | translated pages are ignored; for a source page every cached language gets a record and, unless excluded, a ready page catalog; no translation is current afterwards |
| Plugin.MdpoPlugin.OnPostPage | mkdocs_mdpo_plugin/plugin.py:606-659 | non-translated pages are written; a translated page follows the gate as written, and the gate fails iff enabled with no counted page of the language |
| Plugin.SaveCompendium | mkdocs_mdpo_plugin/plugin.py:824-828 | a non-empty compendium is saved, an empty one is removed, and no other file changes |
| Plugin.MdpoPlugin.SaveLanguage | mkdocs_mdpo_plugin/plugin.py:761-767 | every page catalog with a file is saved; compendiums and other languages are untouched |
| Plugin.MdpoPlugin.SaveAll | mkdocs_mdpo_plugin/plugin.py:761-767 | all languages' page catalogs are saved and no compendium changes |
| Plugin.MdpoPlugin.WritePages | mkdocs_mdpo_plugin/plugin.py:807-838 | each translation record gets its finished catalog, and each catalog with a file is written |
| Plugin.MdpoPlugin.FinishLanguage | mkdocs_mdpo_plugin/plugin.py:771-838 | the language's pass fails iff its compendium is unregistered or gone (no file changes), or an excluded page holds a repeated msgid (the save at line 809 raises); otherwise the records and files hold the finished compendium and catalogs; other languages are untouched |
| Plugin.MdpoPlugin.FinishAll | mkdocs_mdpo_plugin/plugin.py:771-838 | every language is finished; it succeeds iff every language's compendium is registered and present and no excluded page of it holds a repeated msgid |
| Plugin.BuildComposes | mkdocs_mdpo_plugin/plugin.py:761-838 | saving and then finishing every language gives the end-of-build disk |
| Plugin.MdpoPlugin.OnPostBuild | mkdocs_mdpo_plugin/plugin.py:739-838 | the event saves, deduplicates and marks every language; it succeeds iff every compendium is registered and present and no excluded page holds a repeated msgid, and then the disk is the end-of-build result of the catalogs as they were |
| SearchIndexes.LanguageExtensionPathShape | mkdocs_mdpo_plugin/search_indexes.py:22-23 | the path is the character-set `rstrip` of the extension followed by separator, language and extension, so it always ends with them |
| SearchIndexes.LanguageExtensionPathOfStem | mkdocs_mdpo_plugin/search_indexes.py:22-23 | a stem not ending in an extension character keeps its whole stem |
| SearchIndexes.RStripIsNotSuffixRemoval | mkdocs_mdpo_plugin/search_indexes.py:22-23 | `tabs.js` becomes `tab_es.js`: the strip removes characters, not the suffix |
| SearchIndexes.LanguageIndexPathInjective | mkdocs_mdpo_plugin/search_indexes.py:22-23 | two languages never share an index path |
| SearchIndexes.Create | mkdocs_mdpo_plugin/search_indexes.py:165-204 | construction fails iff some worker file lacks a path or content |
| SearchIndexes.TranslationsSearchPatcher.constructor | mkdocs_mdpo_plugin/search_indexes.py:165-198 | the buckets start as one empty list per configured language |
| SearchIndexes.RecordsOfMembers | mkdocs_mdpo_plugin/search_indexes.py:208-223 | a record lands in a language's bucket iff its location maps to that language (empty or `#` location: default; `x#y`: `locations[x]`; exact: `locations[location]`) |
| SearchIndexes.PartitionSpec | mkdocs_mdpo_plugin/search_indexes.py:208-223 | the partition fails iff some record maps to a language without a bucket; otherwise each bucket gets exactly its records, in order |
| SearchIndexes.PartitionFailureSticks | mkdocs_mdpo_plugin/search_indexes.py:208-223 | once a prefix of the records fails, the whole partition fails |
| SearchIndexes.TranslationsSearchPatcher.PartitionRecords | mkdocs_mdpo_plugin/search_indexes.py:208-223 | the loop fills the buckets in place as the partition does |
| SearchIndexes.LanguageIndex | mkdocs_mdpo_plugin/search_indexes.py:252-268 | the per-language index holds the bucket, with `config.lang` set to the language only for material |
| SearchIndexes.PatchWorkerFiles | mkdocs_mdpo_plugin/search_indexes.py:70-107 | one rewritten script per worker file the theme uses (one for material, two for mkdocs), each at the worker's path with `_<lang>` before `.js` |
| SearchIndexes.MaterialWorkerPatched | mkdocs_mdpo_plugin/search_indexes.py:70-79 | the material worker loads `/search/search_index_<lang>.json` once rewritten |
| SearchIndexes.PatchHtmlLoadsLanguageScript | mkdocs_mdpo_plugin/search_indexes.py:120-148 | a page loading the theme's search script loads the language's script once rewritten (material worker, or `search/main_<lang>.js`); a page not loading it is unchanged |
| SearchIndexes.MkdocsWorkerPatched | mkdocs_mdpo_plugin/search_indexes.py:82-107 | the mkdocs worker loads `search_index_<lang>.json` and the main script loads `search/worker_<lang>.js` |
| SearchIndexes.TranslationsSearchPatcher.WriteLanguageFiles | mkdocs_mdpo_plugin/search_indexes.py:227-242 | succeeds iff every language has a bucket; then each language's index file holds its bucket over the shared document, with `config.lang` set for material, other index files are kept, the scripts are those rewritten for the languages in order, and the shared document keeps the last language's `lang` |
| SearchIndexes.WriteLanguageIndexes | mkdocs_mdpo_plugin/search_indexes.py:227-242 | the loop over the languages: fails at the first language without a bucket; otherwise the index files, the scripts and the shared document are as above |
| SearchIndexes.LanguageStep | mkdocs_mdpo_plugin/search_indexes.py:227-242 | one language of the loop extends the written indexes, the scripts and the shared document by that language |
| SearchIndexes.IndexesStep | mkdocs_mdpo_plugin/search_indexes.py:252-268 | writing one more language's index keeps the indexes written for the languages before it and every other file |
| SearchIndexes.SharedJsonIndexes | mkdocs_mdpo_plugin/search_indexes.py:252-260 | the `lang` left in the shared document by earlier languages does not change the index made for a later one |
| SearchIndexes.ScriptsAfterHold | mkdocs_mdpo_plugin/search_indexes.py:238-242 | when no two rewritten scripts share a path, every language's rewritten scripts are on disk with their rewritten content |
| SearchIndexes.WriteScriptsLast | mkdocs_mdpo_plugin/search_indexes.py:70-107 | the last write to a path decides its content |
| SearchIndexes.WriteScriptsKeeps | mkdocs_mdpo_plugin/search_indexes.py:70-107 | writing scripts adds exactly their paths and keeps the content of every path not written |
| SearchIndexes.HtmlLocationOfIndex | mkdocs_mdpo_plugin/search_indexes.py:277 | a directory's `index.html` strips to its directory |
| SearchIndexes.FilesOfMembers | mkdocs_mdpo_plugin/search_indexes.py:270-283 | an HTML file is in a language's list iff its location maps to that language, else the default language |
| SearchIndexes.HtmlFilesByLanguage | mkdocs_mdpo_plugin/search_indexes.py:270-283 | succeeds iff every file's language is configured, and then each language gets exactly its files |
| Translations.BucketMembers | mkdocs_mdpo_plugin/translations.py:130-138 | the default bucket gets the records under no language prefix, any other language the records under `<language>/` |
| Translations.AtMostOneBucket | mkdocs_mdpo_plugin/translations.py:130-138 | a record lands in at most one bucket |
| Translations.SomeBucketUnlessDefaultPrefix | mkdocs_mdpo_plugin/translations.py:130-138 | a record lands in some bucket iff it is not under the default language's prefix |
| Translations.PrefixesExclusive | mkdocs_mdpo_plugin/translations.py:133-137 | a location is under at most one language prefix |
| Translations.CollectBucket | mkdocs_mdpo_plugin/translations.py:130-138 | the loop collects a language's bucket |
| Translations.LoaderFor | mkdocs_mdpo_plugin/translations.py:174-181 | the loader is rewritten iff its path and content are known |
| Translations.LoaderLoadsLanguageIndex | mkdocs_mdpo_plugin/translations.py:174-181 | the language loader's path ends in `_<lang>.js` and it loads `search_index_<lang>.json` |
| Translations.TranslationSearchIndexes.constructor | mkdocs_mdpo_plugin/translations.py:105-123 | the patcher starts with the default language's empty bucket and the site's index path |
| Translations.TranslationSearchIndexes.PatchSiteDir | mkdocs_mdpo_plugin/translations.py:125-162 | fails iff the loader is unknown; otherwise every language has a bucket and its index and loader are written; the shared JSON ends with the last language's records |
| Translations.WriteLanguages | mkdocs_mdpo_plugin/translations.py:127-162 | the loop over languages writes every language's bucket, index and loader |
| Translations.WriteLanguage | mkdocs_mdpo_plugin/translations.py:130-162 | one language: its bucket, its index over the shared JSON, and its loader |
| Translations.IndexWriteKeeps | mkdocs_mdpo_plugin/translations.py:164-172 | writing one language's index keeps the indexes already written |
| MkdocsUtils.VersionInfoOf | mkdocs_mdpo_plugin/mkdocs_utils.py:11-13 | the version tuple of `M.m[...]` is `(M, m)` |
| MkdocsUtils.AtLeastOneTwo | mkdocs_mdpo_plugin/mkdocs_utils.py:44-45 | the tuple comparison with (1, 2) is the lexicographic one |
| MkdocsUtils.SetOnBuildErrorEvent | mkdocs_mdpo_plugin/mkdocs_utils.py:37-49 | the cleanup hook is installed iff the version is at least 1.2 and the class has no hook |
| MkdocsUtils.MkdocsBuildClass.Instance | mkdocs_mdpo_plugin/mkdocs_utils.py:24-29 | the singleton is created, and the plugin bound, only on the first call; later calls return the same object |
| MkdocsUtils.MkdocsBuildClass.ClearInstance | mkdocs_mdpo_plugin/mkdocs_utils.py:32-34 | the build-error cleanup resets the singleton |
| MkdocsUtils.SecondField | mkdocs_mdpo_plugin/mkdocs_utils.py:70 | the second dot-separated field exists iff there are two fields |
| MkdocsUtils.LunrLanguagesAccepts | mkdocs_mdpo_plugin/mkdocs_utils.py:68-73 | the listing succeeds iff every filename has a dot |
| MkdocsUtils.LunrLanguagesMembers | mkdocs_mdpo_plugin/mkdocs_utils.py:68-73 | a language is listed iff it is some filename's two-character second field |
| MkdocsUtils.GetLunrLanguages | mkdocs_mdpo_plugin/mkdocs_utils.py:62-73 | the loop computes the lunr language list |

## Left out

- Navigation translation other than section titles, and the rest of `on_page_context`
  (plugin.py:168-195): mkdocs structures.
- `page_metas`, `config_settings`, the URLs and `edit_url`, the temporary file write and
  `_populate_page` (plugin.py:459-582): framework plumbing. The search-language setup
  (plugin.py:547-599) is left out too.
- The HTML rewriting in `on_post_page` (plugin.py:661-736) and `_patch_html_files`
  (translations.py:183-208): regex and string templating over rendered HTML.
- The HTML patch loop of `patch_site_dir` (search_indexes.py:244-250): the rewrite of one
  page is `SearchIndexes.PatchHtml`, but the HTML files' contents are not part of the
  patcher's state, so the loop over them is not threaded through `WriteLanguageFiles`.
- Markdown extraction and translation (`Md2Po`, `Po2Md`) and the Markdown renderer: they are
  parameters. polib load and save are reads and writes of the disk map.
- Entry aliasing across catalogs: polib entries are shared objects (an extracted entry is
  appended to every language's catalog, and a compendium entry appended to a page catalog is
  the same object). Entries here are values, so an update through one catalog is not seen in
  another.
- The search patcher call in `on_post_build` (plugin.py:742-759) and the tempdir cleanup.
  The patchers themselves are modelled separately.
- `Plugin.MdpoPlugin.OnPostBuild` does not reset the `MkdocsBuild` singleton (plugin.py:841);
  that reset is `MkdocsUtils.MkdocsBuildClass.ClearInstance`.
- File system enumeration (`os.walk`, `listdir` and its order), JSON reads and writes, and JS
  file discovery (search_indexes.py:30-57, translations.py:210-223), and `io.py`: I/O.
- The shallow copy of the search index JSON is modelled only through its `config`: the
  copies share the `config` dictionary, so the patcher's document keeps the last language's
  `lang` (`SearchIndexes.SharedJsonAfter`); the other keys are not shared.
- The `atexit` path of `set_on_build_error_event` (mkdocs_utils.py:50-59), logging,
  `on_serve` and `sys.exit`: process-level side effects.
- `get_material_languages` (mkdocs_utils.py:76-86): not used by the plugin core.
- `readable_float` (utils.py:1-7) and the parsing of `'N%'` thresholds: logging only, and the
  parser is not part of this model.
- `mdpo_utils.py` and `remove_mdpo_commands_preserving_escaped`: built from a pattern that is
  not part of this model.
- The regexes guarding `text_event` (admonition, definition list, details, snippets, tabs) are
  an uninterpreted predicate on the text.
- MkdocsUtils.VersionInfoOf: `int()` accepts signs, spaces and underscores; the model accepts
  only plain decimal digits.
- The theme `Locale` object is a plain optional string.
- Config.Md4cForSpec: duplicate-freedom of the result is stated for a duplicate-free starting
  list (the default list is).
- `Translations.__slots__` (translations.py:51-60) lacks `stats`, `locations`,
  `config_settings` and `page_metas`, which plugin.py uses; the model adds `stats` and
  `locations`.
- The JavaScript assets: browser code.
- CompletionGate.PercentBelow and CompletionGate.Gate: the percentage is an exact real, not a
  float. Python computes `translated / total * 100` in binary floating point, which can round
  across the threshold (`29 / 100 * 100` is `28.999999999999996`, below 29), so at the exact
  boundary the code may drop a page that the model keeps.
- Plugin.MdpoPlugin.FinishLanguage: when the promotion reaches an excluded page's catalog
  (plugin.py:809), the pass stops with `SaveWithoutFile`. By then the code has saved the
  catalogs of earlier holders in the same loop. Which ones is not modelled: in that case the
  contract says only that other languages' files are untouched.
- Events.BuildMd2poEvents, Events.BuildPo2mdEvents and Events.BuildMd4cEvents take the
  Markdown extension list that `mkdocs_build_config['markdown_extensions']` would give. The
  plugin passes that list itself (plugin.py:236, 243), so the lookup raises; the builders are
  modelled as evidently intended (see "Findings").

## Findings

| source | as written | input that shows it | evidently intended | confidence | as-written member | corrected member |
|---|---|---|---|---|---|---|
| mkdocs_mdpo_plugin/plugin.py:638-659 | in count mode the threshold is clamped to `total` only for the log message; the comparison `translated < min_translated` has already been made, so the language is excluded anyway | a language with 3 of 3 messages translated and `min_translated_messages: 5` | compare against `min(min_translated, total)`, as the warning says ("Using total for min_translated_messages"), so that a fully translated language is kept | medium, not executed | CompletionGate.AsWrittenExcludesComplete | CompletionGate.ClampedGateKeepsComplete |
| mkdocs_mdpo_plugin/plugin.py:797-809 | the promotion loop saves every page catalog that held a repeated msgid, including an excluded page, whose `po` is a plain list and whose `po_filepath` is None; the `save` call then raises | an excluded page and a translated page of the same language that both render the paragraph "Hello" (the tree processors add "Hello" to the excluded page's list) | skip records without a file, as the save at line 766 and the marking at line 834 do | medium, not executed | Dedup.ExcludedPageStopsPromotion | Dedup.FinishPromotes |
| mkdocs_mdpo_plugin/plugin.py:236-243 | the event builders index their argument with `['markdown_extensions']`, but the plugin passes `self.extensions.markdown`, the extension list itself; indexing a list with a string raises `TypeError` | any site page processed by `on_page_markdown` | pass the build configuration, or have the builders take the extension list | low, not executed | Events.PluginCallRaises | Events.BuildMd2poEvents |
