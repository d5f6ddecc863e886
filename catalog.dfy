/** PO catalogs as the plugin sees them through polib: ordered sequences of entries. */
module Catalog {
  import opened Wrappers
  import opened Strings

  /** A PO entry: `msgid`, optional `msgctxt`, `msgstr`, the `obsolete` mark and `flags`. */
  datatype Entry = Entry(msgid: string, msgctxt: Option<string>, msgstr: string, obsolete: bool, flags: seq<string>)

  /** A new entry as the plugin creates one: the msgid with an empty msgstr. */
  function NewEntry(msgid: string): (e: Entry)
    ensures e.msgid == msgid && e.msgstr == [] && !e.obsolete && e.msgctxt.None? && e.flags == []
  {
    Entry(msgid, None, "", false, [])
  }

  /** polib identifies entries by `(msgid, msgctxt)`. */
  predicate SameKey(a: Entry, b: Entry)
  {
    a.msgid == b.msgid && a.msgctxt == b.msgctxt
  }

  /** polib's `entry in po`: `find` skips obsolete entries by default, so only a LIVE entry
      with the same `(msgid, msgctxt)` makes `entry` a member. */
  predicate Contains(po: seq<Entry>, e: Entry)
  {
    exists i :: 0 <= i < |po| && !po[i].obsolete && SameKey(po[i], e)
  }

  /** No two live entries share a key. */
  predicate NoLiveDuplicates(po: seq<Entry>)
  {
    forall i, j :: 0 <= i < j < |po| && !po[i].obsolete && !po[j].obsolete ==> !SameKey(po[i], po[j])
  }

  /** The msgids of a catalog, in order. */
  function Msgids(po: seq<Entry>): (r: seq<string>)
    ensures |r| == |po| && forall i :: 0 <= i < |po| ==> r[i] == po[i].msgid
  {
    if po == [] then [] else Msgids(po[..|po| - 1]) + [po[|po| - 1].msgid]
  }

  /** The msgstrs of a catalog, in order. */
  function Msgstrs(po: seq<Entry>): (r: seq<string>)
    ensures |r| == |po| && forall i :: 0 <= i < |po| ==> r[i] == po[i].msgstr
  {
    if po == [] then [] else Msgstrs(po[..|po| - 1]) + [po[|po| - 1].msgstr]
  }

  /** Number of live entries. */
  function CountLive(po: seq<Entry>): (n: nat)
    ensures n <= |po|
  {
    if po == [] then 0 else CountLive(po[..|po| - 1]) + (if po[|po| - 1].obsolete then 0 else 1)
  }

  /** Number of live entries with a translation. */
  function CountTranslated(po: seq<Entry>): (n: nat)
    ensures n <= CountLive(po)
  {
    if po == [] then 0
    else CountTranslated(po[..|po| - 1]) + (if po[|po| - 1].obsolete || po[|po| - 1].msgstr == [] then 0 else 1)
  }

  /** A catalog holding a live entry has at least one message to count. */
  lemma {:induction false} LiveEntryCounts(po: seq<Entry>, i: int)
    requires 0 <= i < |po| && !po[i].obsolete
    ensures CountLive(po) >= 1
    decreases |po|
  {
    if i < |po| - 1 {
      LiveEntryCounts(po[..|po| - 1], i);
    }
  }

  datatype MessageStats = MessageStats(translated: nat, total: nat)

  /** `po_messages_stats(po)`: translated and total live messages. */
  function PoMessagesStats(po: seq<Entry>): (s: MessageStats)
    ensures s.translated <= s.total <= |po|
  {
    MessageStats(CountTranslated(po), CountLive(po))
  }

  /** Flags the plugin adds for translated site settings: `mdpo-site_name`, `mdpo-site_description`. */
  predicate IsSettingTag(flag: string)
  {
    StartsWith(flag, "mdpo-site_")
  }

  function WithoutSettingTags(flags: seq<string>): (r: seq<string>)
    ensures forall f :: f in r <==> f in flags && !IsSettingTag(f)
    ensures |r| <= |flags|
  {
    if flags == [] then []
    else WithoutSettingTags(flags[..|flags| - 1]) + (if IsSettingTag(flags[|flags| - 1]) then [] else [flags[|flags| - 1]])
  }

  /** `remove_mdpo_setting_tags_from_po_entry(entry)`: drops the setting flags, keeps the rest. */
  function RemoveSettingTags(e: Entry): (r: Entry)
    ensures r.msgid == e.msgid && r.msgctxt == e.msgctxt && r.msgstr == e.msgstr && r.obsolete == e.obsolete
    ensures forall f :: f in r.flags <==> f in e.flags && !IsSettingTag(f)
  {
    e.(flags := WithoutSettingTags(e.flags))
  }

  /** Where a catalog is persisted: a language's `_compendium.po`, or `<src_path>.po` of a page. */
  datatype PoPath = CompendiumFile(language: string) | PageFile(language: string, srcPath: string)
}
