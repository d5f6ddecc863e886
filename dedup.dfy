/** End-of-build passes of `on_post_build` (mkdocs_mdpo_plugin/plugin.py:761-838): repeated
    msgids promoted into the compendium, the compendium finalised, and page-catalog
    entries nobody translated marked obsolete. */
module Dedup {
  import opened Wrappers
  import opened Catalog

  // ---------------------------------------------------------------------------
  // Repeated msgids (plugin.py:771-779)
  // ---------------------------------------------------------------------------

  /** The `po_msgids` lists of a language's translations, one after the other. */
  function Flatten(lists: seq<seq<string>>): seq<string>
    decreases |lists|
  {
    if lists == [] then [] else Flatten(lists[..|lists| - 1]) + lists[|lists| - 1]
  }

  /** The two lists of the scan: msgids seen once so far, msgids seen again. */
  datatype Scan = Scan(seen: seq<string>, repeated: seq<string>)

  function ScanOne(s: Scan, msgid: string): Scan
  {
    if msgid in s.seen then
      if msgid in s.repeated then s else Scan(s.seen, s.repeated + [msgid])
    else Scan(s.seen + [msgid], s.repeated)
  }

  function ScanAll(xs: seq<string>): Scan
    decreases |xs|
  {
    if xs == [] then Scan([], []) else ScanOne(ScanAll(xs[..|xs| - 1]), xs[|xs| - 1])
  }

  lemma FlattenStep(lists: seq<seq<string>>, i: nat)
    requires i < |lists|
    ensures Flatten(lists[..i + 1]) == Flatten(lists[..i]) + lists[i]
  {
    assert lists[..i + 1][..i] == lists[..i];
  }

  lemma ScanAllSnoc(xs: seq<string>, x: string)
    ensures ScanAll(xs + [x]) == ScanOne(ScanAll(xs), x)
  {
    assert (xs + [x])[..|xs|] == xs;
  }

  /** The nested loops over every translation's `po_msgids`. */
  method RepeatedMsgids(lists: seq<seq<string>>) returns (repeated: seq<string>)
    ensures repeated == ScanAll(Flatten(lists)).repeated
  {
    var msgids: seq<string> := [];
    repeated := [];
    var i := 0;
    while i < |lists|
      invariant 0 <= i <= |lists|
      invariant Scan(msgids, repeated) == ScanAll(Flatten(lists[..i]))
    {
      FlattenStep(lists, i);
      msgids, repeated := ScanList(msgids, repeated, Flatten(lists[..i]), lists[i]);
      i := i + 1;
    }
    assert lists[..i] == lists;
  }

  /** The inner loop over one translation's `po_msgids`. */
  method ScanList(seen: seq<string>, repeated0: seq<string>, ghost before: seq<string>, msgids: seq<string>)
    returns (seen': seq<string>, repeated: seq<string>)
    requires Scan(seen, repeated0) == ScanAll(before)
    ensures Scan(seen', repeated) == ScanAll(before + msgids)
  {
    seen', repeated := seen, repeated0;
    assert before + msgids[..0] == before;
    var j := 0;
    while j < |msgids|
      invariant 0 <= j <= |msgids|
      invariant Scan(seen', repeated) == ScanAll(before + msgids[..j])
    {
      var msgid := msgids[j];
      assert before + msgids[..j + 1] == (before + msgids[..j]) + [msgid];
      ScanAllSnoc(before + msgids[..j], msgid);
      if msgid in seen' {
        if msgid !in repeated {
          repeated := repeated + [msgid];
        }
      } else {
        seen' := seen' + [msgid];
      }
      j := j + 1;
    }
    assert msgids[..j] == msgids;
  }

  predicate NoDuplicates(xs: seq<string>)
  {
    forall i, j :: 0 <= i < j < |xs| ==> xs[i] != xs[j]
  }

  /** A msgid is repeated iff it occurs at least twice; each is listed once. */
  lemma {:induction false} ScanSpec(xs: seq<string>)
    ensures forall x :: x in ScanAll(xs).seen <==> x in xs
    ensures forall x :: x in ScanAll(xs).repeated <==> multiset(xs)[x] >= 2
    ensures NoDuplicates(ScanAll(xs).repeated)
    decreases |xs|
  {
    if xs != [] {
      var init := xs[..|xs| - 1];
      var last := xs[|xs| - 1];
      ScanSpec(init);
      assert xs == init + [last];
      assert multiset(xs) == multiset(init) + multiset{last};
      var s := ScanAll(init);
      if last in s.seen && last !in s.repeated {
        var r := s.repeated + [last];
        forall i, j | 0 <= i < j < |r| ensures r[i] != r[j] {
          if j == |r| - 1 { assert r[i] in s.repeated; }
        }
      }
    }
  }

  // ---------------------------------------------------------------------------
  // Promotion of repeated msgids (plugin.py:780-809)
  // ---------------------------------------------------------------------------

  /** Some entry, obsolete or not, has this msgid. */
  predicate HasMsgid(po: seq<Entry>, msgid: string)
  {
    exists i :: 0 <= i < |po| && po[i].msgid == msgid
  }

  function FirstIndex(po: seq<Entry>, msgid: string): (i: nat)
    requires HasMsgid(po, msgid)
    ensures i < |po| && po[i].msgid == msgid
    ensures forall k :: 0 <= k < i ==> po[k].msgid != msgid
  {
    if po[0].msgid == msgid then 0
    else
      var i :| 0 <= i < |po| && po[i].msgid == msgid;
      assert po[1..][i - 1].msgid == msgid;
      1 + FirstIndex(po[1..], msgid)
  }

  /** `po.remove(first entry with msgid)`, or `po` when there is none. */
  function StripFirst(po: seq<Entry>, msgid: string): seq<Entry>
  {
    if HasMsgid(po, msgid) then
      var i := FirstIndex(po, msgid);
      po[..i] + po[i + 1..]
    else po
  }

  lemma {:induction false} MsgidsConcat(p: seq<Entry>, q: seq<Entry>)
    ensures Msgids(p + q) == Msgids(p) + Msgids(q)
  {
    assert |Msgids(p + q)| == |Msgids(p) + Msgids(q)|;
    forall k | 0 <= k < |p + q| ensures Msgids(p + q)[k] == (Msgids(p) + Msgids(q))[k] {
      if k < |p| {
        assert (p + q)[k] == p[k];
      } else {
        assert (p + q)[k] == q[k - |p|];
      }
    }
  }

  /** Stripping removes exactly one occurrence of the msgid, when there is one. */
  lemma StripFirstMsgids(po: seq<Entry>, msgid: string)
    ensures multiset(Msgids(StripFirst(po, msgid))) == multiset(Msgids(po)) - multiset{msgid}
  {
    if HasMsgid(po, msgid) {
      StripFirstRemovesOne(po, msgid);
    } else {
      assert msgid !in Msgids(po);
    }
  }

  lemma StripFirstRemovesOne(po: seq<Entry>, msgid: string)
    requires HasMsgid(po, msgid)
    ensures multiset(Msgids(StripFirst(po, msgid))) == multiset(Msgids(po)) - multiset{msgid}
  {
    var i := FirstIndex(po, msgid);
    StripFirstSplit(po, msgid);
    MultisetRemoveMiddle(Msgids(po[..i]), msgid, Msgids(po[i + 1..]));
  }

  lemma MultisetRemoveMiddle(a: seq<string>, x: string, b: seq<string>)
    ensures multiset(a + b) == multiset(a + [x] + b) - multiset{x}
  {
    assert multiset(a + [x] + b) == multiset(a) + multiset{x} + multiset(b);
  }

  /** The msgids around the first entry with the msgid, before and after stripping. */
  lemma StripFirstSplit(po: seq<Entry>, msgid: string)
    requires HasMsgid(po, msgid)
    ensures var i := FirstIndex(po, msgid);
      Msgids(po) == Msgids(po[..i]) + [msgid] + Msgids(po[i + 1..])
      && Msgids(StripFirst(po, msgid)) == Msgids(po[..i]) + Msgids(po[i + 1..])
  {
    var i := FirstIndex(po, msgid);
    var a, b := po[..i], po[i + 1..];
    assert po == a + [po[i]] + b;
    MsgidsConcat(a, [po[i]]);
    MsgidsConcat(a + [po[i]], b);
    MsgidsConcat(a, b);
  }

  /** `FirstIndex` is the index of the first entry with the msgid. */
  lemma FirstIndexIs(po: seq<Entry>, msgid: string, t: nat)
    requires t < |po| && po[t].msgid == msgid
    requires forall k :: 0 <= k < t ==> po[k].msgid != msgid
    ensures HasMsgid(po, msgid) && FirstIndex(po, msgid) == t
  {
  }

  /** Removing index `i` from `po`: where each remaining entry lands. */
  lemma RemoveAtIndex(po: seq<Entry>, i: nat, r: seq<Entry>)
    requires i < |po| && r == po[..i] + po[i + 1..]
    ensures |r| == |po| - 1
    ensures forall k :: 0 <= k < i ==> r[k] == po[k]
    ensures forall k :: i <= k < |r| ==> r[k] == po[k + 1]
  {
  }

  /** Stripping one msgid leaves other msgids, and their first entries, where they were. */
  lemma StripFirstOthers(po: seq<Entry>, msgid: string, other: string)
    requires other != msgid
    ensures HasMsgid(StripFirst(po, msgid), other) <==> HasMsgid(po, other)
    ensures HasMsgid(po, other) ==>
              StripFirst(po, msgid)[FirstIndex(StripFirst(po, msgid), other)] == po[FirstIndex(po, other)]
  {
    if HasMsgid(po, msgid) {
      var i := FirstIndex(po, msgid);
      var r := po[..i] + po[i + 1..];
      assert r == StripFirst(po, msgid);
      RemoveAtIndex(po, i, r);
      RemoveAtKeepsHas(po, i, r, other);
      if HasMsgid(po, other) {
        RemoveAtKeepsFirst(po, i, r, other);
      }
    }
  }

  lemma RemoveAtKeepsHas(po: seq<Entry>, i: nat, r: seq<Entry>, other: string)
    requires i < |po| && po[i].msgid != other
    requires |r| == |po| - 1
    requires forall k :: 0 <= k < i ==> r[k] == po[k]
    requires forall k :: i <= k < |r| ==> r[k] == po[k + 1]
    ensures HasMsgid(r, other) <==> HasMsgid(po, other)
  {
    if HasMsgid(r, other) {
      var k :| 0 <= k < |r| && r[k].msgid == other;
      if k < i { assert r[k] == po[k]; } else { assert r[k] == po[k + 1]; }
    }
    if HasMsgid(po, other) {
      var k :| 0 <= k < |po| && po[k].msgid == other;
      if k < i { assert r[k] == po[k]; } else { assert r[k - 1] == po[k]; }
    }
  }

  lemma RemoveAtKeepsFirst(po: seq<Entry>, i: nat, r: seq<Entry>, other: string)
    requires i < |po| && po[i].msgid != other && HasMsgid(po, other)
    requires |r| == |po| - 1
    requires forall k :: 0 <= k < i ==> r[k] == po[k]
    requires forall k :: i <= k < |r| ==> r[k] == po[k + 1]
    ensures HasMsgid(r, other) && r[FirstIndex(r, other)] == po[FirstIndex(po, other)]
  {
    var j := FirstIndex(po, other);
    var t := if j < i then j else j - 1;
    assert r[t] == po[j];
    forall k | 0 <= k < t ensures r[k].msgid != other {
      if k < i { assert r[k] == po[k]; } else { assert r[k] == po[k + 1]; }
    }
    FirstIndexIs(r, other, t);
  }

  /** The first translation (in build order) whose catalog has the msgid. */
  function FirstHolder(pos: seq<seq<Entry>>, msgid: string): (h: Option<nat>)
    ensures h.Some? ==> h.value < |pos| && HasMsgid(pos[h.value], msgid)
    decreases |pos|
  {
    if pos == [] then None
    else
      var h := FirstHolder(pos[..|pos| - 1], msgid);
      if h.Some? then h else if HasMsgid(pos[|pos| - 1], msgid) then Some(|pos| - 1) else None
  }

  /** No catalog holds the msgid iff there is no first holder. */
  lemma {:induction false} FirstHolderNone(pos: seq<seq<Entry>>, msgid: string)
    ensures FirstHolder(pos, msgid).None? <==> forall j :: 0 <= j < |pos| ==> !HasMsgid(pos[j], msgid)
    decreases |pos|
  {
    if pos != [] {
      var init := pos[..|pos| - 1];
      FirstHolderNone(init, msgid);
      assert forall j :: 0 <= j < |init| ==> init[j] == pos[j];
    }
  }

  /** Catalogs that hold the same msgids in the same places have the same first holder. */
  lemma {:induction false} FirstHolderSame(pos: seq<seq<Entry>>, pos2: seq<seq<Entry>>, msgid: string)
    requires |pos| == |pos2|
    requires forall j :: 0 <= j < |pos| ==> (HasMsgid(pos[j], msgid) <==> HasMsgid(pos2[j], msgid))
    ensures FirstHolder(pos, msgid) == FirstHolder(pos2, msgid)
    decreases |pos|
  {
    if pos != [] {
      var n := |pos| - 1;
      assert forall j :: 0 <= j < n ==> pos[..n][j] == pos[j] && pos2[..n][j] == pos2[j];
      FirstHolderSame(pos[..n], pos2[..n], msgid);
    }
  }

  /** The entry promoted for a msgid: the first one in the first catalog holding it. */
  function FirstEntry(pos: seq<seq<Entry>>, msgid: string): Entry
    requires FirstHolder(pos, msgid).Some?
  {
    var h := FirstHolder(pos, msgid).value;
    pos[h][FirstIndex(pos[h], msgid)]
  }

  function StripAll(pos: seq<seq<Entry>>, msgid: string): (r: seq<seq<Entry>>)
    ensures |r| == |pos| && forall j :: 0 <= j < |pos| ==> r[j] == StripFirst(pos[j], msgid)
  {
    seq(|pos|, j requires 0 <= j < |pos| => StripFirst(pos[j], msgid))
  }

  /** The compendium and the page catalogs of a language. */
  datatype Promotion = Promotion(compendium: seq<Entry>, pos: seq<seq<Entry>>)

  /** Promotion of one repeated msgid: the compendium gains the first occurrence unless it
      already has an entry with that msgid; every catalog loses its first entry with it. */
  function PromoteOne(p: Promotion, msgid: string): Promotion
  {
    var append := !HasMsgid(p.compendium, msgid) && FirstHolder(p.pos, msgid).Some?;
    Promotion(if append then p.compendium + [FirstEntry(p.pos, msgid)] else p.compendium,
              StripAll(p.pos, msgid))
  }

  function PromoteAll(p: Promotion, repeated: seq<string>): (r: Promotion)
    ensures |r.pos| == |p.pos|
    decreases |repeated|
  {
    if repeated == [] then p else PromoteOne(PromoteAll(p, repeated[..|repeated| - 1]), repeated[|repeated| - 1])
  }

  /** Index of the first entry with the msgid (the inner `for … break` loop). */
  method FindFirst(po: seq<Entry>, msgid: string) returns (found: Option<nat>)
    ensures found.None? <==> !HasMsgid(po, msgid)
    ensures found.Some? ==> found.value == FirstIndex(po, msgid)
  {
    var i := 0;
    while i < |po|
      invariant 0 <= i <= |po|
      invariant forall k :: 0 <= k < i ==> po[k].msgid != msgid
    {
      if po[i].msgid == msgid {
        FirstIndexIs(po, msgid, i);
        return Some(i);
      }
      i := i + 1;
    }
    return None;
  }

  /** `_repeated_msgid_in_compendium`: whether any compendium entry, obsolete or not, has the msgid. */
  method InCompendium(compendium: seq<Entry>, msgid: string) returns (found: bool)
    ensures found <==> HasMsgid(compendium, msgid)
  {
    found := false;
    var c := 0;
    while c < |compendium|
      invariant 0 <= c <= |compendium|
      invariant forall k :: 0 <= k < c ==> compendium[k].msgid != msgid
    {
      if compendium[c].msgid == msgid {
        return true;
      }
      c := c + 1;
    }
  }

  /** Extending the scanned prefix of catalogs by one. */
  lemma FirstHolderStep(pos: seq<seq<Entry>>, i: nat, msgid: string)
    requires i < |pos|
    ensures var h := FirstHolder(pos[..i], msgid);
      FirstHolder(pos[..i + 1], msgid) == (if h.Some? then h else if HasMsgid(pos[i], msgid) then Some(i) else None)
    ensures FirstHolder(pos[..i], msgid).Some? ==> FirstEntry(pos[..i + 1], msgid) == FirstEntry(pos[..i], msgid)
    ensures FirstHolder(pos[..i], msgid).None? && HasMsgid(pos[i], msgid) ==>
              FirstEntry(pos[..i + 1], msgid) == pos[i][FirstIndex(pos[i], msgid)]
  {
    assert pos[..i + 1][..i] == pos[..i];
    var h := FirstHolder(pos[..i], msgid);
    if h.Some? {
      assert pos[..i + 1][h.value] == pos[..i][h.value];
    }
  }

  /** The compendium after the first `i` catalogs were scanned for the msgid. */
  ghost function Promoted(compendium: seq<Entry>, pos: seq<seq<Entry>>, msgid: string): seq<Entry>
  {
    if !HasMsgid(compendium, msgid) && FirstHolder(pos, msgid).Some? then compendium + [FirstEntry(pos, msgid)]
    else compendium
  }

  lemma PromotedStep(compendium: seq<Entry>, pos: seq<seq<Entry>>, i: nat, msgid: string)
    requires i < |pos|
    ensures Promoted(compendium, pos[..i + 1], msgid)
            == if !HasMsgid(compendium, msgid) && FirstHolder(pos[..i], msgid).None? && HasMsgid(pos[i], msgid)
               then compendium + [pos[i][FirstIndex(pos[i], msgid)]]
               else Promoted(compendium, pos[..i], msgid)
  {
    FirstHolderStep(pos, i, msgid);
  }

  lemma StripAllStep(pos: seq<seq<Entry>>, i: nat, msgid: string)
    requires i < |pos|
    ensures StripAll(pos[..i + 1], msgid) == StripAll(pos[..i], msgid) + [StripFirst(pos[i], msgid)]
  {
  }

  /** Lines 781-809 for one repeated msgid. */
  method PromoteMsgid(compendium: seq<Entry>, pos: seq<seq<Entry>>, msgid: string) returns (p: Promotion)
    ensures p == PromoteOne(Promotion(compendium, pos), msgid)
  {
    var inCompendium := InCompendium(compendium, msgid);
    var appended := false;
    var comp := compendium;
    var out: seq<seq<Entry>> := [];
    var i := 0;
    while i < |pos|
      invariant 0 <= i <= |pos|
      invariant out == StripAll(pos[..i], msgid)
      invariant appended == (!inCompendium && FirstHolder(pos[..i], msgid).Some?)
      invariant comp == Promoted(compendium, pos[..i], msgid)
    {
      FirstHolderStep(pos, i, msgid);
      PromotedStep(compendium, pos, i, msgid);
      StripAllStep(pos, i, msgid);
      var found, po := TakeFirst(pos[i], msgid);
      if found.Some? && !appended && !inCompendium {
        comp := comp + [found.value];
        appended := true;
      }
      out := out + [po];
      i := i + 1;
    }
    assert pos[..i] == pos;
    p := Promotion(comp, out);
  }

  lemma StripFirstIs(po: seq<Entry>, msgid: string, index: Option<nat>)
    requires index.None? <==> !HasMsgid(po, msgid)
    requires index.Some? ==> index.value == FirstIndex(po, msgid)
    ensures index.Some? ==> index.value < |po| && StripFirst(po, msgid) == po[..index.value] + po[index.value + 1..]
    ensures index.None? ==> StripFirst(po, msgid) == po
  {
  }

  /** The scan for the first entry with the msgid, and the removal of that entry. */
  method TakeFirst(po: seq<Entry>, msgid: string) returns (found: Option<Entry>, rest: seq<Entry>)
    ensures found.None? <==> !HasMsgid(po, msgid)
    ensures found.Some? ==> found.value == po[FirstIndex(po, msgid)]
    ensures rest == StripFirst(po, msgid)
  {
    var index := FindFirst(po, msgid);
    StripFirstIs(po, msgid, index);
    if index.Some? {
      found := Some(po[index.value]);
      rest := po[..index.value] + po[index.value + 1..];
    } else {
      found := None;
      rest := po;
    }
  }

  /** The promotion loop of plugin.py:780-809. */
  method PromoteRepeated(compendium: seq<Entry>, pos: seq<seq<Entry>>, repeated: seq<string>) returns (p: Promotion)
    ensures p == PromoteAll(Promotion(compendium, pos), repeated)
  {
    p := Promotion(compendium, pos);
    var r := 0;
    while r < |repeated|
      invariant 0 <= r <= |repeated|
      invariant p == PromoteAll(Promotion(compendium, pos), repeated[..r])
    {
      assert repeated[..r + 1][..r] == repeated[..r];
      p := PromoteMsgid(p.compendium, p.pos, repeated[r]);
      r := r + 1;
    }
    assert repeated[..r] == repeated;
  }

  /** Stripping one msgid from every catalog changes neither which catalog holds
      another msgid first nor which entry comes first for it. */
  lemma StripAllOthers(pos: seq<seq<Entry>>, msgid: string, other: string)
    requires other != msgid
    ensures FirstHolder(StripAll(pos, msgid), other) == FirstHolder(pos, other)
    ensures FirstHolder(pos, other).Some? ==> FirstEntry(StripAll(pos, msgid), other) == FirstEntry(pos, other)
  {
    var q := StripAll(pos, msgid);
    forall j | 0 <= j < |pos| ensures HasMsgid(q[j], other) <==> HasMsgid(pos[j], other) {
      StripFirstOthers(pos[j], msgid, other);
    }
    FirstHolderSame(pos, q, other);
    var h := FirstHolder(pos, other);
    if h.Some? {
      StripFirstOthers(pos[h.value], msgid, other);
    }
  }

  /** The compendium only grows, so an entry with a msgid stays there. */
  lemma PromoteOneKeepsCompendium(p: Promotion, msgid: string, other: string)
    ensures |p.compendium| <= |PromoteOne(p, msgid).compendium|
    ensures PromoteOne(p, msgid).compendium[..|p.compendium|] == p.compendium
    ensures other != msgid ==> (HasMsgid(PromoteOne(p, msgid).compendium, other) <==> HasMsgid(p.compendium, other))
    ensures HasMsgid(p.compendium, other) ==> HasMsgid(PromoteOne(p, msgid).compendium, other)
  {
    var c := PromoteOne(p, msgid).compendium;
    if HasMsgid(p.compendium, other) {
      var k :| 0 <= k < |p.compendium| && p.compendium[k].msgid == other;
      assert c[k] == p.compendium[k];
    }
    if other != msgid && HasMsgid(c, other) && c != p.compendium {
      var k :| 0 <= k < |c| && c[k].msgid == other;
      assert k < |p.compendium|;
      assert p.compendium[k] == c[k];
    }
  }

  /** For a msgid not yet promoted, the intermediate state agrees with the original one. */
  lemma {:induction false} PromoteAllKeepsMsgid(p: Promotion, done: seq<string>, m: string)
    requires m !in done
    ensures FirstHolder(PromoteAll(p, done).pos, m) == FirstHolder(p.pos, m)
    ensures FirstHolder(p.pos, m).Some? ==> FirstEntry(PromoteAll(p, done).pos, m) == FirstEntry(p.pos, m)
    ensures HasMsgid(PromoteAll(p, done).compendium, m) <==> HasMsgid(p.compendium, m)
    decreases |done|
  {
    if done != [] {
      var init := done[..|done| - 1];
      var mid := PromoteAll(p, init);
      PromoteAllKeepsMsgid(p, init, m);
      StripAllOthers(mid.pos, done[|done| - 1], m);
      PromoteOneKeepsCompendium(mid, done[|done| - 1], m);
    }
  }

  /** The compendium is only appended to; each appended entry is the first occurrence, in
      the first catalog holding it, of a repeated msgid the compendium lacked. */
  lemma {:induction false} PromoteAllAppends(p: Promotion, repeated: seq<string>)
    requires NoDuplicates(repeated)
    ensures var q := PromoteAll(p, repeated);
      && |p.compendium| <= |q.compendium| && q.compendium[..|p.compendium|] == p.compendium
      && (forall k :: |p.compendium| <= k < |q.compendium| ==>
            q.compendium[k].msgid in repeated && !HasMsgid(p.compendium, q.compendium[k].msgid)
            && FirstHolder(p.pos, q.compendium[k].msgid).Some?
            && q.compendium[k] == FirstEntry(p.pos, q.compendium[k].msgid))
    decreases |repeated|
  {
    if repeated != [] {
      var init := repeated[..|repeated| - 1];
      var m := repeated[|repeated| - 1];
      assert NoDuplicates(init);
      PromoteAllAppends(p, init);
      var mid := PromoteAll(p, init);
      PromoteOneKeepsCompendium(mid, m, m);
      var q := PromoteOne(mid, m);
      assert q == PromoteAll(p, repeated);
      assert q.compendium[..|p.compendium|] == p.compendium by {
        assert q.compendium[..|mid.compendium|] == mid.compendium;
      }
      forall k | |p.compendium| <= k < |q.compendium|
        ensures q.compendium[k].msgid in repeated && !HasMsgid(p.compendium, q.compendium[k].msgid)
          && FirstHolder(p.pos, q.compendium[k].msgid).Some?
          && q.compendium[k] == FirstEntry(p.pos, q.compendium[k].msgid)
      {
        if k < |mid.compendium| {
          assert q.compendium[k] == mid.compendium[k];
          assert mid.compendium[k].msgid in init;
        } else {
          assert m !in init;
          PromoteAllKeepsMsgid(p, init, m);
          assert q.compendium[k] == FirstEntry(mid.pos, m);
        }
      }
    }
  }

  /** No msgid is appended twice. */
  lemma {:induction false} PromoteAllDistinct(p: Promotion, repeated: seq<string>)
    requires NoDuplicates(repeated)
    ensures var q := PromoteAll(p, repeated);
      forall k, l :: |p.compendium| <= k < l < |q.compendium| ==> q.compendium[k].msgid != q.compendium[l].msgid
    decreases |repeated|
  {
    if repeated != [] {
      var init := repeated[..|repeated| - 1];
      var m := repeated[|repeated| - 1];
      assert NoDuplicates(init);
      assert m !in init;
      PromoteAllDistinct(p, init);
      PromoteAllAppends(p, init);
      var mid := PromoteAll(p, init);
      PromoteOneKeepsCompendium(mid, m, m);
      var q := PromoteOne(mid, m);
      if q.compendium != mid.compendium {
        assert q.compendium[|mid.compendium|].msgid == m;
        forall k | |p.compendium| <= k < |mid.compendium| ensures q.compendium[k].msgid != m {
          assert q.compendium[k] == mid.compendium[k];
          assert mid.compendium[k].msgid in init;
        }
      }
    }
  }

  /** Every repeated msgid that some catalog held ends up in the compendium. */
  lemma {:induction false} PromoteAllCovers(p: Promotion, repeated: seq<string>)
    requires NoDuplicates(repeated)
    ensures forall m :: m in repeated && FirstHolder(p.pos, m).Some? ==> HasMsgid(PromoteAll(p, repeated).compendium, m)
    decreases |repeated|
  {
    if repeated != [] {
      var init := repeated[..|repeated| - 1];
      var m := repeated[|repeated| - 1];
      assert NoDuplicates(init);
      assert m !in init;
      PromoteAllCovers(p, init);
      var mid := PromoteAll(p, init);
      var q := PromoteOne(mid, m);
      forall x | x in repeated && FirstHolder(p.pos, x).Some? ensures HasMsgid(q.compendium, x) {
        PromoteOneKeepsCompendium(mid, m, x);
        if x == m && !HasMsgid(mid.compendium, m) {
          PromoteAllKeepsMsgid(p, init, m);
          assert q.compendium[|mid.compendium|].msgid == m;
        }
      }
    }
  }

  /** Each catalog loses exactly one entry per repeated msgid it held, and nothing else. */
  lemma {:induction false} PromoteAllStrips(p: Promotion, repeated: seq<string>)
    ensures |PromoteAll(p, repeated).pos| == |p.pos|
    ensures forall j :: 0 <= j < |p.pos| ==>
              multiset(Msgids(PromoteAll(p, repeated).pos[j])) == multiset(Msgids(p.pos[j])) - multiset(repeated)
    decreases |repeated|
  {
    if repeated != [] {
      var init := repeated[..|repeated| - 1];
      var m := repeated[|repeated| - 1];
      PromoteAllStrips(p, init);
      var mid := PromoteAll(p, init);
      assert repeated == init + [m];
      forall j | 0 <= j < |p.pos|
        ensures multiset(Msgids(PromoteAll(p, repeated).pos[j])) == multiset(Msgids(p.pos[j])) - multiset(repeated)
      {
        StripFirstMsgids(mid.pos[j], m);
      }
    }
  }

  // ---------------------------------------------------------------------------
  // Finalising the compendium (plugin.py:811-826)
  // ---------------------------------------------------------------------------

  predicate HasSiteFlag(flags: seq<string>)
  {
    "mdpo-site_description" in flags || "mdpo-site_name" in flags
  }

  /** A repeated msgid loses its setting tags; a site-setting entry loses its tags; any
      other entry becomes obsolete. */
  function FinalizeEntry(e: Entry, repeated: seq<string>): (r: Entry)
    ensures r.msgid == e.msgid && r.msgctxt == e.msgctxt && r.msgstr == e.msgstr
    ensures r.obsolete <==> e.obsolete || (e.msgid !in repeated && !HasSiteFlag(e.flags))
    ensures r.obsolete || forall f :: f in r.flags ==> !IsSettingTag(f)
  {
    if e.msgid !in repeated then
      if HasSiteFlag(e.flags) then RemoveSettingTags(e) else e.(obsolete := true)
    else RemoveSettingTags(e)
  }

  method FinalizeCompendium(compendium: seq<Entry>, repeated: seq<string>) returns (r: seq<Entry>)
    ensures |r| == |compendium|
    ensures forall k :: 0 <= k < |r| ==> r[k] == FinalizeEntry(compendium[k], repeated)
  {
    r := [];
    var k := 0;
    while k < |compendium|
      invariant 0 <= k <= |compendium|
      invariant |r| == k && forall i :: 0 <= i < k ==> r[i] == FinalizeEntry(compendium[i], repeated)
    {
      var e := compendium[k];
      if e.msgid !in repeated {
        if "mdpo-site_description" in e.flags || "mdpo-site_name" in e.flags {
          e := RemoveSettingTags(e);
        } else {
          e := e.(obsolete := true);
        }
      } else {
        e := RemoveSettingTags(e);
      }
      r := r + [e];
      k := k + 1;
    }
  }

  // ---------------------------------------------------------------------------
  // Obsolete marking (plugin.py:833-838)
  // ---------------------------------------------------------------------------

  method MarkUnconsumed(po: seq<Entry>, translatedMsgids: seq<string>) returns (r: seq<Entry>)
    ensures |r| == |po|
    ensures forall k :: 0 <= k < |po| ==>
              r[k] == if po[k].msgid in translatedMsgids then po[k] else po[k].(obsolete := true)
  {
    r := [];
    var k := 0;
    while k < |po|
      invariant 0 <= k <= |po|
      invariant |r| == k
      invariant forall i :: 0 <= i < k ==>
                  r[i] == if po[i].msgid in translatedMsgids then po[i] else po[i].(obsolete := true)
    {
      var e := po[k];
      if e.msgid !in translatedMsgids {
        e := e.(obsolete := true);
      }
      r := r + [e];
      k := k + 1;
    }
  }

  // ---------------------------------------------------------------------------
  // The whole pass for one language (plugin.py:770-838)
  // ---------------------------------------------------------------------------

  /** What the pass reads of one translation of a page: its catalog, where it is saved
      (`None` for an excluded page), the msgids it held and the msgids consumed while the
      page was rendered. */
  datatype PageCatalog = PageCatalog(po: seq<Entry>, poPath: Option<PoPath>, poMsgids: seq<string>,
                                     translatedMsgids: seq<string>)

  function MsgidLists(pages: seq<PageCatalog>): (r: seq<seq<string>>)
    ensures |r| == |pages| && forall j :: 0 <= j < |pages| ==> r[j] == pages[j].poMsgids
  {
    seq(|pages|, j requires 0 <= j < |pages| => pages[j].poMsgids)
  }

  function Catalogs(pages: seq<PageCatalog>): (r: seq<seq<Entry>>)
    ensures |r| == |pages| && forall j :: 0 <= j < |pages| ==> r[j] == pages[j].po
  {
    seq(|pages|, j requires 0 <= j < |pages| => pages[j].po)
  }

  function Paths(pages: seq<PageCatalog>): (r: seq<Option<PoPath>>)
    ensures |r| == |pages| && forall j :: 0 <= j < |pages| ==> r[j] == pages[j].poPath
  {
    seq(|pages|, j requires 0 <= j < |pages| => pages[j].poPath)
  }

  /** The compendium after the finalising loop. */
  function Finalized(compendium: seq<Entry>, repeated: seq<string>): seq<Entry>
  {
    seq(|compendium|, k requires 0 <= k < |compendium| => FinalizeEntry(compendium[k], repeated))
  }

  /** A page catalog after the obsolete marking. */
  function Unconsumed(po: seq<Entry>, translatedMsgids: seq<string>): seq<Entry>
  {
    seq(|po|, k requires 0 <= k < |po| => if po[k].msgid in translatedMsgids then po[k] else po[k].(obsolete := true))
  }

  /** The repeated msgids, the compendium and the page catalogs at the end of the pass. */
  datatype Finished = Finished(repeated: seq<string>, compendium: seq<Entry>, pos: seq<seq<Entry>>)

  /** The pass for one language: repeated msgids promoted, the compendium finalised, and the
      catalogs of pages that are saved (excluded pages are not) marked. */
  function Finish(compendium0: seq<Entry>, pages: seq<PageCatalog>): Finished
  {
    var repeated := ScanAll(Flatten(MsgidLists(pages))).repeated;
    var p := PromoteAll(Promotion(compendium0, Catalogs(pages)), repeated);
    Finished(repeated, Finalized(p.compendium, repeated), Marked(p.pos, pages))
  }

  /** The stripped catalogs after the obsolete marking, which skips excluded pages. */
  function Marked(stripped: seq<seq<Entry>>, pages: seq<PageCatalog>): (r: seq<seq<Entry>>)
    requires |stripped| == |pages|
    ensures |r| == |pages|
  {
    seq(|pages|, j requires 0 <= j < |pages| =>
          if pages[j].poPath.Some? then Unconsumed(stripped[j], pages[j].translatedMsgids) else stripped[j])
  }

  lemma FinalizedKeepsMsgid(compendium: seq<Entry>, repeated: seq<string>, m: string)
    ensures HasMsgid(Finalized(compendium, repeated), m) <==> HasMsgid(compendium, m)
  {
    var r := Finalized(compendium, repeated);
    if HasMsgid(compendium, m) {
      var i :| 0 <= i < |compendium| && compendium[i].msgid == m;
      assert r[i].msgid == m;
    }
    if HasMsgid(r, m) {
      var i :| 0 <= i < |r| && r[i].msgid == m;
      assert compendium[i].msgid == m;
    }
  }

  /** A msgid is repeated iff the language's pages held it at least twice in all; each
      repeated msgid that some page catalog had ends up in the compendium. */
  lemma FinishPromotes(compendium0: seq<Entry>, pages: seq<PageCatalog>)
    ensures var f := Finish(compendium0, pages);
      && NoDuplicates(f.repeated)
      && (forall m :: m in f.repeated <==> multiset(Flatten(MsgidLists(pages)))[m] >= 2)
      && (forall m, j :: m in f.repeated && 0 <= j < |pages| && HasMsgid(pages[j].po, m) ==> HasMsgid(f.compendium, m))
  {
    var f := Finish(compendium0, pages);
    ScanSpec(Flatten(MsgidLists(pages)));
    var p0 := Promotion(compendium0, Catalogs(pages));
    PromoteAllCovers(p0, f.repeated);
    var p := PromoteAll(p0, f.repeated);
    forall m, j | m in f.repeated && 0 <= j < |pages| && HasMsgid(pages[j].po, m)
      ensures HasMsgid(f.compendium, m)
    {
      FirstHolderNone(p0.pos, m);
      FinalizedKeepsMsgid(p.compendium, f.repeated, m);
    }
  }

  /** The compendium keeps its entries, finalised, in front of the promoted ones, and a
      live entry of it carries no setting tag. */
  lemma FinishCompendium(compendium0: seq<Entry>, pages: seq<PageCatalog>)
    ensures var f := Finish(compendium0, pages);
      && |compendium0| <= |f.compendium|
      && (forall k :: 0 <= k < |compendium0| ==> f.compendium[k] == FinalizeEntry(compendium0[k], f.repeated))
      && (forall k :: |compendium0| <= k < |f.compendium| ==> f.compendium[k].msgid in f.repeated)
      && (forall k, fl :: 0 <= k < |f.compendium| && !f.compendium[k].obsolete && fl in f.compendium[k].flags
                          ==> !IsSettingTag(fl))
  {
    var f := Finish(compendium0, pages);
    ScanSpec(Flatten(MsgidLists(pages)));
    var p0 := Promotion(compendium0, Catalogs(pages));
    PromoteAllAppends(p0, f.repeated);
    var p := PromoteAll(p0, f.repeated);
    forall k | 0 <= k < |compendium0| ensures f.compendium[k] == FinalizeEntry(compendium0[k], f.repeated) {
      assert p.compendium[k] == compendium0[k];
    }
  }

  lemma UnconsumedKeepsMsgids(po: seq<Entry>, translatedMsgids: seq<string>)
    ensures Msgids(Unconsumed(po, translatedMsgids)) == Msgids(po)
  {
    var r := Unconsumed(po, translatedMsgids);
    assert forall k :: 0 <= k < |po| ==> Msgids(r)[k] == Msgids(po)[k];
  }

  /** Each page catalog loses exactly one entry per repeated msgid it held, and nothing else. */
  lemma FinishStripsPages(compendium0: seq<Entry>, pages: seq<PageCatalog>)
    ensures var f := Finish(compendium0, pages);
      && |f.pos| == |pages|
      && forall j :: 0 <= j < |pages| ==>
           multiset(Msgids(f.pos[j])) == multiset(Msgids(pages[j].po)) - multiset(f.repeated)
  {
    var f := Finish(compendium0, pages);
    var p0 := Promotion(compendium0, Catalogs(pages));
    PromoteAllStrips(p0, f.repeated);
    var p := PromoteAll(p0, f.repeated);
    forall j | 0 <= j < |pages|
      ensures multiset(Msgids(f.pos[j])) == multiset(Msgids(pages[j].po)) - multiset(f.repeated)
    {
      if pages[j].poPath.Some? {
        UnconsumedKeepsMsgids(p.pos[j], pages[j].translatedMsgids);
      }
    }
  }

  /** In a saved page catalog every entry left live was consumed while the page was
      rendered; an excluded page's catalog is only stripped. */
  lemma FinishMarksPages(compendium0: seq<Entry>, pages: seq<PageCatalog>, j: int)
    requires 0 <= j < |pages|
    ensures var f := Finish(compendium0, pages);
      var stripped := PromoteAll(Promotion(compendium0, Catalogs(pages)), f.repeated).pos[j];
      && (pages[j].poPath.Some? ==>
            |f.pos[j]| == |stripped|
            && forall k :: 0 <= k < |f.pos[j]| ==>
                 f.pos[j][k].msgid == stripped[k].msgid
                 && (!f.pos[j][k].obsolete <==> !stripped[k].obsolete && stripped[k].msgid in pages[j].translatedMsgids))
      && (pages[j].poPath.None? ==> f.pos[j] == stripped)
  {
    var f := Finish(compendium0, pages);
    var p := PromoteAll(Promotion(compendium0, Catalogs(pages)), f.repeated);
    assert f.pos[j] == if pages[j].poPath.Some? then Unconsumed(p.pos[j], pages[j].translatedMsgids) else p.pos[j];
  }

  /** The pass for one language as the loops of plugin.py:770-838 compute it. */
  method FinishPages(compendium0: seq<Entry>, pages: seq<PageCatalog>) returns (f: Finished)
    ensures f == Finish(compendium0, pages)
  {
    var repeated := RepeatedMsgids(MsgidLists(pages));
    var p := PromoteRepeated(compendium0, Catalogs(pages), repeated);
    var compendium := FinalizeCompendium(p.compendium, repeated);
    assert compendium == Finalized(p.compendium, repeated);
    var pos := MarkPages(p.pos, pages);
    f := Finished(repeated, compendium, pos);
  }

  /** The obsolete-marking loop of plugin.py:831-838 over a language's catalogs. */
  method MarkPages(stripped: seq<seq<Entry>>, pages: seq<PageCatalog>) returns (pos: seq<seq<Entry>>)
    requires |stripped| == |pages|
    ensures pos == Marked(stripped, pages)
  {
    pos := [];
    var j := 0;
    while j < |pages|
      invariant 0 <= j <= |pages| && |pos| == j
      invariant forall k :: 0 <= k < j ==> pos[k] == Marked(stripped, pages)[k]
    {
      var po := stripped[j];
      if pages[j].poPath.Some? {
        po := MarkUnconsumed(po, pages[j].translatedMsgids);
        assert po == Unconsumed(stripped[j], pages[j].translatedMsgids);
      }
      pos := pos + [po];
      j := j + 1;
    }
  }

  // ---------------------------------------------------------------------------
  // Saving during promotion, as written (plugin.py:797-809)
  // ---------------------------------------------------------------------------

  /** The promotion loop as written: each catalog that loses an entry is saved at once to
      its own path. An excluded page's catalog is a
      plain list without a path and has no `save`, so the build stops (`None`). */
  function PromoteAllAsWritten(p: Promotion, paths: seq<Option<PoPath>>, repeated: seq<string>): Option<Promotion>
    decreases |repeated|
  {
    if repeated == [] then Some(p)
    else
      match PromoteAllAsWritten(p, paths, repeated[..|repeated| - 1])
      case None => None
      case Some(q) =>
        var m := repeated[|repeated| - 1];
        if exists j :: 0 <= j < |q.pos| && j < |paths| && paths[j].None? && HasMsgid(q.pos[j], m) then None
        else Some(PromoteOne(q, m))
  }

  /** An excluded page and a translated page sharing the paragraph "Hello": the msgid is
      repeated, the excluded page's catalog holds it, and the pass as written stops. */
  lemma ExcludedPageStopsPromotion()
    ensures var pages := [PageCatalog([NewEntry("Hello")], None, ["Hello"], []),
                          PageCatalog([NewEntry("Hello")], Some(PageFile("es", "index.md")), ["Hello"], ["Hello"])];
      var repeated := ScanAll(Flatten(MsgidLists(pages))).repeated;
      && repeated == ["Hello"]
      && PromoteAllAsWritten(Promotion([], Catalogs(pages)), Paths(pages), repeated).None?
  {
    var pages := [PageCatalog([NewEntry("Hello")], None, ["Hello"], []),
                  PageCatalog([NewEntry("Hello")], Some(PageFile("es", "index.md")), ["Hello"], ["Hello"])];
    var lists := MsgidLists(pages);
    assert lists == [["Hello"], ["Hello"]];
    assert lists[..1] == [["Hello"]];
    assert [["Hello"]][..0] == [];
    assert Flatten(lists) == ["Hello", "Hello"];
    assert ["Hello", "Hello"][..1] == ["Hello"];
    assert ["Hello"][..0] == [];
    var repeated := ScanAll(Flatten(lists)).repeated;
    assert repeated == ["Hello"];
    var p := Promotion([], Catalogs(pages));
    assert repeated[..0] == [];
    assert HasMsgid(p.pos[0], "Hello") by { assert p.pos[0][0].msgid == "Hello"; }
  }

  lemma HasMsgidCount(po: seq<Entry>, m: string)
    ensures HasMsgid(po, m) <==> m in multiset(Msgids(po))
  {
    if HasMsgid(po, m) {
      var i :| 0 <= i < |po| && po[i].msgid == m;
      assert Msgids(po)[i] == m;
    }
    if m in multiset(Msgids(po)) {
      var i :| 0 <= i < |Msgids(po)| && Msgids(po)[i] == m;
      assert po[i].msgid == m;
    }
  }

  /** Promoting other msgids neither brings a msgid into a catalog nor takes it out. */
  lemma HeldUntilPromoted(p: Promotion, done: seq<string>, j: int, m: string)
    requires 0 <= j < |p.pos| && m !in done
    ensures HasMsgid(PromoteAll(p, done).pos[j], m) <==> HasMsgid(p.pos[j], m)
  {
    PromoteAllStrips(p, done);
    HasMsgidCount(PromoteAll(p, done).pos[j], m);
    HasMsgidCount(p.pos[j], m);
  }

  /** The stop is the only difference: when no excluded page's catalog holds a repeated
      msgid, the pass as written promotes exactly like the pass that skips saving
      catalogs without a path. */
  lemma {:induction false} AsWrittenAgreesWithoutExcludedHolders(p: Promotion, paths: seq<Option<PoPath>>, repeated: seq<string>)
    requires NoDuplicates(repeated)
    requires forall j, m :: 0 <= j < |p.pos| && j < |paths| && paths[j].None? && m in repeated ==> !HasMsgid(p.pos[j], m)
    ensures PromoteAllAsWritten(p, paths, repeated) == Some(PromoteAll(p, repeated))
    decreases |repeated|
  {
    if repeated != [] {
      var init := repeated[..|repeated| - 1];
      var m := repeated[|repeated| - 1];
      assert NoDuplicates(init);
      assert m !in init;
      forall j, x | 0 <= j < |p.pos| && j < |paths| && paths[j].None? && x in init ensures !HasMsgid(p.pos[j], x) {
        assert x in repeated;
      }
      AsWrittenAgreesWithoutExcludedHolders(p, paths, init);
      var q := PromoteAll(p, init);
      forall j | 0 <= j < |q.pos| && j < |paths| && paths[j].None? ensures !HasMsgid(q.pos[j], m) {
        assert m in repeated;
        HeldUntilPromoted(p, init, j, m);
      }
      assert PromoteAll(p, repeated) == PromoteOne(q, m);
    }
  }

  /** Some catalog without a path holds one of the msgids. */
  predicate PathlessHolder(p: Promotion, paths: seq<Option<PoPath>>, msgids: seq<string>)
  {
    exists j, m :: 0 <= j < |p.pos| && j < |paths| && paths[j].None? && m in msgids && HasMsgid(p.pos[j], m)
  }

  /** The promotion as written stops exactly when a catalog without a path holds one of
      the repeated msgids at the start, and when it does not stop it promotes like
      `PromoteAll`. */
  lemma {:induction false} PromotionStopsIff(p: Promotion, paths: seq<Option<PoPath>>, repeated: seq<string>)
    requires NoDuplicates(repeated)
    ensures PromoteAllAsWritten(p, paths, repeated).None? <==> PathlessHolder(p, paths, repeated)
    ensures PromoteAllAsWritten(p, paths, repeated).Some? ==> PromoteAllAsWritten(p, paths, repeated) == Some(PromoteAll(p, repeated))
    decreases |repeated|
  {
    if !PathlessHolder(p, paths, repeated) {
      AsWrittenAgreesWithoutExcludedHolders(p, paths, repeated);
    } else {
      var init := repeated[..|repeated| - 1];
      var m := repeated[|repeated| - 1];
      assert NoDuplicates(init);
      if !PathlessHolder(p, paths, init) {
        var j, x :| 0 <= j < |p.pos| && j < |paths| && paths[j].None? && x in repeated && HasMsgid(p.pos[j], x);
        assert x == m by {
          assert repeated == init + [m];
        }
        assert m !in init;
        AsWrittenAgreesWithoutExcludedHolders(p, paths, init);
        HeldUntilPromoted(p, init, j, m);
      } else {
        PromotionStopsIff(p, paths, init);
      }
    }
  }

  /** The pass as written reaches its end: no catalog of an excluded page holds a repeated
      msgid, so the save at plugin.py:809 is never called on one. */
  predicate PassCompletes(pages: seq<PageCatalog>)
  {
    var repeated := ScanAll(Flatten(MsgidLists(pages))).repeated;
    forall j, m :: 0 <= j < |pages| && pages[j].poPath.None? && m in repeated ==> !HasMsgid(pages[j].po, m)
  }

  /** Run over a language's pages, the promotion as written stops iff the pass does not
      complete, and otherwise it is the promotion `Finish` makes. */
  lemma FinishAsWritten(compendium0: seq<Entry>, pages: seq<PageCatalog>)
    ensures var repeated := ScanAll(Flatten(MsgidLists(pages))).repeated;
      var p := Promotion(compendium0, Catalogs(pages));
      && (PromoteAllAsWritten(p, Paths(pages), repeated).Some? <==> PassCompletes(pages))
      && (PassCompletes(pages) ==> PromoteAllAsWritten(p, Paths(pages), repeated) == Some(PromoteAll(p, repeated)))
  {
    var repeated := ScanAll(Flatten(MsgidLists(pages))).repeated;
    var p := Promotion(compendium0, Catalogs(pages));
    ScanSpec(Flatten(MsgidLists(pages)));
    PromotionStopsIff(p, Paths(pages), repeated);
    if PathlessHolder(p, Paths(pages), repeated) {
      var j, m :| 0 <= j < |p.pos| && j < |Paths(pages)| && Paths(pages)[j].None? && m in repeated && HasMsgid(p.pos[j], m);
      assert pages[j].poPath.None? && HasMsgid(pages[j].po, m);
    }
  }
}
