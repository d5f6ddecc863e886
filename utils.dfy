/** mkdocs_mdpo_plugin/utils.py: suffix removal. */
module Utils {
  import opened Strings

  /** `removesuffix(s, suf)`: drops `suf` from the end of `s` when it is there. */
  function RemoveSuffix(s: string, suf: string): (r: string)
    ensures suf != [] && EndsWith(s, suf) ==> r + suf == s
    ensures !EndsWith(s, suf) ==> r == s
    ensures suf == [] ==> r == s
    ensures |r| <= |s| && r == s[..|r|]
  {
    if suf != [] && EndsWith(s, suf) then s[..|s| - |suf|] else s
  }

  /** Appending a suffix and removing it again gives back the original text. */
  lemma SuffixRoundTrip(s: string, suf: string)
    requires suf != []
    ensures RemoveSuffix(s + suf, suf) == s
  {
    assert (s + suf)[|s|..] == suf;
    assert (s + suf)[..|s|] == s;
  }
}
