/** mkdocs_mdpo_plugin/mkdocs_utils.py: the MkDocs version check, the `MkdocsBuild`
    singleton through which the Markdown extension reaches the plugin, the build-error
    cleanup and the list of languages lunr.js ships. */
module MkdocsUtils {
  import opened Wrappers
  import opened Strings

  /** `int(n)` raises `ValueError` on a component that is not a numeral. */
  datatype VersionError = ValueError

  predicate IsDecimal(s: string)
  {
    s != [] && forall i :: 0 <= i < |s| ==> '0' <= s[i] <= '9'
  }

  /** The value of a numeral. */
  function DecimalValue(s: string): nat
    requires IsDecimal(s)
    decreases |s|
  {
    var last := (s[|s| - 1] as int) - ('0' as int);
    if |s| == 1 then last else DecimalValue(s[..|s| - 1]) * 10 + last
  }

  /** The numeral of `n`, as `str(n)` writes it. */
  function Decimal(n: nat): string
  {
    if n < 10 then [('0' as int + n) as char] else Decimal(n / 10) + [('0' as int + n % 10) as char]
  }

  /** Every component parsed as a numeral. */
  function ParseAll(parts: seq<string>): Result<seq<int>, VersionError>
  {
    if parts == [] then Ok([])
    else if !IsDecimal(parts[0]) then Err(ValueError)
    else
      var rest := ParseAll(parts[1..]);
      if rest.Err? then rest else Ok([DecimalValue(parts[0])] + rest.value)
  }

  /** `MKDOCS_MINOR_VERSION_INFO`: the first two dot-separated components of the version,
      as integers. */
  function VersionInfo(version: string): Result<seq<int>, VersionError>
  {
    var parts := Split(version, '.');
    ParseAll(if |parts| >= 2 then parts[..2] else parts)
  }

  /** Python's comparison `v >= w` of integer tuples: lexicographic, a proper prefix being
      smaller. */
  predicate TupleAtLeast(v: seq<int>, w: seq<int>)
  {
    if w == [] then true
    else if v == [] then false
    else if v[0] != w[0] then v[0] > w[0]
    else TupleAtLeast(v[1..], w[1..])
  }

  lemma {:induction false} DecimalRoundTrip(n: nat)
    ensures IsDecimal(Decimal(n)) && DecimalValue(Decimal(n)) == n && '.' !in Decimal(n)
  {
    if n >= 10 {
      DecimalRoundTrip(n / 10);
      var s := Decimal(n);
      assert s[..|s| - 1] == Decimal(n / 10);
    }
  }

  /** A version written `major.minor`, alone or followed by further components, gives
      `(major, minor)`. */
  lemma VersionInfoOf(major: nat, minor: nat, rest: string)
    requires rest == [] || rest[0] == '.'
    ensures VersionInfo(Decimal(major) + "." + Decimal(minor) + rest) == Ok([major, minor])
  {
    DecimalRoundTrip(major);
    DecimalRoundTrip(minor);
    VersionFields(Decimal(major), Decimal(minor), rest);
  }

  /** Two numerals separated by a dot, alone or followed by further components, are read
      as the version info. */
  lemma VersionFields(a: string, b: string, rest: string)
    requires IsDecimal(a) && IsDecimal(b) && '.' !in a && '.' !in b
    requires rest == [] || rest[0] == '.'
    ensures VersionInfo(a + "." + b + rest) == Ok([DecimalValue(a), DecimalValue(b)])
  {
    SplitVersion(a, b, rest);
    ParseTwo(a, b);
  }

  lemma SplitVersion(a: string, b: string, rest: string)
    requires '.' !in a && '.' !in b
    requires rest == [] || rest[0] == '.'
    ensures var parts := Split(a + "." + b + rest, '.'); |parts| >= 2 && parts[..2] == [a, b]
  {
    assert a + "." + b + rest == a + ['.'] + (b + rest);
    SplitAfterField(a, '.', b + rest);
    FirstField(b, rest);
    var tail := Split(b + rest, '.');
    assert ([a] + tail)[..2] == [a, b];
  }

  /** A field without dots, alone or followed by further components, is the first field. */
  lemma FirstField(b: string, rest: string)
    requires '.' !in b
    requires rest == [] || rest[0] == '.'
    ensures Split(b + rest, '.')[0] == b
  {
    if rest == [] {
      assert b + rest == b;
      FieldWithoutSeparator(b, '.');
    } else {
      assert b + rest == b + ['.'] + rest[1..];
      BeforeFirstSeparator(b, '.', rest[1..]);
    }
  }

  lemma ParseTwo(a: string, b: string)
    requires IsDecimal(a) && IsDecimal(b)
    ensures ParseAll([a, b]) == Ok([DecimalValue(a), DecimalValue(b)])
  {
    var empty: seq<string> := [];
    assert ParseAll(empty) == Ok([]);
    assert [b][0] == b && [b][1..] == empty;
    var values: seq<int> := [];
    assert [DecimalValue(b)] + values == [DecimalValue(b)];
    assert ParseAll([b]) == Ok([DecimalValue(b)]);
    assert [DecimalValue(a)] + [DecimalValue(b)] == [DecimalValue(a), DecimalValue(b)];
    assert [a, b][0] == a && [a, b][1..] == [b];
  }

  /** The cleanup hook is wanted from MkDocs 1.2 on: a version info `(major, minor)` is at
      least `(1, 2)` exactly when the release is 1.2 or later. */
  lemma {:induction false} AtLeastOneTwo(major: int, minor: int)
    ensures TupleAtLeast([major, minor], [1, 2]) <==> major > 1 || (major == 1 && minor >= 2)
  {
    if major == 1 {
      assert [major, minor][1..] == [minor];
      assert [1, 2][1..] == [2];
      assert [minor][1..] == [] && [2][1..] == [];
    }
  }

  /** A build error's handlers: one the plugin class declares itself, or the temporary
      directory cleanup the plugin installs. */
  datatype BuildErrorHandler = DeclaredHandler | TempdirCleanup

  /** The plugin class, as far as `set_on_build_error_event` looks at it. */
  class PluginClass {
    var onBuildError: Option<BuildErrorHandler>

    constructor(onBuildError: Option<BuildErrorHandler>)
      ensures this.onBuildError == onBuildError
    {
      this.onBuildError := onBuildError;
    }
  }

  /** `set_on_build_error_event`: from MkDocs 1.2 on, a plugin class without an
      `on_build_error` method gets the cleanup; one that has its own keeps it. */
  method SetOnBuildErrorEvent(cls: PluginClass, versionInfo: seq<int>)
    modifies cls
    ensures TupleAtLeast(versionInfo, [1, 2]) && old(cls.onBuildError).None? ==> cls.onBuildError == Some(TempdirCleanup)
    ensures !(TupleAtLeast(versionInfo, [1, 2]) && old(cls.onBuildError).None?) ==> cls.onBuildError == old(cls.onBuildError)
  {
    if TupleAtLeast(versionInfo, [1, 2]) {
      if cls.onBuildError.None? {
        cls.onBuildError := Some(TempdirCleanup);
      }
    }
  }

  /** An object made by `MkdocsBuild.__new__`. */
  class MkdocsBuild {
    constructor()
    {
    }
  }

  /** The class-level state of `MkdocsBuild`: the single instance and the plugin bound to
      it. `P` stands for the plugin. */
  class MkdocsBuildClass<P> {
    var instance: MkdocsBuild?
    var mdpoPlugin: Option<P>

    constructor()
      ensures instance == null && mdpoPlugin == None
    {
      instance := null;
      mdpoPlugin := None;
    }

    /** `MkdocsBuild.instance(mdpo_plugin)`: the first call creates the instance and binds
        the plugin; later calls return that same instance and ignore their argument. */
    method Instance(plugin: P) returns (build: MkdocsBuild)
      modifies this
      ensures old(instance) == null ==> fresh(build) && mdpoPlugin == Some(plugin)
      ensures old(instance) != null ==> build == old(instance) && mdpoPlugin == old(mdpoPlugin)
      ensures instance == build
    {
      if instance == null {
        instance := new MkdocsBuild();
        mdpoPlugin := Some(plugin);
      }
      build := instance;
    }

    /** The cleanup after a build error, and the end of `on_post_build`: the instance is
        dropped, so that the next build creates its own. The bound plugin stays until the
        next instance rebinds it. */
    method ClearInstance()
      modifies this`instance
      ensures instance == null
    {
      instance := null;
    }
  }

  /** `filename.split('.')[1]`, or `None` where that raises `IndexError`. */
  function SecondField(filename: string): (r: Option<string>)
    ensures r.Some? <==> |Split(filename, '.')| >= 2
    ensures r.Some? ==> r.value == Split(filename, '.')[1]
  {
    var parts := Split(filename, '.');
    if |parts| >= 2 then Some(parts[1]) else None
  }

  /** The second field exists exactly when the name has a dot. */
  lemma SecondFieldExists(filename: string)
    ensures SecondField(filename).Some? <==> '.' in filename
  {
  }

  /** `get_lunr_languages`, given the directory listing: the two-letter second fields of the
      file names, in listing order; a name without a dot raises `IndexError`. */
  function LunrLanguages(filenames: seq<string>): Result<seq<string>, ()>
  {
    if filenames == [] then Ok([])
    else
      var field := SecondField(filenames[|filenames| - 1]);
      if field.None? then Err(())
      else
        match LunrLanguages(filenames[..|filenames| - 1])
        case Ok(languages) => Ok(languages + (if |field.value| == 2 then [field.value] else []))
        case Err(e) => Err(e)
  }

  /** The listing is accepted exactly when every file name has a dot. */
  lemma {:induction false} LunrLanguagesAccepts(filenames: seq<string>)
    ensures LunrLanguages(filenames).Ok? <==> forall k :: 0 <= k < |filenames| ==> '.' in filenames[k]
  {
    if filenames != [] {
      var init := filenames[..|filenames| - 1];
      LunrLanguagesAccepts(init);
      SecondFieldExists(filenames[|filenames| - 1]);
      if LunrLanguages(init).Err? {
        var k :| 0 <= k < |init| && '.' !in init[k];
        assert filenames[k] == init[k];
      }
      if forall k :: 0 <= k < |filenames| ==> '.' in filenames[k] {
        assert forall k :: 0 <= k < |init| ==> init[k] == filenames[k];
      }
    }
  }

  /** Some file name of the listing has `l` as its second field. */
  ghost predicate HasField(filenames: seq<string>, l: string)
  {
    exists k :: 0 <= k < |filenames| && SecondField(filenames[k]) == Some(l)
  }

  /** A second field of the longer listing comes from the shorter one or from the new name. */
  lemma HasFieldSnoc(init: seq<string>, last: string, l: string)
    ensures HasField(init + [last], l) <==> HasField(init, l) || SecondField(last) == Some(l)
  {
    var filenames := init + [last];
    if HasField(filenames, l) {
      var k :| 0 <= k < |filenames| && SecondField(filenames[k]) == Some(l);
      if k < |init| {
        assert init[k] == filenames[k];
      }
    }
    if HasField(init, l) {
      var k :| 0 <= k < |init| && SecondField(init[k]) == Some(l);
      assert filenames[k] == init[k];
    }
    if SecondField(last) == Some(l) {
      assert filenames[|init|] == last;
    }
  }

  /** The languages are exactly the two-letter second fields of the file names. */
  lemma {:induction false} LunrLanguagesMembers(filenames: seq<string>)
    requires LunrLanguages(filenames).Ok?
    ensures forall l :: l in LunrLanguages(filenames).value <==>
      |l| == 2 && exists k :: 0 <= k < |filenames| && SecondField(filenames[k]) == Some(l)
  {
    if filenames != [] {
      var init, last := filenames[..|filenames| - 1], filenames[|filenames| - 1];
      assert filenames == init + [last];
      LunrSnoc(init, last);
      var field := SecondField(last).value;
      var extra := if |field| == 2 then [field] else [];
      assert LunrLanguages(filenames).value == LunrLanguages(init).value + extra;
      LunrLanguagesMembers(init);
      forall l
        ensures l in LunrLanguages(filenames).value <==> |l| == 2 && HasField(filenames, l)
      {
        HasFieldSnoc(init, last, l);
      }
    }
  }

  /** One more file name in the listing. */
  lemma LunrSnoc(init: seq<string>, filename: string)
    ensures var field := SecondField(filename);
      LunrLanguages(init + [filename]) ==
        if field.None? || LunrLanguages(init).Err? then Err(())
        else Ok(LunrLanguages(init).value + (if |field.value| == 2 then [field.value] else []))
  {
    assert (init + [filename])[..|init|] == init;
  }

  /** The loop of `get_lunr_languages` over the directory listing. */
  method GetLunrLanguages(filenames: seq<string>) returns (r: Result<seq<string>, ()>)
    ensures r == LunrLanguages(filenames)
  {
    var languages: seq<string> := [];
    var i := 0;
    while i < |filenames|
      invariant 0 <= i <= |filenames|
      invariant LunrLanguages(filenames[..i]) == Ok(languages)
    {
      var field := SecondField(filenames[i]);
      if field.None? {
        assert filenames[..i + 1] == filenames[..i] + [filenames[i]];
        LunrSnoc(filenames[..i], filenames[i]);
        LunrPrefixFails(filenames, i + 1);
        return Err(());
      }
      var lang := field.value;
      ghost var before := languages;
      if |lang| == 2 {
        languages := languages + [lang];
      }
      assert languages == before + (if |lang| == 2 then [lang] else []);
      LunrStep(filenames, i, before);
      assert LunrLanguages(filenames[..i + 1]) == Ok(languages);
      i := i + 1;
    }
    assert filenames[..i] == filenames;
    r := Ok(languages);
  }

  lemma LunrStep(filenames: seq<string>, i: nat, languages: seq<string>)
    requires i < |filenames| && LunrLanguages(filenames[..i]) == Ok(languages) && SecondField(filenames[i]).Some?
    ensures var lang := SecondField(filenames[i]).value;
      LunrLanguages(filenames[..i + 1]) == Ok(languages + (if |lang| == 2 then [lang] else []))
  {
    assert filenames[..i + 1] == filenames[..i] + [filenames[i]];
    LunrSnoc(filenames[..i], filenames[i]);
  }

  /** Once a prefix of the listing fails, the whole listing fails. */
  lemma {:induction false} LunrPrefixFails(filenames: seq<string>, n: nat)
    requires n <= |filenames| && LunrLanguages(filenames[..n]) == Err(())
    ensures LunrLanguages(filenames) == Err(())
    decreases |filenames| - n
  {
    if n < |filenames| {
      assert filenames[..n + 1] == filenames[..n] + [filenames[n]];
      LunrSnoc(filenames[..n], filenames[n]);
      LunrPrefixFails(filenames, n + 1);
    } else {
      assert filenames[..n] == filenames;
    }
  }
}
