/**
 * The changelog store of `changelog.py`: a releases directory with one
 * subdirectory per sealed release (its entry files and `manifest.json`), and an
 * accumulation directory of pending entry files.  `Store` holds both as maps
 * that its methods update in place, the way the script changes the file system.
 */
module Changelog {
  import opened Wrappers
  import opened SemVer
  import opened Resolver

  /** The contents of an entry file; never inspected. */
  type Contents = string

  /**
   * A predecessor as a manifest records it: a string given on the command line,
   * or the parsed version object that the default path stores (line 48).
   */
  datatype VersionRef = Given(text: string) | Parsed(version: Version)

  /**
   * The `manifest.json` of a release directory: not written yet, written with
   * its `previous_versions` strings, or cut short because `json.dump` raised on
   * a value it cannot serialise (line 58).
   */
  datatype Manifest = Unwritten | Written(previousVersions: seq<string>) | Truncated

  /**
   * An entry of the releases directory: a plain file, or a release directory
   * holding its entry files by name and its manifest.
   */
  datatype Node = File | ReleaseDir(entries: map<string, Contents>, manifest: Manifest)

  /** Why a command raised. */
  datatype Error =
    | InvalidVersion(name: string)           // a release directory name that does not parse (line 34)
    | ReleaseExists(version: string)         // `os.mkdir` raises FileExistsError (line 52)
    | ManifestUnserializable(version: string) // `json.dump` raises TypeError on a parsed version (line 58)

  /**
   * Line 52: `os.mkdir` of the joined path raises FileExistsError when an entry
   * of that name exists, and also for `""`, `"."` and `".."`, which name the
   * releases directory itself or its parent.
   */
  predicate MkdirRefuses(version: string, releases: map<string, Node>) {
    version in releases || version == "" || version == "." || version == ".."
  }

  /** `json.dump` can write the predecessor list: it holds strings only. */
  predicate Serializable(refs: seq<VersionRef>) {
    forall i :: 0 <= i < |refs| ==> refs[i].Given?
  }

  /**
   * Lines 57-60: the manifest that writing `refs` leaves on disk, complete when
   * every predecessor is a string and truncated otherwise.
   */
  function ManifestFor(refs: seq<VersionRef>): (m: Manifest)
    ensures Serializable(refs) ==> m.Written? && |m.previousVersions| == |refs|
    ensures Serializable(refs) ==> forall i :: 0 <= i < |refs| ==> refs[i] == Given(m.previousVersions[i])
    ensures !Serializable(refs) ==> m == Truncated
  {
    if Serializable(refs) then Written(seq(|refs|, i requires 0 <= i < |refs| => refs[i].text))
    else Truncated
  }

  predicate EndsWith(s: string, suffix: string) {
    |suffix| <= |s| && s[|s| - |suffix|..] == suffix
  }

  /** Line 54: the suffix filter for entry files. */
  predicate IsEntryFile(name: string) {
    EndsWith(name, ".yml") || EndsWith(name, ".yaml")
  }

  /** The files of `files` that the suffix filter accepts, with their contents. */
  function EntryFiles(files: map<string, Contents>): (r: map<string, Contents>)
    ensures r.Keys <= files.Keys
    ensures forall f :: f in files ==> (f in r <==> IsEntryFile(f))
    ensures forall f :: f in r ==> r[f] == files[f]
  {
    map f | f in files && IsEntryFile(f) :: files[f]
  }

  /** Visiting one more accumulation file adds it to the moved files exactly when it is an entry file. */
  lemma EntryFilesStep(files: map<string, Contents>, unvisited: set<string>, f: string)
    requires f in unvisited && unvisited <= files.Keys
    ensures EntryFiles(files - (unvisited - {f})) ==
      if IsEntryFile(f) then EntryFiles(files - unvisited)[f := files[f]] else EntryFiles(files - unvisited)
  {
    var before, after := EntryFiles(files - unvisited), EntryFiles(files - (unvisited - {f}));
    if IsEntryFile(f) {
      assert after.Keys == before.Keys + {f};
    } else {
      assert after.Keys == before.Keys;
    }
  }

  lemma OverwriteTwice<K, V>(m: map<K, V>, k: K, a: V, b: V)
    ensures m[k := a][k := b] == m[k := b]
  {
    assert m[k := a][k := b].Keys == m[k := b].Keys;
  }

  /** `names` lists every key of `keys` exactly once, in some order. */
  predicate Enumerates(names: seq<string>, keys: set<string>) {
    && (forall i :: 0 <= i < |names| ==> names[i] in keys)
    && (forall k :: k in keys ==> k in names)
    && (forall i, j :: 0 <= i < j < |names| ==> names[i] != names[j])
  }

  /** The entries `os.scandir` yields for the releases directory listed as `names`. */
  function Listing(names: seq<string>, releases: map<string, Node>): (r: seq<DirEntry>)
    requires forall i :: 0 <= i < |names| ==> names[i] in releases
    ensures |r| == |names|
    ensures forall i :: 0 <= i < |names| ==> r[i].name == names[i] && (r[i].isDir <==> releases[names[i]].ReleaseDir?)
  {
    seq(|names|, i requires 0 <= i < |names| => DirEntry(names[i], releases[names[i]].ReleaseDir?))
  }

  /**
   * Lines 42-48: the predecessor list of a new release.  An explicit list,
   * empty or not, is kept as given; without one it is the latest version, or
   * nothing when there is no release yet.
   */
  function Predecessors(explicit: Option<seq<string>>, latest: Option<Version>): (r: seq<VersionRef>)
    ensures explicit.Some? ==> |r| == |explicit.value| && forall i :: 0 <= i < |r| ==> r[i] == Given(explicit.value[i])
    ensures explicit.None? && latest.None? ==> r == []
    ensures explicit.None? && latest.Some? ==> r == [Parsed(latest.value)]
  {
    match explicit
    case Some(names) => seq(|names|, i requires 0 <= i < |names| => Given(names[i]))
    case None => if latest.None? then [] else [Parsed(latest.value)]
  }

  /**
   * Lines 42-48 with line 58: the manifest can be written exactly when an
   * explicit list is given or there is no release yet; the default path over an
   * existing release stores a parsed version, which `json.dump` rejects.
   */
  lemma PredecessorsSerializable(explicit: Option<seq<string>>, latest: Option<Version>)
    ensures Serializable(Predecessors(explicit, latest)) <==> explicit.Some? || latest.None?
  {
    if explicit.None? && latest.Some? {
      assert !Predecessors(explicit, latest)[0].Given?;
    }
  }

  class Store {
    /** The releases directory: name to plain file or release directory. */
    var releases: map<string, Node>
    /** The accumulation directory: pending file name to contents. */
    var accumulation: map<string, Contents>

    constructor (releases: map<string, Node>, accumulation: map<string, Contents>)
      ensures this.releases == releases && this.accumulation == accumulation
    {
      this.releases := releases;
      this.accumulation := accumulation;
    }

    /**
     * `get_previous_version` (lines 29-37) on the releases directory, which the
     * environment lists as `listing`.
     */
    method GetPreviousVersion(listing: seq<string>, parse: Parser) returns (r: Result<Option<Version>, string>)
      requires Enumerates(listing, releases.Keys)
      ensures r == Latest(Listing(listing, releases), parse)
    {
      ghost var entries := Listing(listing, releases);
      var latest: Option<Version> := None;
      var i := 0;
      while i < |listing|
        invariant 0 <= i <= |listing|
        invariant Scan(entries[i..], parse, latest) == Latest(entries, parse)
      {
        assert entries[i..][1..] == entries[i + 1..];
        if releases[listing[i]].ReleaseDir? {
          var current := parse(listing[i]);
          if current.None? {
            return Err(listing[i]);
          }
          if latest.None? || Compare(current.value, latest.value) > 0 {
            latest := current;
          }
        }
        i := i + 1;
      }
      return Ok(latest);
    }

    /**
     * `release` (lines 41-60): resolve the predecessors, create the release
     * directory, move every entry file of the accumulation directory into it and
     * write its manifest.  Resolving fails only without an explicit list, and
     * it and `os.mkdir` fail before anything is changed.  Writing the manifest
     * fails after the files have moved, whenever the predecessor list holds a
     * parsed version: the default path over an existing release.
     */
    method Release(version: string, previous: Option<seq<string>>, listing: seq<string>, parse: Parser)
      returns (r: Outcome<Error>)
      requires Enumerates(listing, releases.Keys)
      modifies this
      ensures var latest := Latest(Listing(listing, old(releases)), parse);
        if previous.None? && latest.Err? then
          r == Fail(InvalidVersion(latest.error))
          && releases == old(releases) && accumulation == old(accumulation)
        else if MkdirRefuses(version, old(releases)) then
          r == Fail(ReleaseExists(version))
          && releases == old(releases) && accumulation == old(accumulation)
        else
          var moved := EntryFiles(old(accumulation));
          var previousVersions := Predecessors(previous, if latest.Ok? then latest.value else None);
          && r == (if Serializable(previousVersions) then Pass else Fail(ManifestUnserializable(version)))
          && releases == old(releases)[version := ReleaseDir(moved, ManifestFor(previousVersions))]
          && accumulation == old(accumulation) - moved.Keys
    {
      ghost var entries := Listing(listing, releases);
      var latest: Option<Version> := None;
      if previous.None? {
        var found := GetPreviousVersion(listing, parse);
        if found.Err? {
          return Fail(InvalidVersion(found.error));
        }
        latest := found.value;
      }
      var previousVersions := Predecessors(previous, latest);
      assert previousVersions == Predecessors(previous, if Latest(entries, parse).Ok? then Latest(entries, parse).value else None);

      // os.mkdir
      if MkdirRefuses(version, releases) {
        return Fail(ReleaseExists(version));
      }
      ghost var before, moved := releases, EntryFiles(accumulation);
      releases := releases[version := ReleaseDir(map[], Unwritten)];
      MoveEntryFiles(version);
      OverwriteTwice(before, version, ReleaseDir(map[], Unwritten), ReleaseDir(moved, Unwritten));
      r := WriteManifest(version, previousVersions);
      OverwriteTwice(before, version, ReleaseDir(moved, Unwritten), ReleaseDir(moved, ManifestFor(previousVersions)));
    }

    /**
     * Lines 57-60: open `manifest.json` in release directory `version` and dump
     * the predecessors into it.  `json.dump` raises TypeError on a parsed
     * version, after the file has been created.
     */
    method WriteManifest(version: string, previousVersions: seq<VersionRef>) returns (r: Outcome<Error>)
      requires version in releases && releases[version].ReleaseDir?
      modifies this
      ensures releases == old(releases)[version := ReleaseDir(old(releases)[version].entries, ManifestFor(previousVersions))]
      ensures accumulation == old(accumulation)
      ensures r == if Serializable(previousVersions) then Pass else Fail(ManifestUnserializable(version))
    {
      releases := releases[version := ReleaseDir(releases[version].entries, ManifestFor(previousVersions))];
      r := if Serializable(previousVersions) then Pass else Fail(ManifestUnserializable(version));
    }

    /**
     * Lines 53-55: every accumulation file that passes the suffix filter moves,
     * under its own name, into the release directory `version`; the others stay.
     */
    method MoveEntryFiles(version: string)
      requires version in releases && releases[version].ReleaseDir? && releases[version].entries == map[]
      modifies this
      ensures var moved := EntryFiles(old(accumulation));
        && releases == old(releases)[version := ReleaseDir(moved, old(releases)[version].manifest)]
        && accumulation == old(accumulation) - moved.Keys
    {
      ghost var pendingFiles := accumulation;
      var manifest := releases[version].manifest;
      var unvisited := accumulation.Keys;
      while unvisited != {}
        invariant unvisited <= pendingFiles.Keys
        invariant accumulation == pendingFiles - EntryFiles(pendingFiles - unvisited).Keys
        invariant releases == old(releases)[version := ReleaseDir(EntryFiles(pendingFiles - unvisited), manifest)]
        decreases unvisited
      {
        var f :| f in unvisited;
        EntryFilesStep(pendingFiles, unvisited, f);
        if IsEntryFile(f) {
          releases := releases[version := ReleaseDir(releases[version].entries[f := accumulation[f]], manifest)];
          accumulation := accumulation - {f};
        }
        unvisited := unvisited - {f};
      }
      assert pendingFiles - unvisited == pendingFiles;
    }

    /**
     * Lines 65-69 of `generate`: the version to build a changelog for is the
     * one given when it is a non-empty string, and otherwise the latest release,
     * which needs the releases directory to be readable.
     */
    method Generate(version: Option<string>, listing: seq<string>, parse: Parser)
      returns (r: Result<Option<VersionRef>, Error>)
      requires Enumerates(listing, releases.Keys)
      ensures version.Some? && version.value != "" ==> r == Ok(Some(Given(version.value)))
      ensures version.None? || version.value == "" ==>
        match Latest(Listing(listing, releases), parse)
        case Err(name) => r == Err(InvalidVersion(name))
        case Ok(None) => r == Ok(None)
        case Ok(Some(v)) => r == Ok(Some(Parsed(v)))
    {
      if version.Some? && version.value != "" {
        return Ok(Some(Given(version.value)));
      }
      var found := GetPreviousVersion(listing, parse);
      match found
      case Err(name) => return Err(InvalidVersion(name));
      case Ok(None) => return Ok(None);
      case Ok(Some(v)) => return Ok(Some(Parsed(v)));
    }
  }

  /** Line 54 tests suffixes: a name must end in `.yml` or `.yaml`, not merely contain it. */
  lemma SuffixExamples()
    ensures IsEntryFile("a.yml") && IsEntryFile("b.yaml") && IsEntryFile(".yaml")
    ensures !IsEntryFile("notes.txt") && !IsEntryFile("c.yml.bak")
  {
    assert "notes.txt"[5..] != ".yml" && "notes.txt"[4..] != ".yaml";
    assert "c.yml.bak"[5..] != ".yml" && "c.yml.bak"[4..] != ".yaml";
  }

  /**
   * The suffix filter on the accumulation directory `a.yml`, `b.yaml`,
   * `notes.txt`: the first two are entry files, `notes.txt` is what remains.
   */
  lemma EntryFilesExample(a: Contents, b: Contents, n: Contents)
    ensures var files := map["a.yml" := a, "b.yaml" := b, "notes.txt" := n];
      && EntryFiles(files) == map["a.yml" := a, "b.yaml" := b]
      && files - EntryFiles(files).Keys == map["notes.txt" := n]
  {
    var files := map["a.yml" := a, "b.yaml" := b, "notes.txt" := n];
    SuffixExamples();
    assert EntryFiles(files).Keys == {"a.yml", "b.yaml"};
    assert (files - {"a.yml", "b.yaml"}).Keys == {"notes.txt"};
  }

  /**
   * Running `release 1.2.0` on top of release 1.0.0, with `a.yml`, `b.yaml` and
   * `notes.txt` pending and no `--previous-versions`: the two entry files move
   * and `notes.txt` stays, but the default predecessor is a parsed version, so
   * `json.dump` raises and leaves the manifest truncated.
   */
  method SealExample(parse: Parser, a: Contents, b: Contents, n: Contents)
    returns (r: Outcome<Error>, sealed: Node, pending: map<string, Contents>)
    requires parse("1.0.0") == Some(Version(1, 0, 0, [], []))
    ensures r == Fail(ManifestUnserializable("1.2.0"))
    ensures sealed == ReleaseDir(map["a.yml" := a, "b.yaml" := b], Truncated)
    ensures pending == map["notes.txt" := n]
  {
    var store := new Store(map["1.0.0" := ReleaseDir(map[], Written([]))],
                           map["a.yml" := a, "b.yaml" := b, "notes.txt" := n]);
    EntryFilesExample(a, b, n);
    ghost var listed := Listing(["1.0.0"], store.releases);
    assert listed == [DirEntry("1.0.0", true)] && listed[1..] == [];
    assert Latest(listed, parse) == Scan([], parse, Some(Version(1, 0, 0, [], [])));
    PredecessorsSerializable(None, Some(Version(1, 0, 0, [], [])));
    r := store.Release("1.2.0", None, ["1.0.0"], parse);
    sealed := store.releases["1.2.0"];
    pending := store.accumulation;
  }

  /**
   * The same release with `--previous-versions 1.0.0`: the entry files move and
   * the manifest records the given string.
   */
  method SealExplicitExample(parse: Parser, a: Contents, b: Contents, n: Contents)
    returns (r: Outcome<Error>, sealed: Node, pending: map<string, Contents>)
    ensures r == Pass
    ensures sealed == ReleaseDir(map["a.yml" := a, "b.yaml" := b], Written(["1.0.0"]))
    ensures pending == map["notes.txt" := n]
  {
    var store := new Store(map["1.0.0" := ReleaseDir(map[], Written([]))],
                           map["a.yml" := a, "b.yaml" := b, "notes.txt" := n]);
    EntryFilesExample(a, b, n);
    assert Serializable(Predecessors(Some(["1.0.0"]), None));
    r := store.Release("1.2.0", Some(["1.0.0"]), ["1.0.0"], parse);
    sealed := store.releases["1.2.0"];
    pending := store.accumulation;
  }

  /** The first release on an empty store links to nothing, and its manifest is written. */
  method FirstReleaseExample(parse: Parser, a: Contents) returns (r: Outcome<Error>, sealed: Node)
    ensures r == Pass
    ensures sealed == ReleaseDir(map["a.yml" := a], Written([]))
  {
    var store := new Store(map[], map["a.yml" := a]);
    SuffixExamples();
    assert EntryFiles(store.accumulation).Keys == {"a.yml"};
    r := store.Release("0.1.0", None, [], parse);
    sealed := store.releases["0.1.0"];
  }

  /**
   * Sealing a version that already has a release directory, or the name `.`,
   * fails at `os.mkdir` and changes nothing.
   */
  method DuplicateExample(a: Contents, parse: Parser)
    returns (r: Outcome<Error>, dot: Outcome<Error>, kept: Node, pending: map<string, Contents>)
    ensures r == Fail(ReleaseExists("1.0.0")) && dot == Fail(ReleaseExists("."))
    ensures kept == ReleaseDir(map[], Written([])) && pending == map["a.yml" := a]
  {
    var store := new Store(map["1.0.0" := ReleaseDir(map[], Written([]))], map["a.yml" := a]);
    r := store.Release("1.0.0", Some([]), ["1.0.0"], parse);
    dot := store.Release(".", Some([]), ["1.0.0"], parse);
    kept := store.releases["1.0.0"];
    pending := store.accumulation;
  }
}
