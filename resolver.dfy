/**
 * What `get_previous_version` computes: a scan of the releases directory that
 * skips non-directories, parses every directory name as a version and keeps a
 * running maximum that is replaced only by a version of strictly higher
 * precedence.  `Latest` is the scan as a function of the listing; the lemmas
 * below characterise it independently of how it is computed.
 */
module Resolver {
  import opened Wrappers
  import opened SemVer

  /** One entry of the releases directory, as `os.scandir` yields it. */
  datatype DirEntry = DirEntry(name: string, isDir: bool)

  /** `semver.VersionInfo.parse`, supplied by the caller: `None` where it raises. */
  type Parser = string -> Option<Version>

  /** Line 35: the running maximum is replaced only by a strictly higher version. */
  function Keep(best: Option<Version>, current: Version): (r: Option<Version>)
    ensures r.Some?
    ensures best.Some? ==> Compare(best.value, r.value) <= 0
    ensures Compare(current, r.value) <= 0
    ensures best.None? || Compare(current, best.value) > 0 ==> r == Some(current)
    ensures best.Some? && Compare(current, best.value) <= 0 ==> r == best
  {
    if best.None? then
      CompareZeroIff(current, current);
      Some(current)
    else if Compare(current, best.value) > 0 then
      CompareAntisymmetric(current, best.value);
      CompareZeroIff(current, current);
      Some(current)
    else
      CompareZeroIff(best.value, best.value);
      best
  }

  /**
   * The rest of the scan from the running maximum `best`; `Err(name)` is the
   * directory name whose parse raised.
   */
  function Scan(entries: seq<DirEntry>, parse: Parser, best: Option<Version>): Result<Option<Version>, string>
  {
    if entries == [] then Ok(best)
    else if !entries[0].isDir then Scan(entries[1..], parse, best)
    else match parse(entries[0].name)
      case None => Err(entries[0].name)
      case Some(v) => Scan(entries[1..], parse, Keep(best, v))
  }

  /** The result of `get_previous_version` on a directory listed as `entries`. */
  function Latest(entries: seq<DirEntry>, parse: Parser): Result<Option<Version>, string> {
    Scan(entries, parse, None)
  }

  /** Entry `i` is a release directory whose name does not parse. */
  predicate Unparsable(entries: seq<DirEntry>, parse: Parser, i: int)
    requires 0 <= i < |entries|
  {
    entries[i].isDir && parse(entries[i].name).None?
  }

  // ---- failure ----

  lemma {:induction false} ScanFails(entries: seq<DirEntry>, parse: Parser, best: Option<Version>)
    ensures Scan(entries, parse, best).Err? <==> exists i :: 0 <= i < |entries| && Unparsable(entries, parse, i)
    ensures Scan(entries, parse, best).Err? ==>
      exists i :: 0 <= i < |entries| && Unparsable(entries, parse, i)
        && Scan(entries, parse, best).error == entries[i].name
        && forall j :: 0 <= j < i ==> !Unparsable(entries, parse, j)
  {
    if entries != [] {
      var rest := entries[1..];
      if entries[0].isDir && parse(entries[0].name).None? {
        assert Unparsable(entries, parse, 0);
      } else {
        var next := if entries[0].isDir then Keep(best, parse(entries[0].name).value) else best;
        ScanFails(rest, parse, next);
        assert forall i :: 0 <= i < |rest| ==> Unparsable(rest, parse, i) == Unparsable(entries, parse, i + 1);
        if exists i :: 0 <= i < |entries| && Unparsable(entries, parse, i) {
          var i :| 0 <= i < |entries| && Unparsable(entries, parse, i);
          assert i > 0;
          assert Unparsable(rest, parse, i - 1);
        }
        if Scan(rest, parse, next).Err? {
          var i :| 0 <= i < |rest| && Unparsable(rest, parse, i)
            && Scan(rest, parse, next).error == rest[i].name
            && forall j :: 0 <= j < i ==> !Unparsable(rest, parse, j);
          assert Unparsable(entries, parse, i + 1);
          assert forall j :: 0 <= j < i + 1 ==> !Unparsable(entries, parse, j) by {
            forall j | 0 <= j < i + 1 ensures !Unparsable(entries, parse, j) {
              if j > 0 { assert !Unparsable(rest, parse, j - 1); }
            }
          }
        }
      }
    }
  }

  /**
   * Line 34: `get_previous_version` raises exactly when some release directory
   * name does not parse, and it is the first such name in listing order that it
   * reports.
   */
  lemma LatestFails(entries: seq<DirEntry>, parse: Parser)
    ensures Latest(entries, parse).Err? <==> exists i :: 0 <= i < |entries| && Unparsable(entries, parse, i)
    ensures Latest(entries, parse).Err? ==>
      exists i :: 0 <= i < |entries| && Unparsable(entries, parse, i)
        && Latest(entries, parse).error == entries[i].name
        && forall j :: 0 <= j < i ==> !Unparsable(entries, parse, j)
  {
    ScanFails(entries, parse, None);
  }

  // ---- empty store ----

  lemma {:induction false} ScanNone(entries: seq<DirEntry>, parse: Parser, best: Option<Version>)
    ensures Scan(entries, parse, best) == Ok(None) <==>
      best.None? && forall i :: 0 <= i < |entries| ==> !entries[i].isDir
  {
    if entries != [] {
      var rest := entries[1..];
      if !entries[0].isDir {
        ScanNone(rest, parse, best);
        assert forall i :: 0 <= i < |rest| ==> rest[i] == entries[i + 1];
        if forall i :: 0 <= i < |rest| ==> !rest[i].isDir {
          forall i | 0 <= i < |entries| ensures !entries[i].isDir {
            if i > 0 { assert !rest[i - 1].isDir; }
          }
        }
      } else if parse(entries[0].name).Some? {
        ScanNone(rest, parse, Keep(best, parse(entries[0].name).value));
      }
    }
  }

  /**
   * Lines 31-37: non-directories are ignored, and the result is `None` exactly
   * when the releases directory holds no subdirectory.
   */
  lemma LatestNone(entries: seq<DirEntry>, parse: Parser)
    ensures Latest(entries, parse) == Ok(None) <==> forall i :: 0 <= i < |entries| ==> !entries[i].isDir
  {
    ScanNone(entries, parse, None);
  }

  // ---- maximum, and the first of equal precedence wins ----

  /** Every release directory before `i` parses to a version of lower precedence than `v`. */
  predicate AllBelow(entries: seq<DirEntry>, parse: Parser, i: int, v: Version)
    requires 0 <= i <= |entries|
  {
    forall j :: 0 <= j < i && entries[j].isDir ==>
      parse(entries[j].name).Some? && Compare(parse(entries[j].name).value, v) < 0
  }

  /** Every release directory parses to a version of no higher precedence than `v`. */
  predicate NoneAbove(entries: seq<DirEntry>, parse: Parser, v: Version) {
    forall j :: 0 <= j < |entries| && entries[j].isDir ==>
      parse(entries[j].name).Some? && Compare(parse(entries[j].name).value, v) <= 0
  }

  /** Release directory `i` is the first one listed whose version is `v`, a maximum. */
  predicate FirstMaximum(entries: seq<DirEntry>, parse: Parser, i: int, v: Version)
    requires 0 <= i < |entries|
  {
    entries[i].isDir && parse(entries[i].name) == Some(v) && AllBelow(entries, parse, i, v)
  }

  lemma {:induction false} ScanMaximum(entries: seq<DirEntry>, parse: Parser, best: Option<Version>, v: Version)
    requires Scan(entries, parse, best) == Ok(Some(v))
    ensures NoneAbove(entries, parse, v)
    ensures best.Some? ==> Compare(best.value, v) <= 0
    ensures best == Some(v) || exists i :: (0 <= i < |entries| && FirstMaximum(entries, parse, i, v)
      && (best.Some? ==> Compare(best.value, v) < 0))
  {
    if entries == [] {
      CompareZeroIff(v, v);
    } else {
      var rest := entries[1..];
      assert forall j :: 0 <= j < |rest| ==> rest[j] == entries[j + 1];
      if !entries[0].isDir {
        ScanMaximum(rest, parse, best, v);
        if best != Some(v) {
          var i :| 0 <= i < |rest| && FirstMaximum(rest, parse, i, v) && (best.Some? ==> Compare(best.value, v) < 0);
          assert FirstMaximum(entries, parse, i + 1, v) by {
            forall j | 0 <= j < i + 1 && entries[j].isDir
              ensures parse(entries[j].name).Some? && Compare(parse(entries[j].name).value, v) < 0
            {
              assert j > 0 && rest[j - 1] == entries[j];
            }
          }
        }
      } else {
        var w := parse(entries[0].name).value;
        var next := Keep(best, w);
        ScanMaximum(rest, parse, next, v);
        // the head is no higher than v
        assert Compare(w, v) <= 0 by {
          if next != Some(w) {
            CompareTransitive(w, best.value, v);
          }
        }
        // the running maximum before the head is no higher than v
        if best.Some? && next == Some(w) && best != Some(w) {
          CompareAntisymmetric(w, best.value);
          CompareTransitive(best.value, w, v);
        }
        if next == Some(v) && best != Some(v) {
          // the head itself is the first maximum
          assert next == Some(w) && w == v;
          if best.Some? {
            CompareAntisymmetric(w, best.value);
          }
          assert FirstMaximum(entries, parse, 0, v);
        } else if next != Some(v) {
          var i :| 0 <= i < |rest| && FirstMaximum(rest, parse, i, v) && Compare(next.value, v) < 0;
          assert Compare(w, v) < 0 by {
            if next != Some(w) {
              CompareStrictTransitive(w, best.value, v);
            }
          }
          if best.Some? && next == Some(w) {
            CompareAntisymmetric(w, best.value);
            CompareStrictTransitive(best.value, w, v);
          }
          assert FirstMaximum(entries, parse, i + 1, v) by {
            forall j | 0 <= j < i + 1 && entries[j].isDir
              ensures parse(entries[j].name).Some? && Compare(parse(entries[j].name).value, v) < 0
            {
              if j > 0 { assert rest[j - 1] == entries[j]; }
            }
          }
        }
      }
    }
  }

  /**
   * Lines 33-36: when a version is returned, no release directory has higher
   * precedence, and it is the version of the first directory in listing order
   * among those of highest precedence (replacement needs `compare > 0`).
   */
  lemma LatestIsFirstMaximum(entries: seq<DirEntry>, parse: Parser, v: Version)
    requires Latest(entries, parse) == Ok(Some(v))
    ensures NoneAbove(entries, parse, v)
    ensures exists i :: 0 <= i < |entries| && FirstMaximum(entries, parse, i, v)
  {
    ScanMaximum(entries, parse, None, v);
  }

  /**
   * The listing order of the releases directory decides only which of several
   * versions of equal precedence is returned: whether the call fails, returns
   * `None`, or returns a version of a given precedence does not depend on it.
   */
  lemma LatestIndependentOfOrder(e1: seq<DirEntry>, e2: seq<DirEntry>, parse: Parser)
    requires forall x :: x in e1 <==> x in e2
    ensures Latest(e1, parse).Err? <==> Latest(e2, parse).Err?
    ensures Latest(e1, parse) == Ok(None) <==> Latest(e2, parse) == Ok(None)
    ensures Latest(e1, parse).Ok? && Latest(e1, parse).value.Some? && Latest(e2, parse).Ok? && Latest(e2, parse).value.Some? ==>
      SamePrecedence(Latest(e1, parse).value.value, Latest(e2, parse).value.value)
  {
    LatestFails(e1, parse);
    LatestFails(e2, parse);
    if exists i :: 0 <= i < |e1| && Unparsable(e1, parse, i) {
      var i :| 0 <= i < |e1| && Unparsable(e1, parse, i);
      assert e1[i] in e2;
      var k :| 0 <= k < |e2| && e2[k] == e1[i];
      assert Unparsable(e2, parse, k);
    }
    if exists i :: 0 <= i < |e2| && Unparsable(e2, parse, i) {
      var i :| 0 <= i < |e2| && Unparsable(e2, parse, i);
      assert e2[i] in e1;
      var k :| 0 <= k < |e1| && e1[k] == e2[i];
      assert Unparsable(e1, parse, k);
    }
    LatestNone(e1, parse);
    LatestNone(e2, parse);
    if exists i :: 0 <= i < |e1| && e1[i].isDir {
      var i :| 0 <= i < |e1| && e1[i].isDir;
      assert e1[i] in e2;
      var k :| 0 <= k < |e2| && e2[k] == e1[i];
      assert e2[k].isDir;
    }
    if exists i :: 0 <= i < |e2| && e2[i].isDir {
      var i :| 0 <= i < |e2| && e2[i].isDir;
      assert e2[i] in e1;
      var k :| 0 <= k < |e1| && e1[k] == e2[i];
      assert e1[k].isDir;
    }
    if Latest(e1, parse).Ok? && Latest(e1, parse).value.Some? && Latest(e2, parse).Ok? && Latest(e2, parse).value.Some? {
      var v1, v2 := Latest(e1, parse).value.value, Latest(e2, parse).value.value;
      LatestIsFirstMaximum(e1, parse, v1);
      LatestIsFirstMaximum(e2, parse, v2);
      var i1 :| 0 <= i1 < |e1| && FirstMaximum(e1, parse, i1, v1);
      var i2 :| 0 <= i2 < |e2| && FirstMaximum(e2, parse, i2, v2);
      assert e1[i1] in e2 && e2[i2] in e1;
      var k1 :| 0 <= k1 < |e2| && e2[k1] == e1[i1];
      var k2 :| 0 <= k2 < |e1| && e1[k2] == e2[i2];
      assert Compare(v1, v2) <= 0 && Compare(v2, v1) <= 0;
      CompareAntisymmetric(v1, v2);
      CompareZeroIff(v1, v2);
    }
  }

  /** Releases 1.0.0, 2.0.0 and 1.5.0 beside a stray file: the latest is 2.0.0. */
  lemma LatestExample(parse: Parser)
    requires parse("1.0.0") == Some(Version(1, 0, 0, [], []))
    requires parse("2.0.0") == Some(Version(2, 0, 0, [], []))
    requires parse("1.5.0") == Some(Version(1, 5, 0, [], []))
    ensures Latest([DirEntry("1.0.0", true), DirEntry("notes.txt", false),
                    DirEntry("2.0.0", true), DirEntry("1.5.0", true)], parse)
         == Ok(Some(Version(2, 0, 0, [], [])))
  {
  }
}
