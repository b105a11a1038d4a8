/**
 * The launcher's search of a directory listing for the highest version of a target name
 * (`target`, `target.jar`, or `target_<version>`).
 */
module Search {
  import opened Wrappers
  import opened Versions

  predicate StartsWith(s: string, prefix: string) {
    |prefix| <= |s| && s[..|prefix|] == prefix
  }

  predicate EndsWith(s: string, suffix: string) {
    |suffix| <= |s| && s[|s| - |suffix|..] == suffix
  }

  /** How a directory entry relates to the target: ignored, or a candidate with its version text. */
  datatype Entry = Skipped | Candidate(version: string, simpleJar: bool)

  /**
   * An entry is a candidate when it starts with the target and is then either the target
   * itself, followed by '_' (the rest is the version), or followed by exactly four more
   * characters ending in ".jar" (a plain jar without a version).
   */
  function Classify(target: string, name: string): (e: Entry)
    ensures e.Candidate? ==> StartsWith(name, target)
    ensures e.Candidate? && e.simpleJar ==> |name| == |target| + 4 && EndsWith(name, ".jar") && e.version == ""
    ensures e.Candidate? && e.version != "" ==> |name| > |target| + 1 && name == target + "_" + e.version
    ensures name == target ==> e == Candidate("", false)
  {
    if !StartsWith(name, target) then Skipped
    else if |name| > |target| && name[|target|] != '_' then
      if |name| == |target| + 4 && EndsWith(name, ".jar") then Candidate("", true) else Skipped
    else
      var version := if |name| > |target| + 1 && name[|target|] == '_' then name[|target| + 1..] else "";
      assert version != "" ==> name == name[..|target|] + [name[|target|]] + version;
      Candidate(version, false)
  }

  /**
   * An entry is accepted when it is a candidate, its version text has elements, and, for a
   * plain jar, the entry is a file.
   */
  predicate Qualifies(target: string, name: string, isFile: string -> bool) {
    var e := Classify(target, name);
    e.Candidate? && VersionElementsOf(e.version).Some? && (!e.simpleJar || isFile(name))
  }

  /** The version elements of an accepted entry. */
  function VersionOfEntry(target: string, name: string, isFile: string -> bool): VersionElements
    requires Qualifies(target, name, isFile)
  {
    VersionElementsOf(Classify(target, name).version).value
  }

  /** Every occurrence of `from` replaced by `to`. */
  function Replace(s: string, from: char, to: char): (r: string)
    ensures |r| == |s|
    ensures forall k :: 0 <= k < |s| ==> r[k] == if s[k] == from then to else s[k]
  {
    if s == [] then [] else [if s[0] == from then to else s[0]] + Replace(s[1..], from, to)
  }

  /** The returned form of a path: separators turned into '/', with a trailing '/'. */
  function Render(path: string, separator: char): (r: string)
    ensures |r| == |path| + 1 && r[|path|] == '/'
    ensures forall k :: 0 <= k < |path| ==> r[k] != separator || separator == '/'
  {
    Replace(path, separator, '/') + "/"
  }

  /**
   * searchFor over the listing of `start` (None when it is not a directory): `isFile` and
   * `absolutePath` stand for File.isFile and File.getAbsolutePath of an entry under `start`.
   * The result is the rendered path of the first entry with the greatest version among the
   * accepted ones, or None when none is accepted.
   */
  method SearchFor(target: string, candidates: Option<seq<string>>, isFile: string -> bool,
                   absolutePath: string -> string, separator: char)
    returns (r: Option<string>)
    ensures r.None? <==> (candidates.None? ||
      forall k :: 0 <= k < |candidates.value| ==> !Qualifies(target, candidates.value[k], isFile))
    ensures r.Some? ==> candidates.Some? && exists k :: (0 <= k < |candidates.value| && IsFirstGreatest(target, candidates.value, isFile, k)
      && r.value == Render(absolutePath(candidates.value[k]), separator))
  {
    if candidates.None? {
      return None;
    }
    var names := candidates.value;
    var result: Option<string> := None;
    var maxVersion: Option<VersionElements> := None;
    ghost var best := 0;
    var i := 0;
    while i < |names|
      invariant 0 <= i <= |names| && SearchedSoFar(target, names, isFile, absolutePath, i, result, maxVersion, best)
    {
      result, maxVersion, best := ConsiderEntry(target, names, isFile, absolutePath, i, result, maxVersion, best);
      i := i + 1;
    }
    if result.None? {
      return None;
    }
    r := Some(Render(result.value, separator));
  }

  /**
   * What the loop of searchFor knows after the first `bound` entries: nothing is found
   * exactly when none of them is accepted, and otherwise `best` is the first accepted one
   * with the greatest version, whose path and version are kept.
   */
  ghost predicate SearchedSoFar(target: string, names: seq<string>, isFile: string -> bool, absolutePath: string -> string,
                                bound: nat, result: Option<string>, maxVersion: Option<VersionElements>, best: nat)
    requires bound <= |names|
  {
    && (result.None? <==> maxVersion.None?)
    && (result.None? <==> forall k :: 0 <= k < bound ==> !Qualifies(target, names[k], isFile))
    && (result.Some? ==> (0 <= best < bound && Qualifies(target, names[best], isFile)
      && result.value == absolutePath(names[best])
      && maxVersion == Some(VersionOfEntry(target, names[best], isFile))
      && GreatestSoFar(target, names, isFile, best, bound)))
  }

  /** One turn of the loop of searchFor: entry `i` replaces the best one when its version is greater. */
  method ConsiderEntry(target: string, names: seq<string>, isFile: string -> bool, absolutePath: string -> string,
                       i: nat, result: Option<string>, maxVersion: Option<VersionElements>, ghost best: nat)
    returns (result': Option<string>, maxVersion': Option<VersionElements>, ghost best': nat)
    requires i < |names| && SearchedSoFar(target, names, isFile, absolutePath, i, result, maxVersion, best)
    ensures SearchedSoFar(target, names, isFile, absolutePath, i + 1, result', maxVersion', best')
  {
    result', maxVersion', best' := result, maxVersion, best;
    var name := names[i];
    var entry := Classify(target, name);
    if entry.Candidate? {
      var current := GetVersionElements(entry.version);
      if current.Some? && CompareVersion(maxVersion, current.value) < 0 {
        if !entry.simpleJar || isFile(name) {
          if maxVersion.Some? {
            NewGreatest(target, names, isFile, best, i);
          } else {
            FirstAccepted(target, names, isFile, i);
          }
          result', maxVersion', best' := Some(absolutePath(name)), current, i;
        } else if result.Some? {
          SkipEntry(target, names, isFile, best, i);
        }
      } else if current.Some? && (!entry.simpleJar || isFile(name)) {
        NotGreater(target, names, isFile, best, i);
      } else if result.Some? {
        SkipEntry(target, names, isFile, best, i);
      }
    } else if result.Some? {
      SkipEntry(target, names, isFile, best, i);
    }
  }

  /** Moving the bound past an entry that is not accepted. */
  lemma SkipEntry(target: string, names: seq<string>, isFile: string -> bool, best: nat, i: nat)
    requires best < i < |names| && Qualifies(target, names[best], isFile) && !Qualifies(target, names[i], isFile)
    requires GreatestSoFar(target, names, isFile, best, i)
    ensures GreatestSoFar(target, names, isFile, best, i + 1)
  {
  }

  /** The first accepted entry is the greatest one so far. */
  lemma FirstAccepted(target: string, names: seq<string>, isFile: string -> bool, i: nat)
    requires i < |names| && Qualifies(target, names[i], isFile)
    requires forall k :: 0 <= k < i ==> !Qualifies(target, names[k], isFile)
    ensures GreatestSoFar(target, names, isFile, i, i + 1)
  {
    var w := VersionOfEntry(target, names[i], isFile);
    CompareVersionZero(w, w);
  }

  /**
   * Entry `best` is accepted, no accepted entry before `bound` has a greater version, and
   * every accepted entry before `best` has a smaller one.
   */
  ghost predicate GreatestSoFar(target: string, names: seq<string>, isFile: string -> bool, best: nat, bound: nat)
    requires best < |names| && bound <= |names| && Qualifies(target, names[best], isFile)
  {
    var v := VersionOfEntry(target, names[best], isFile);
    && (forall j :: 0 <= j < bound && Qualifies(target, names[j], isFile) ==>
          CompareVersion(Some(VersionOfEntry(target, names[j], isFile)), v) <= 0)
    && (forall j :: 0 <= j < best && Qualifies(target, names[j], isFile) ==>
          CompareVersion(Some(VersionOfEntry(target, names[j], isFile)), v) < 0)
  }

  /** Entry `k` is accepted and is the first among the accepted entries with the greatest version. */
  ghost predicate IsFirstGreatest(target: string, names: seq<string>, isFile: string -> bool, k: nat)
  {
    k < |names| && Qualifies(target, names[k], isFile) && GreatestSoFar(target, names, isFile, k, |names|)
  }

  /** Moving the bound past an entry whose version does not exceed the greatest one so far. */
  lemma NotGreater(target: string, names: seq<string>, isFile: string -> bool, best: nat, i: nat)
    requires best < i < |names| && Qualifies(target, names[best], isFile) && Qualifies(target, names[i], isFile)
    requires GreatestSoFar(target, names, isFile, best, i)
    requires CompareVersion(Some(VersionOfEntry(target, names[best], isFile)), VersionOfEntry(target, names[i], isFile)) >= 0
    ensures GreatestSoFar(target, names, isFile, best, i + 1)
  {
    var v := VersionOfEntry(target, names[best], isFile);
    var w := VersionOfEntry(target, names[i], isFile);
    CompareVersionAntisymmetric(w, v);
    CompareVersionZero(v, w);
    CompareVersionZero(w, w);
  }

  /** An entry with a strictly greater version becomes the greatest one so far. */
  lemma NewGreatest(target: string, names: seq<string>, isFile: string -> bool, best: nat, i: nat)
    requires best < i < |names| && Qualifies(target, names[best], isFile) && Qualifies(target, names[i], isFile)
    requires GreatestSoFar(target, names, isFile, best, i)
    requires CompareVersion(Some(VersionOfEntry(target, names[best], isFile)), VersionOfEntry(target, names[i], isFile)) < 0
    ensures GreatestSoFar(target, names, isFile, i, i + 1)
  {
    var v := VersionOfEntry(target, names[best], isFile);
    var w := VersionOfEntry(target, names[i], isFile);
    forall j | 0 <= j < i + 1 && Qualifies(target, names[j], isFile)
      ensures CompareVersion(Some(VersionOfEntry(target, names[j], isFile)), w) <= 0
      ensures j < i ==> CompareVersion(Some(VersionOfEntry(target, names[j], isFile)), w) < 0
    {
      var u := VersionOfEntry(target, names[j], isFile);
      if j == i {
        CompareVersionZero(w, w);
      } else {
        CompareVersionZero(u, v);
        if CompareVersion(Some(u), v) < 0 {
          CompareVersionTransitive(u, v, w);
        }
      }
    }
  }

  /** Two entries that are both the first with the greatest version are the same entry. */
  lemma FirstGreatestUnique(target: string, names: seq<string>, isFile: string -> bool, k: nat, l: nat)
    requires IsFirstGreatest(target, names, isFile, k) && IsFirstGreatest(target, names, isFile, l)
    ensures k == l
  {
    var v := VersionOfEntry(target, names[k], isFile);
    var w := VersionOfEntry(target, names[l], isFile);
    if k < l {
      CompareVersionAntisymmetric(v, w);
    } else if l < k {
      CompareVersionAntisymmetric(w, v);
    }
  }
}
