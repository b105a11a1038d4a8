/**
 * The launcher's split of the installed bundles into those it installed from the initial
 * bundle list (location prefix "initial@") and the others.
 */
module StartupBundles {

  const InitialLocation: string := "initial@"

  /** An installed bundle as the launcher sees it: its id and its location. */
  datatype Bundle = Bundle(id: nat, location: string)

  predicate StartsWith(s: string, prefix: string) {
    |prefix| <= |s| && s[..|prefix|] == prefix
  }

  predicate IsInitial(b: Bundle) {
    StartsWith(b.location, InitialLocation)
  }

  /**
   * Which bundles a call keeps: with `includeInitial`, the initial ones; without, the others
   * except the system bundle (id 0).
   */
  predicate Selected(b: Bundle, includeInitial: bool) {
    if IsInitial(b) then includeInitial else !includeInitial && b.id != 0
  }

  /** The selected bundles of a list, in list order. */
  function FilterSelected(installed: seq<Bundle>, includeInitial: bool): seq<Bundle> {
    if installed == [] then []
    else
      var rest := FilterSelected(installed[1..], includeInitial);
      if Selected(installed[0], includeInitial) then [installed[0]] + rest else rest
  }

  /** getCurrentBundles over the bundles the context lists, collecting into a growing list. */
  method GetCurrentBundles(installed: seq<Bundle>, includeInitial: bool) returns (r: seq<Bundle>)
    ensures r == FilterSelected(installed, includeInitial)
  {
    var initial: seq<Bundle> := [];
    var i := 0;
    assert installed[0..] == installed;
    while i < |installed|
      invariant 0 <= i <= |installed|
      invariant initial + FilterSelected(installed[i..], includeInitial) == FilterSelected(installed, includeInitial)
    {
      assert installed[i..][1..] == installed[i + 1..];
      var bundle := installed[i];
      if IsInitial(bundle) {
        if includeInitial {
          initial := initial + [bundle];
        }
      } else if !includeInitial && bundle.id != 0 {
        initial := initial + [bundle];
      }
      i := i + 1;
    }
    r := initial;
  }

  /** A bundle is returned exactly when it is installed and selected. */
  lemma {:induction false} FilterSelectedMembers(installed: seq<Bundle>, includeInitial: bool)
    ensures forall b :: b in FilterSelected(installed, includeInitial) <==> b in installed && Selected(b, includeInitial)
  {
    if installed != [] {
      FilterSelectedMembers(installed[1..], includeInitial);
      assert forall b :: b in installed <==> b == installed[0] || b in installed[1..];
    }
  }

  /** `sub` lists some of the elements of `s`, in the same order. */
  predicate IsSubsequence(sub: seq<Bundle>, s: seq<Bundle>)
    decreases |s|
  {
    if sub == [] then true
    else if s == [] then false
    else if sub[0] == s[0] then IsSubsequence(sub[1..], s[1..])
    else IsSubsequence(sub, s[1..])
  }

  /** The returned bundles keep the order of the installed list. */
  lemma {:induction false} FilterSelectedOrdered(installed: seq<Bundle>, includeInitial: bool)
    ensures IsSubsequence(FilterSelected(installed, includeInitial), installed)
  {
    if installed != [] {
      FilterSelectedOrdered(installed[1..], includeInitial);
      var rest := FilterSelected(installed[1..], includeInitial);
      if Selected(installed[0], includeInitial) {
        assert ([installed[0]] + rest)[1..] == rest;
      } else {
        SubsequenceOfTail(rest, installed);
      }
    }
  }

  /** A subsequence of the tail is a subsequence of the whole list. */
  lemma {:induction false} SubsequenceOfTail(sub: seq<Bundle>, s: seq<Bundle>)
    requires s != [] && IsSubsequence(sub, s[1..])
    ensures IsSubsequence(sub, s)
    decreases |s|, |sub|
  {
    if sub != [] && sub[0] == s[0] {
      SubsequenceDropFirst(sub, s[1..]);
    }
  }

  /** Dropping the first element of a subsequence leaves a subsequence. */
  lemma {:induction false} SubsequenceDropFirst(sub: seq<Bundle>, t: seq<Bundle>)
    requires sub != [] && IsSubsequence(sub, t)
    ensures IsSubsequence(sub[1..], t)
    decreases |t|, |sub|
  {
    if sub[0] == t[0] {
      if sub[1..] != [] {
        SubsequenceOfTail(sub[1..], t);
      }
    } else {
      SubsequenceDropFirst(sub, t[1..]);
      if sub[1..] != [] {
        SubsequenceOfTail(sub[1..], t);
      }
    }
  }

  /**
   * The two calls partition every installed bundle but the system bundle at a non-initial
   * location: each such bundle is returned by exactly one of them.
   */
  lemma CurrentBundlesPartition(installed: seq<Bundle>, b: Bundle)
    requires b in installed && (IsInitial(b) || b.id != 0)
    ensures b in FilterSelected(installed, true) <==> b !in FilterSelected(installed, false)
  {
    FilterSelectedMembers(installed, true);
    FilterSelectedMembers(installed, false);
  }

  /** The system bundle is returned by neither call unless its location is an initial one. */
  lemma SystemBundleNeverCurrent(installed: seq<Bundle>, includeInitial: bool)
    ensures forall b :: b in FilterSelected(installed, includeInitial) && !IsInitial(b) ==> b.id != 0
  {
    FilterSelectedMembers(installed, includeInitial);
  }
}
