/** List operations of the Java collections the container relies on. */
module Lists {

  /** `List.removeAll`: the elements of `s`, in order, that are not in `rm`. */
  function RemoveAll<T(==,!new)>(s: seq<T>, rm: set<T>): (r: seq<T>)
    ensures forall x :: x in r <==> x in s && x !in rm
    ensures |r| <= |s|
  {
    if s == [] then []
    else
      var rest := RemoveAll(s[1..], rm);
      assert forall x :: x in s <==> x == s[0] || x in s[1..];
      if s[0] in rm then rest else [s[0]] + rest
  }

  /** The set of elements of a list. */
  function Elements<T(!new)>(s: seq<T>): (r: set<T>)
    ensures forall x :: x in r <==> x in s
  {
    set x | x in s
  }

  lemma ElementsAppend<T(!new)>(s: seq<T>, x: T)
    ensures Elements(s + [x]) == Elements(s) + {x}
  {
  }

  /** Removing two sets one after the other removes their union. */
  lemma {:induction false} RemoveAllTwice<T(!new)>(s: seq<T>, a: set<T>, b: set<T>)
    ensures RemoveAll(RemoveAll(s, a), b) == RemoveAll(s, a + b)
  {
    if s != [] {
      RemoveAllTwice(s[1..], a, b);
    }
  }

  /** Only the elements of `rm` that occur in `s` matter. */
  lemma {:induction false} RemoveAllOnlyPresent<T(!new)>(s: seq<T>, a: set<T>, b: set<T>)
    requires forall x :: x in s ==> (x in a <==> x in b)
    ensures RemoveAll(s, a) == RemoveAll(s, b)
  {
    if s != [] {
      assert forall x :: x in s[1..] ==> x in s;
      RemoveAllOnlyPresent(s[1..], a, b);
    }
  }

  /** Removing nothing that occurs leaves the list unchanged. */
  lemma RemoveAllNothing<T(!new)>(s: seq<T>, rm: set<T>)
    requires forall x :: x in s ==> x !in rm
    ensures RemoveAll(s, rm) == s
  {
    RemoveAllOnlyPresent(s, rm, {});
    RemoveAllEmpty(s);
  }

  lemma {:induction false} RemoveAllEmpty<T(!new)>(s: seq<T>)
    ensures RemoveAll(s, {}) == s
  {
    if s != [] {
      RemoveAllEmpty(s[1..]);
    }
  }

  predicate NoDup<T(==)>(s: seq<T>) {
    forall i, j :: 0 <= i < j < |s| ==> s[i] != s[j]
  }

  lemma HeadNotInTail<T>(s: seq<T>)
    requires NoDup(s) && s != []
    ensures s[0] !in s[1..]
  {
    assert forall k :: 0 <= k < |s| - 1 ==> s[1..][k] == s[k + 1] && s[k + 1] != s[0];
  }

  /** Appending a new element keeps a list duplicate-free. */
  lemma NoDupSnoc<T>(s: seq<T>, x: T)
    requires NoDup(s) && x !in s
    ensures NoDup(s + [x])
  {
    var r := s + [x];
    forall i, j | 0 <= i < j < |r| ensures r[i] != r[j] {
      assert r[i] == s[i];
      if j < |s| {
        assert r[j] == s[j];
      }
    }
  }

  /** Prepending a new element keeps a list duplicate-free. */
  lemma NoDupCons<T>(s: seq<T>, x: T)
    requires NoDup(s) && x !in s
    ensures NoDup([x] + s)
  {
    var r := [x] + s;
    forall i, j | 0 <= i < j < |r| ensures r[i] != r[j] {
      assert r[j] == s[j - 1];
      if i > 0 {
        assert r[i] == s[i - 1];
      }
    }
  }

  /** removeAll keeps a duplicate-free list duplicate-free. */
  lemma {:induction false} RemoveAllNoDup<T(!new)>(s: seq<T>, rm: set<T>)
    requires NoDup(s)
    ensures NoDup(RemoveAll(s, rm))
  {
    if s != [] {
      assert NoDup(s[1..]) by {
        forall i, j | 0 <= i < j < |s[1..]| ensures s[1..][i] != s[1..][j] {
          assert s[1..][i] == s[i + 1] && s[1..][j] == s[j + 1];
        }
      }
      RemoveAllNoDup(s[1..], rm);
      var rest := RemoveAll(s[1..], rm);
      if s[0] !in rm {
        HeadNotInTail(s);
        var r := [s[0]] + rest;
        forall i, j | 0 <= i < j < |r| ensures r[i] != r[j] {
          if i == 0 {
            assert r[j] == rest[j - 1];
          } else {
            assert r[i] == rest[i - 1] && r[j] == rest[j - 1];
          }
        }
      }
    }
  }

  /**
   * In a duplicate-free list, removing every element after the first leaves just the first,
   * and removing every element leaves nothing.
   */
  lemma {:induction false} RemoveAllTail<T(!new)>(s: seq<T>)
    requires NoDup(s) && s != []
    ensures RemoveAll(s, Elements(s[1..])) == [s[0]]
  {
    var tail := Elements(s[1..]);
    HeadNotInTail(s);
    RemoveAllEverything(s[1..], tail);
  }

  lemma {:induction false} RemoveAllEverything<T(!new)>(s: seq<T>, rm: set<T>)
    requires forall x :: x in s ==> x in rm
    ensures RemoveAll(s, rm) == []
  {
    if s != [] {
      RemoveAllEverything(s[1..], rm);
    }
  }
}
