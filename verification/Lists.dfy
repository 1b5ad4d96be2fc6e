/** Lists without repeats, shared by the components. */
module Lists {

  predicate Distinct<T(==)>(s: seq<T>)
  {
    forall i, j :: 0 <= i < j < |s| ==> s[i] != s[j]
  }

  function Elements<T>(s: seq<T>): set<T>
  {
    set x | x in s
  }

  /** The list without the elements of a set, in order. */
  function Without<T(==, !new)>(s: seq<T>, banned: set<T>): (r: seq<T>)
    ensures forall x :: x in r <==> x in s && x !in banned
    ensures |r| <= |s|
  {
    if s == [] then []
    else
      var r := Without(s[..|s| - 1], banned);
      if s[|s| - 1] in banned then r else r + [s[|s| - 1]]
  }

  function AppendUnique<T(==)>(s: seq<T>, x: T): (r: seq<T>)
    ensures Elements(r) == Elements(s) + {x}
    ensures Distinct(s) ==> Distinct(r)
  {
    if x in s then s else s + [x]
  }

  /** The first occurrence of every non-empty string, in order. */
  function Dedup(s: seq<string>): (r: seq<string>)
    ensures Distinct(r) && forall x :: x in r <==> x in s && x != ""
  {
    if s == [] then []
    else
      var r := Dedup(s[..|s| - 1]);
      var last := s[|s| - 1];
      if last == "" || last in r then r else r + [last]
  }

  lemma WithoutStep<T(!new)>(s: seq<T>, i: nat, banned: set<T>)
    requires i < |s|
    ensures Without(s[..i + 1], banned) == Without(s[..i], banned) + if s[i] in banned then [] else [s[i]]
  {
    assert s[..i + 1][..i] == s[..i];
  }

  /** Each element is kept or dropped on its own, and the order stays. */
  lemma {:induction false} WithoutAppend<T(!new)>(a: seq<T>, b: seq<T>, x: T, banned: set<T>)
    ensures Without(a + b, banned) == Without(a, banned) + Without(b, banned)
    ensures Without([x], banned) == if x in banned then [] else [x]
  {
    if b == [] {
      assert a + b == a;
    } else {
      assert (a + b)[..|a + b| - 1] == a + b[..|b| - 1];
      WithoutAppend(a, b[..|b| - 1], x, banned);
    }
  }

  lemma DedupAppend(s: seq<string>, x: string)
    ensures Dedup(s + [x]) == if x == "" || x in s then Dedup(s) else Dedup(s) + [x]
  {
    assert (s + [x])[..|s|] == s;
  }

  lemma {:induction false} WithoutDistinct<T(!new)>(s: seq<T>, banned: set<T>)
    requires Distinct(s)
    ensures Distinct(Without(s, banned))
  {
    if s != [] {
      WithoutDistinct(s[..|s| - 1], banned);
    }
  }

  lemma {:induction false} DistinctSize<T>(s: seq<T>)
    ensures |Elements(s)| <= |s|
    ensures |Elements(s)| == |s| <==> Distinct(s)
  {
    if s != [] {
      var rest := s[..|s| - 1];
      var last := s[|s| - 1];
      DistinctSize(rest);
      assert Elements(s) == Elements(rest) + {last};
      if last in rest {
        var i :| 0 <= i < |rest| && rest[i] == last;
        assert s[i] == s[|s| - 1];
        assert Elements(s) == Elements(rest);
      } else if Distinct(rest) {
        assert Distinct(s);
      } else {
        var i, j :| 0 <= i < j < |rest| && rest[i] == rest[j];
        assert s[i] == s[j];
      }
    }
  }

  lemma SubsetSize<T>(a: set<T>, b: set<T>)
    requires a <= b
    ensures |a| <= |b|
    ensures |a| == |b| <==> a == b
  {
    assert b == a + (b - a);
  }
}
