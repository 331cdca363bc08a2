/** Migration filenames, and the strictly sorted lists the migrate run reads and plans with. */
module Filenames {

  /** A filename, as its place in the order that JavaScript's `<` and SQL's `ORDER BY name` share.
      The run uses nothing of a filename but equality and that order. Places are counted from
      0081_deployment_identity.sql: a negative one sorts below it, a positive one above it. */
  type Filename = int

  const IDENTITY_MIGRATION: Filename := 0

  predicate Sorted(s: seq<Filename>) {
    forall i, j :: 0 <= i < j < |s| ==> s[i] < s[j]
  }

  function Members(s: seq<Filename>): (m: set<Filename>)
    ensures forall x :: x in m <==> x in s
  {
    set x | x in s
  }

  lemma {:induction false} EmptyIff(s: seq<Filename>)
    ensures s == [] <==> forall x :: x !in s
  {
    if s != [] {
      var head := s[0];
      assert head in s;
    }
  }

  lemma PartIff(a: seq<Filename>, b: seq<Filename>)
    ensures Members(a) <= Members(b) <==> forall x :: x in a ==> x in b
  {
    if forall x :: x in a ==> x in b {
      forall x | x in Members(a) ensures x in Members(b) { assert x in a && x in b; }
    }
    if Members(a) <= Members(b) {
      forall x | x in a ensures x in b { assert x in Members(a) && x in Members(b); }
    }
  }

  /** `s.filter(keep)`. */
  function Filter(s: seq<Filename>, keep: Filename -> bool): (r: seq<Filename>)
    ensures forall x :: x in r <==> x in s && keep(x)
  {
    if s == [] then []
    else
      var first, rest := s[0], Filter(s[1..], keep);
      assert s == [first] + s[1..];
      if keep(first) then [first] + rest else rest
  }

  lemma {:induction false} FilterSorted(s: seq<Filename>, keep: Filename -> bool)
    requires Sorted(s)
    ensures Sorted(Filter(s, keep))
  {
    if s != [] {
      var first, rest := s[0], Filter(s[1..], keep);
      FilterSorted(s[1..], keep);
      forall i | 0 <= i < |rest| ensures first < rest[i] {
        var x := rest[i];
        assert x in rest && x in s[1..];
      }
    }
  }

  /** The members of `s` that `drop` does not hold, in their order. */
  function Without(s: seq<Filename>, drop: set<Filename>): (r: seq<Filename>)
    ensures Members(r) == Members(s) - drop
    ensures Sorted(s) ==> Sorted(r)
  {
    var keep := x => x !in drop;
    assert Sorted(s) ==> Sorted(Filter(s, keep)) by {
      if Sorted(s) { FilterSorted(s, keep); }
    }
    Filter(s, keep)
  }

  lemma NoneLeft(s: seq<Filename>, drop: set<Filename>)
    ensures Without(s, drop) == [] <==> Members(s) <= drop
  {
    var left := Without(s, drop);
    EmptyIff(left);
    assert forall x :: x in left <==> x in Members(left);
  }

  /** The least member of a non-empty set. */
  function Least(s: set<Filename>): (m: Filename)
    requires s != {}
    ensures m in s && forall x :: x in s ==> m <= x
  {
    LeastExists(s);
    var m :| m in s && forall x :: x in s ==> m <= x;
    m
  }

  lemma LeastExists(s: set<Filename>)
    requires s != {}
    ensures exists m :: m in s && forall x :: x in s ==> m <= x
  {
    assert (forall x :: x !in s) ==> s == {};
    var e :| e in s;
    var others := s - {e};
    assert forall x :: x in s ==> x == e || x in others;
    if others != {} {
      LeastExists(others);
      var m :| m in others && forall x :: x in others ==> m <= x;
      var least := if e < m then e else m;
      assert least in s && forall x :: x in s ==> least <= x;
    }
  }

  /** `SELECT name ... ORDER BY name`: the set, listed in filename order. */
  function Listed(s: set<Filename>): (r: seq<Filename>)
    ensures Sorted(r) && Members(r) == s
  {
    if s == {} then []
    else
      var m := Least(s);
      var rest := Listed(s - {m});
      assert forall x :: x in rest <==> x in Members(rest);
      assert forall x :: x in [m] + rest <==> x == m || x in rest;
      [m] + rest
  }

  /** A sorted list is determined by its members. */
  lemma {:induction false} SortedUnique(a: seq<Filename>, b: seq<Filename>)
    requires Sorted(a) && Sorted(b) && Members(a) == Members(b)
    ensures a == b
  {
    assert forall i :: 0 <= i < |a| ==> a[i] in Members(a);
    assert forall i :: 0 <= i < |b| ==> b[i] in Members(b);
    if a != [] && b != [] {
      assert a[0] in Members(b) && b[0] in Members(a);
      forall x
        ensures x in Members(a[1..]) <==> x in Members(b[1..])
      {
        TailMembers(a, x);
        TailMembers(b, x);
      }
      SortedUnique(a[1..], b[1..]);
    }
  }

  lemma TailMembers(s: seq<Filename>, x: Filename)
    requires Sorted(s) && s != []
    ensures x in s[1..] <==> x in Members(s) && x != s[0]
  {
    assert s == [s[0]] + s[1..];
  }

  /** Nothing `t` holds beside the members of `a` sorts below one of them. */
  predicate NothingBelow(a: seq<Filename>, t: seq<Filename>) {
    forall x, y :: x in t && x !in a && y in a ==> y < x
  }

  /** A sorted list is a prefix of another exactly when its members are members, and nothing
      else the other list holds sorts below one of them. */
  lemma PrefixIff(a: seq<Filename>, t: seq<Filename>)
    requires Sorted(a) && Sorted(t)
    ensures a <= t <==> Members(a) <= Members(t) && NothingBelow(a, t)
  {
    if a <= t {
      forall x | x in Members(a) ensures x in Members(t) { }
      forall x, y | x in t && x !in a && y in a ensures y < x {
        var i :| 0 <= i < |t| && t[i] == x;
        var j :| 0 <= j < |a| && a[j] == y;
        assert t[j] == y && i >= |a|;
      }
    }
    if Members(a) <= Members(t) && NothingBelow(a, t) {
      DownClosedIsPrefix(a, t);
    }
  }

  lemma {:induction false} DownClosedIsPrefix(a: seq<Filename>, t: seq<Filename>)
    requires Sorted(a) && Sorted(t)
    requires Members(a) <= Members(t) && NothingBelow(a, t)
    ensures a <= t
  {
    if a != [] {
      assert a[0] in Members(a);
      assert t[0] == a[0] by {
        assert t[0] in t;
      }
      var a', t' := a[1..], t[1..];
      forall x | x in Members(a') ensures x in Members(t') {
        TailMembers(a, x);
        TailMembers(t, x);
      }
      forall x, y | x in t' && x !in a' && y in a' ensures y < x {
        assert x in Members(t') && y in Members(a');
        TailMembers(a, x);
        TailMembers(t, x);
        TailMembers(a, y);
      }
      DownClosedIsPrefix(a', t');
      assert a == [a[0]] + a' && t == [t[0]] + t';
    }
  }

  /** What a prefix leaves of a sorted list is its tail. */
  lemma WithoutPrefix(a: seq<Filename>, t: seq<Filename>)
    requires Sorted(t) && a <= t
    ensures Without(t, Members(a)) == t[|a|..]
  {
    var rest := t[|a|..];
    assert t == a + rest;
    forall x
      ensures x in Members(rest) <==> x in Members(t) - Members(a)
    {
      assert x in t <==> x in a || x in rest;
      if x in rest {
        var j :| 0 <= j < |rest| && rest[j] == x;
        assert forall i :: 0 <= i < |a| ==> a[i] == t[i] && t[i] < t[|a| + j];
      }
    }
    SortedUnique(Without(t, Members(a)), rest);
  }
}
