/** The order of strings, unit by unit, and what sorting by it gives. */
module StringOrder {

  /** Strictly before, in dictionary order. */
  predicate Before(a: string, b: string) {
    if b == [] then false
    else if a == [] then true
    else if a[0] != b[0] then a[0] < b[0]
    else Before(a[1..], b[1..])
  }

  predicate NotAfter(a: string, b: string) {
    !Before(b, a)
  }

  lemma {:induction false} OneIsBefore(a: string, b: string)
    ensures Before(a, b) || Before(b, a) || a == b
    ensures !(Before(a, b) && Before(b, a))
    ensures !Before(a, a)
    decreases |a|
  {
    if a != [] {
      OneIsBefore(a[1..], a[1..]);
      if b != [] {
        OneIsBefore(a[1..], b[1..]);
        assert a[0] == b[0] && a[1..] == b[1..] ==> a == [a[0]] + a[1..] == [b[0]] + b[1..] == b;
      }
    }
  }

  lemma {:induction false} BeforeTransitive(a: string, b: string, c: string)
    requires Before(a, b) && Before(b, c)
    ensures Before(a, c)
    decreases |a|
  {
    if a != [] && a[0] == b[0] == c[0] { BeforeTransitive(a[1..], b[1..], c[1..]); }
  }

  lemma NotAfterTransitive(a: string, b: string, c: string)
    requires NotAfter(a, b) && NotAfter(b, c)
    ensures NotAfter(a, c)
  {
    OneIsBefore(a, b);
    OneIsBefore(b, c);
    if Before(c, a) {
      if a != b && b != c {
        BeforeTransitive(a, b, c);
        OneIsBefore(a, c);
      }
    }
  }

  // ── Sorting ───────────────────────────────────────────────────────────────────────────────

  predicate InOrder(s: seq<string>) {
    forall i, j :: 0 <= i < j < |s| ==> NotAfter(s[i], s[j])
  }

  function Insert(x: string, s: seq<string>): seq<string> {
    if s == [] then [x] else if Before(x, s[0]) then [x] + s else [s[0]] + Insert(x, s[1..])
  }

  /** The sorted list. */
  function Sort(s: seq<string>): seq<string> {
    if s == [] then [] else Insert(s[0], Sort(s[1..]))
  }

  lemma {:induction false} InsertPermutes(x: string, s: seq<string>)
    ensures multiset(Insert(x, s)) == multiset(s) + multiset{x}
    decreases |s|
  {
    if s != [] {
      assert s == [s[0]] + s[1..];
      InsertPermutes(x, s[1..]);
    }
  }

  lemma {:induction false} SortPermutes(s: seq<string>)
    ensures multiset(Sort(s)) == multiset(s)
    decreases |s|
  {
    if s != [] {
      assert s == [s[0]] + s[1..];
      SortPermutes(s[1..]);
      InsertPermutes(s[0], Sort(s[1..]));
    }
  }

  lemma {:induction false} InsertInOrder(x: string, s: seq<string>)
    requires InOrder(s)
    ensures InOrder(Insert(x, s))
    decreases |s|
  {
    if s != [] {
      OneIsBefore(x, s[0]);
      if Before(x, s[0]) {
        forall i | 0 <= i < |s| ensures NotAfter(x, s[i]) {
          if i > 0 { NotAfterTransitive(x, s[0], s[i]); }
        }
      } else {
        var rest := Insert(x, s[1..]);
        InsertInOrder(x, s[1..]);
        InsertPermutes(x, s[1..]);
        forall i | 0 <= i < |rest| ensures NotAfter(s[0], rest[i]) {
          assert rest[i] in multiset(rest);
          assert rest[i] == x || rest[i] in s[1..];
        }
      }
    }
  }

  lemma {:induction false} SortsInOrder(s: seq<string>)
    ensures InOrder(Sort(s))
    decreases |s|
  {
    if s != [] {
      SortsInOrder(s[1..]);
      InsertInOrder(s[0], Sort(s[1..]));
    }
  }

  /** Two lists sort to the same list exactly when they are permutations of each other. */
  lemma SameSort(a: seq<string>, b: seq<string>)
    ensures Sort(a) == Sort(b) <==> multiset(a) == multiset(b)
  {
    SortsInOrder(a);
    SortsInOrder(b);
    SortPermutes(a);
    SortPermutes(b);
    if multiset(a) == multiset(b) { OneOrder(Sort(a), Sort(b)); }
  }

  lemma {:induction false} OneOrder(a: seq<string>, b: seq<string>)
    requires InOrder(a) && InOrder(b) && multiset(a) == multiset(b)
    ensures a == b
    decreases |a|
  {
    assert |a| == |multiset(a)| && |b| == |multiset(b)|;
    if a != [] {
      FirstIsLeast(a, b);
      FirstIsLeast(b, a);
      OneIsBefore(a[0], b[0]);
      assert a[0] == b[0];
      assert a == [a[0]] + a[1..] && b == [b[0]] + b[1..];
      assert multiset(a[1..]) == multiset(a) - multiset{a[0]};
      assert multiset(b[1..]) == multiset(b) - multiset{a[0]};
      OneOrder(a[1..], b[1..]);
    }
  }

  lemma FirstIsLeast(a: seq<string>, b: seq<string>)
    requires InOrder(a) && multiset(a) == multiset(b) && a != [] && b != []
    ensures NotAfter(a[0], b[0])
  {
    OneIsBefore(a[0], a[0]);
    assert b[0] in multiset(a);
    var k :| 0 <= k < |a| && a[k] == b[0];
  }

  // ── Lists without repeats ─────────────────────────────────────────────────────────────────

  predicate NoRepeats<T(==)>(s: seq<T>) {
    forall i, j :: 0 <= i < j < |s| ==> s[i] != s[j]
  }

  /** A list is a permutation of one without repeats exactly when it has the same members and no repeats. */
  lemma PermutesDistinct(a: seq<string>, b: seq<string>)
    requires NoRepeats(b)
    ensures multiset(a) == multiset(b) <==> NoRepeats(a) && forall x :: x in a <==> x in b
  {
    if multiset(a) == multiset(b) {
      OnceEach(b);
      assert forall x :: x in a <==> x in multiset(a);
      assert forall x :: x in b <==> x in multiset(b);
      OnceMeansDistinct(a);
    }
    if NoRepeats(a) && forall x :: x in a <==> x in b { SameMembers(a, b); }
  }

  lemma SameMembers(a: seq<string>, b: seq<string>)
    requires NoRepeats(a) && NoRepeats(b) && forall x :: x in a <==> x in b
    ensures multiset(a) == multiset(b)
  {
    OnceEach(a);
    OnceEach(b);
    assert forall x :: multiset(a)[x] == multiset(b)[x];
  }

  lemma {:induction false} OnceEach(s: seq<string>)
    requires NoRepeats(s)
    ensures forall x :: multiset(s)[x] == if x in s then 1 else 0
    decreases |s|
  {
    if s != [] {
      assert s == [s[0]] + s[1..];
      OnceEach(s[1..]);
      assert s[0] !in s[1..];
    }
  }

  lemma {:induction false} OnceMeansDistinct(s: seq<string>)
    requires forall x :: x in s ==> multiset(s)[x] == 1
    ensures NoRepeats(s)
    decreases |s|
  {
    forall i, j | 0 <= i < j < |s| ensures s[i] != s[j] {
      assert s == s[..j] + s[j..];
      assert s[i] in s[..j] && s[j] in s[j..];
      assert multiset(s)[s[i]] == multiset(s[..j])[s[i]] + multiset(s[j..])[s[i]];
    }
  }

  // ── Joining with commas ───────────────────────────────────────────────────────────────────

  function Join(s: seq<string>): string {
    if s == [] then "" else if |s| == 1 then s[0] else s[0] + "," + Join(s[1..])
  }

  ghost predicate CommaFree(s: seq<string>) {
    forall x :: x in s ==> ',' !in x
  }

  /** The first place a string has this character, or its length. */
  function FirstOf(s: string, c: char): (r: nat)
    ensures r <= |s|
  {
    if s == [] || s[0] == c then 0 else 1 + FirstOf(s[1..], c)
  }

  lemma {:induction false} FoundThere(x: string, c: char, xs: string)
    requires c !in x
    ensures FirstOf(x + [c] + xs, c) == |x| && FirstOf(x, c) == |x|
    decreases |x|
  {
    var s := x + [c] + xs;
    if x != [] {
      assert s[0] == x[0] && x[0] in x;
      assert s[1..] == x[1..] + [c] + xs;
      FoundThere(x[1..], c, xs);
    }
  }

  /** A string splits at the first place of a character in one way. */
  lemma SplitAt(c: char, x: string, xs: string, y: string, ys: string)
    requires c !in x && c !in y
    ensures x + [c] + xs == y + [c] + ys <==> x == y && xs == ys
  {
    var a, b := x + [c] + xs, y + [c] + ys;
    FoundThere(x, c, xs);
    FoundThere(y, c, ys);
    assert a[..|x|] == x && b[..|y|] == y;
    assert a[|x| + 1..] == xs && b[|y| + 1..] == ys;
  }

  lemma OneIsNotMore(x: string, y: string, ys: string)
    requires ',' !in x && ',' !in y
    ensures x != y + "," + ys
  {
    FoundThere(x, ',', []);
    FoundThere(y, ',', ys);
    assert |y + "," + ys| > |y|;
  }

  /** The lists joining cannot tell apart: none, and one empty string. */
  predicate JoinAlike(a: seq<string>, b: seq<string>) {
    a == b || (a == [] && b == [""]) || (a == [""] && b == [])
  }

  /** Joining tells comma-free lists apart, but for the empty list and the list of one empty string. */
  lemma {:induction false} JoinTellsApart(a: seq<string>, b: seq<string>)
    requires CommaFree(a) && CommaFree(b)
    ensures Join(a) == Join(b) <==> JoinAlike(a, b)
    decreases |a|
  {
    if a != [] && b != [] {
      assert a[0] in a && b[0] in b;
      assert a == [a[0]] + a[1..] && b == [b[0]] + b[1..];
      if |a| > 1 && |b| > 1 {
        JoinTellsApart(a[1..], b[1..]);
        SplitAt(',', a[0], Join(a[1..]), b[0], Join(b[1..]));
      } else if |a| > 1 {
        OneIsNotMore(b[0], a[0], Join(a[1..]));
      } else if |b| > 1 {
        OneIsNotMore(a[0], b[0], Join(b[1..]));
      }
    } else {
      EmptyJoins(a);
      EmptyJoins(b);
    }
  }

  lemma EmptyJoins(a: seq<string>)
    ensures Join(a) == "" <==> a == [] || a == [""]
  {
    if |a| == 1 { assert a == [a[0]]; }
  }

  /** Two comma-free lists of names, none of them empty, join alike only if they are the same list. */
  lemma JoinIsInjective(a: seq<string>, b: seq<string>)
    requires CommaFree(a) && CommaFree(b) && "" !in a && "" !in b
    ensures Join(a) == Join(b) <==> a == b
  {
    JoinTellsApart(a, b);
    assert "" in [""];
  }
}
