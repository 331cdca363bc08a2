/** Splitting, trimming and searching strings, as the scripts do. */
module TextLines {

  function Split(s: string, c: char): (r: seq<string>)
    ensures r != []
  {
    if s == [] then [""]
    else
      var rest := Split(s[1..], c);
      if s[0] == c then [""] + rest else [[s[0]] + rest[0]] + rest[1..]
  }

  function JoinWith(parts: seq<string>, c: char): string
    requires parts != []
  {
    if |parts| == 1 then parts[0] else parts[0] + [c] + JoinWith(parts[1..], c)
  }

  lemma {:induction false} SplitOne(s: string, c: char)
    requires c !in s
    ensures Split(s, c) == [s]
    decreases |s|
  {
    if s != [] {
      assert s[0] in s;
      SplitOne(s[1..], c);
      assert [s[0]] + s[1..] == s;
    }
  }

  lemma {:induction false} SplitFirst(s: string, c: char, rest: string)
    requires c !in s
    ensures Split(s + [c] + rest, c) == [s] + Split(rest, c)
    decreases |s|
  {
    var all := s + [c] + rest;
    if s == [] {
      assert all[1..] == rest;
    } else {
      assert all[0] == s[0] && s[0] in s;
      assert all[1..] == s[1..] + [c] + rest;
      SplitFirst(s[1..], c, rest);
      assert [s[0]] + s[1..] == s;
      assert ([s[1..]] + Split(rest, c))[1..] == Split(rest, c);
    }
  }

  /** Splitting undoes joining, for parts without the separator. */
  lemma {:induction false} SplitsJoined(parts: seq<string>, c: char)
    requires parts != [] && forall p :: p in parts ==> c !in p
    ensures Split(JoinWith(parts, c), c) == parts
    decreases |parts|
  {
    assert parts[0] in parts;
    if |parts| == 1 {
      SplitOne(parts[0], c);
    } else {
      SplitsJoined(parts[1..], c);
      SplitFirst(parts[0], c, JoinWith(parts[1..], c));
    }
  }

  function LowerChar(c: char): char {
    if 'A' <= c <= 'Z' then (c as int + 32) as char else c
  }

  /** The twenty-six capital letters, and no other character. */
  lemma LowerExact(c: char)
    ensures forall i :: 0 <= i < 26 ==> LowerChar("ABCDEFGHIJKLMNOPQRSTUVWXYZ"[i]) == "abcdefghijklmnopqrstuvwxyz"[i]
    ensures c !in "ABCDEFGHIJKLMNOPQRSTUVWXYZ" ==> LowerChar(c) == c
  {
    var capitals, small := "ABCDEFGHIJKLMNOPQRSTUVWXYZ", "abcdefghijklmnopqrstuvwxyz";
    Run(capitals, 'A', c);
    Run(small, 'a', c);
  }

  /** The characters of a run without gaps. */
  lemma Run(run: string, first: char, c: char)
    requires forall i :: 0 <= i < |run| ==> run[i] as int == first as int + i
    ensures c in run <==> first as int <= c as int < first as int + |run|
  {
    if first as int <= c as int < first as int + |run| { assert run[c as int - first as int] == c; }
  }

  function LowerAscii(s: string): (r: string)
    ensures |r| == |s| && forall i :: 0 <= i < |r| ==> r[i] == LowerChar(s[i])
  {
    seq(|s|, i requires 0 <= i < |s| => LowerChar(s[i]))
  }

  predicate StartsWith(s: string, head: string) {
    |s| >= |head| && s[..|head|] == head
  }

  predicate EndsWith(s: string, tail: string) {
    |s| >= |tail| && s[|s| - |tail|..] == tail
  }

  /** Whatever stands before or after it, nothing included. */
  lemma EndsExact(before: string, part: string, after: string)
    ensures StartsWith(part + after, part) && EndsWith(before + part, part)
  {
  }

  predicate Includes(s: string, part: string) {
    StartsWith(s, part) || (s != [] && Includes(s[1..], part))
  }

  predicate StandsAt(s: string, part: string, i: nat) {
    i + |part| <= |s| && s[i..i + |part|] == part
  }

  /** It stands somewhere in it. */
  lemma {:induction false} IncludesExact(s: string, part: string)
    ensures Includes(s, part) <==> exists i :: StandsAt(s, part, i)
    decreases |s|
  {
    assert StandsAt(s, part, 0) <==> StartsWith(s, part) by { if |part| <= |s| { assert s[0..|part|] == s[..|part|]; } }
    if s != [] {
      IncludesExact(s[1..], part);
      forall i: nat ensures StandsAt(s[1..], part, i) <==> StandsAt(s, part, i + 1) {
        if i + |part| <= |s[1..]| { assert s[1..][i..i + |part|] == s[i + 1..i + 1 + |part|]; }
      }
      if exists i :: StandsAt(s, part, i) {
        var i: nat :| StandsAt(s, part, i);
        if i > 0 { assert StandsAt(s[1..], part, i - 1); }
      }
    }
  }

  /** The white space of trim() and of a pattern's \s, by code. */
  predicate IsSpaceCode(u: int) {
    9 <= u <= 13 || u == 32 || u == 0xA0 || u == 0x1680 || 0x2000 <= u <= 0x200A || u == 0x2028 || u == 0x2029
    || u == 0x202F || u == 0x205F || u == 0x3000 || u == 0xFEFF
  }

  predicate IsSpace(c: char) { IsSpaceCode(c as int) }

  /** They are these twenty-five. */
  lemma SpacesAre(u: int)
    ensures IsSpaceCode(u) <==>
            u in [0x9, 0xA, 0xB, 0xC, 0xD, 0x20, 0xA0, 0x1680, 0x2000, 0x2001, 0x2002, 0x2003, 0x2004, 0x2005, 0x2006, 0x2007,
                  0x2008, 0x2009, 0x200A, 0x2028, 0x2029, 0x202F, 0x205F, 0x3000, 0xFEFF]
  {
  }

  predicate AllSpace(s: string) { forall i :: 0 <= i < |s| ==> IsSpace(s[i]) }

  function TrimStart(s: string): string {
    if s != [] && IsSpace(s[0]) then TrimStart(s[1..]) else s
  }

  function TrimEnd(s: string): string {
    if s != [] && IsSpace(s[|s| - 1]) then TrimEnd(s[..|s| - 1]) else s
  }

  function Trim(s: string): string {
    TrimEnd(TrimStart(s))
  }

  /** White space in front is taken off, and nothing else. */
  lemma {:induction false} TrimStartExact(space: string, s: string)
    requires AllSpace(space) && (s == [] || !IsSpace(s[0]))
    ensures TrimStart(space + s) == s
    decreases |space|
  {
    if space == [] {
      assert space + s == s;
    } else {
      assert (space + s)[1..] == space[1..] + s && (space + s)[0] == space[0];
      TrimStartExact(space[1..], s);
    }
  }

  lemma {:induction false} TrimEndExact(s: string, space: string)
    requires AllSpace(space) && (s == [] || !IsSpace(s[|s| - 1]))
    ensures TrimEnd(s + space) == s
    decreases |space|
  {
    if space == [] {
      assert s + space == s;
    } else {
      var n := |space| - 1;
      assert (s + space)[..|s| + n] == s + space[..n] && (s + space)[|s| + n] == space[n];
      TrimEndExact(s, space[..n]);
    }
  }

  /** White space at both ends is taken off, and nothing else. */
  lemma TrimExact(before: string, s: string, after: string)
    requires AllSpace(before) && AllSpace(after) && (s == [] || Trimmed(s))
    ensures Trim(before + s + after) == s
  {
    if s == [] {
      assert before + s + after == (before + after) + s;
      TrimStartExact(before + after, s);
    } else {
      assert before + s + after == before + (s + after);
      TrimStartExact(before, s + after);
      TrimEndExact(s, after);
    }
  }

  /** Neither empty nor with white space at an end. */
  predicate Trimmed(s: string) {
    s != [] && !IsSpace(s[0]) && !IsSpace(s[|s| - 1])
  }

  lemma TrimKeeps(s: string)
    requires Trimmed(s)
    ensures Trim(s) == s && Trim(s + "\t") == s
  {
    assert (s + "\t")[0] == s[0];
    assert TrimStart(s + "\t") == s + "\t";
    assert (s + "\t")[..|s|] == s;
    assert TrimEnd(s) == s;
  }
}
