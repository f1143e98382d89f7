/** Sequence helpers shared by the models: flattening, substring search, splitting and joining. */
module Seqs {
  datatype Option<+T> = None | Some(value: T)

  function Flatten<T>(parts: seq<seq<T>>): seq<T> {
    if parts == [] then [] else parts[0] + Flatten(parts[1..])
  }

  lemma {:induction false} FlattenAppend<T>(a: seq<seq<T>>, b: seq<seq<T>>)
    ensures Flatten(a + b) == Flatten(a) + Flatten(b)
  {
    if a == [] {
      assert a + b == b;
    } else {
      FlattenAppend(a[1..], b);
      assert (a + b)[1..] == a[1..] + b;
      Regroup(a[0], Flatten(a[1..]), Flatten(b));
    }
  }

  lemma FlattenPush<T>(a: seq<seq<T>>, x: seq<T>)
    ensures Flatten(a + [x]) == Flatten(a) + x
  {
    FlattenAppend(a, [x]);
    assert Flatten([x]) == x + Flatten<T>([]);
  }

  lemma Regroup<T>(a: seq<T>, b: seq<T>, c: seq<T>)
    ensures a + (b + c) == a + b + c
  {
  }

  /** `pat` occurs in `s` at position `k`. */
  predicate OccursAt<T(==)>(s: seq<T>, pat: seq<T>, k: int) {
    0 <= k && k + |pat| <= |s| && s[k..k + |pat|] == pat
  }

  lemma OccursInTail<T>(s: seq<T>, pat: seq<T>, j: nat)
    requires s != [] && j > 0
    ensures OccursAt(s, pat, j) <==> OccursAt(s[1..], pat, j - 1)
  {
    if j + |pat| <= |s| {
      assert s[1..][j - 1..j - 1 + |pat|] == s[j..j + |pat|];
    }
  }

  lemma NotBeforeTail<T>(s: seq<T>, pat: seq<T>, n: nat)
    requires s != [] && !(pat <= s)
    requires forall j :: 0 <= j < n ==> !OccursAt(s[1..], pat, j)
    ensures forall j :: 0 <= j < n + 1 ==> !OccursAt(s, pat, j)
  {
    forall j | 0 <= j < n + 1
      ensures !OccursAt(s, pat, j)
    {
      if j > 0 {
        OccursInTail(s, pat, j);
      } else {
        assert OccursAt(s, pat, 0) ==> pat <= s;
      }
    }
  }

  /** JavaScript's `indexOf` and Go's `strings.Index`: the first occurrence, or -1. */
  function IndexOf<T(==)>(s: seq<T>, pat: seq<T>): (k: int)
    ensures k == -1 || OccursAt(s, pat, k)
    ensures forall j :: 0 <= j < (if k == -1 then |s| + 1 else k) ==> !OccursAt(s, pat, j)
  {
    if pat <= s then
      assert s[0..0 + |pat|] == pat;
      0
    else if s == [] then -1
    else
      var k := IndexOf(s[1..], pat);
      NotBeforeTail(s, pat, if k == -1 then |s| else k);
      if k == -1 then -1
      else
        OccursInTail(s, pat, k + 1);
        k + 1
  }

  lemma IndexOfFirst<T>(s: seq<T>, pat: seq<T>, k: nat)
    requires OccursAt(s, pat, k)
    requires forall j :: 0 <= j < k ==> !OccursAt(s, pat, j)
    ensures IndexOf(s, pat) == k
  {
  }

  /** The first occurrence does not move when text arrives behind it. */
  lemma IndexOfStable<T>(a: seq<T>, b: seq<T>, pat: seq<T>)
    requires IndexOf(a, pat) != -1
    ensures IndexOf(a + b, pat) == IndexOf(a, pat)
  {
    var k := IndexOf(a, pat);
    assert (a + b)[k..k + |pat|] == a[k..k + |pat|];
    forall j | 0 <= j < k
      ensures !OccursAt(a + b, pat, j)
    {
      assert !OccursAt(a, pat, j);
      assert (a + b)[j..j + |pat|] == a[j..j + |pat|];
    }
    IndexOfFirst(a + b, pat, k);
  }

  /** JavaScript's `split` and Go's `strings.Split` on a one-character separator. */
  function Split(s: string, sep: char): (parts: seq<string>)
    ensures parts != []
    ensures forall p :: p in parts ==> sep !in p
    ensures Join(parts, sep) == s
  {
    if s == "" then
      [""]
    else
      var rest := Split(s[1..], sep);
      if s[0] == sep then
        assert ([""] + rest)[1..] == rest;
        [""] + rest
      else
        var parts := [[s[0]] + rest[0]] + rest[1..];
        assert parts[1..] == rest[1..];
        assert s == [s[0]] + s[1..];
        parts
  }

  function Join(parts: seq<string>, sep: char): string {
    if parts == [] then "" else if |parts| == 1 then parts[0] else parts[0] + [sep] + Join(parts[1..], sep)
  }

  lemma SplitFirst(c: char, s: string, sep: char)
    ensures Split([c] + s, sep)
         == if c == sep then [""] + Split(s, sep) else [[c] + Split(s, sep)[0]] + Split(s, sep)[1..]
  {
    assert ([c] + s)[1..] == s;
  }

  lemma JoinFirst(parts: seq<string>, sep: char)
    requires parts != [] && parts[0] != ""
    ensures Join(parts, sep) == [parts[0][0]] + Join([parts[0][1..]] + parts[1..], sep)
  {
    var shorter := [parts[0][1..]] + parts[1..];
    assert shorter[1..] == parts[1..];
    assert parts[0] == [parts[0][0]] + parts[0][1..];
  }

  /** Splitting undoes joining when no part contains the separator. */
  lemma {:induction false} SplitJoin(parts: seq<string>, sep: char)
    requires parts != [] && forall p :: p in parts ==> sep !in p
    ensures Split(Join(parts, sep), sep) == parts
    decreases |parts|, |parts[0]|
  {
    assert forall p :: p in parts[1..] ==> p in parts;
    assert parts == [parts[0]] + parts[1..];
    if parts[0] == "" {
      if |parts| > 1 {
        assert Join(parts, sep) == [sep] + Join(parts[1..], sep);
        SplitFirst(sep, Join(parts[1..], sep), sep);
        SplitJoin(parts[1..], sep);
      }
    } else {
      var first := parts[0];
      var shorter := [first[1..]] + parts[1..];
      assert sep !in first;
      JoinFirst(parts, sep);
      SplitFirst(first[0], Join(shorter, sep), sep);
      SplitJoin(shorter, sep);
      assert first == [first[0]] + first[1..];
    }
  }

  /** Two lists with the same elements keep the same elements when the same one is removed. */
  lemma SameRest<T>(a: seq<T>, b: seq<T>, k: nat)
    requires multiset(a) == multiset(b) && a != [] && k < |b| && b[k] == a[0]
    ensures multiset(a[1..]) == multiset(b[..k] + b[k + 1..])
  {
    assert a == [a[0]] + a[1..];
    assert b == b[..k] + [b[k]] + b[k + 1..];
    assert multiset(b[..k] + b[k + 1..]) == multiset(b) - multiset{b[k]};
  }

  // ----- Filters

  function Filter<T>(s: seq<T>, keep: T -> bool): seq<T> {
    if s == [] then []
    else Filter(s[..|s| - 1], keep) + if keep(s[|s| - 1]) then [s[|s| - 1]] else []
  }

  lemma FilterPush<T>(s: seq<T>, x: T, keep: T -> bool)
    ensures Filter(s + [x], keep) == Filter(s, keep) + if keep(x) then [x] else []
  {
    assert (s + [x])[..|s|] == s;
  }

  lemma {:induction false} FilterAppend<T>(a: seq<T>, b: seq<T>, keep: T -> bool)
    ensures Filter(a + b, keep) == Filter(a, keep) + Filter(b, keep)
  {
    if b == [] {
      assert a + b == a && Filter(a, keep) + [] == Filter(a, keep);
    } else {
      var n := |b| - 1;
      FilterAppend(a, b[..n], keep);
      assert (a + b)[..|a| + n] == a + b[..n];
      Regroup(Filter(a, keep), Filter(b[..n], keep), if keep(b[n]) then [b[n]] else []);
    }
  }

  lemma {:induction false} FilterMembers<T>(s: seq<T>, keep: T -> bool)
    ensures forall x :: x in Filter(s, keep) <==> x in s && keep(x)
  {
    if s != [] {
      FilterMembers(s[..|s| - 1], keep);
      assert s == s[..|s| - 1] + [s[|s| - 1]];
    }
  }

  lemma {:induction false} FilterNone<T>(s: seq<T>, keep: T -> bool)
    requires forall x :: x in s ==> !keep(x)
    ensures Filter(s, keep) == []
  {
    if s != [] {
      FilterNone(s[..|s| - 1], keep);
    }
  }

  lemma {:induction false} FilterAll<T>(s: seq<T>, keep: T -> bool)
    requires forall x :: x in s ==> keep(x)
    ensures Filter(s, keep) == s
  {
    if s != [] {
      var front, last := s[..|s| - 1], s[|s| - 1];
      assert last in s;
      FilterAll(front, keep);
      FilterPush(front, last, keep);
      assert front + [last] == s;
    }
  }

  /** What one filter keeps is, as a multiset, what two exclusive ones keep between them. */
  lemma {:induction false} FilterEither<T(!new)>(s: seq<T>, keep: T -> bool, k1: T -> bool, k2: T -> bool)
    requires forall x :: (keep(x) <==> k1(x) || k2(x)) && !(k1(x) && k2(x))
    ensures multiset(Filter(s, keep)) == multiset(Filter(s, k1)) + multiset(Filter(s, k2))
  {
    if s != [] {
      FilterEither(s[..|s| - 1], keep, k1, k2);
    }
  }

  lemma {:induction false} FilterFilter<T(!new)>(s: seq<T>, first: T -> bool, second: T -> bool, both: T -> bool)
    requires forall x :: both(x) <==> first(x) && second(x)
    ensures Filter(Filter(s, first), second) == Filter(s, both)
  {
    if s != [] {
      var front, last := s[..|s| - 1], s[|s| - 1];
      FilterFilter(front, first, second, both);
      FilterPush(Filter(front, first), last, second);
      assert Filter(front, first) + [] == Filter(front, first);
    }
  }

  predicate NoRepeats<T(==)>(s: seq<T>) {
    forall i, j :: 0 <= i < j < |s| ==> s[i] != s[j]
  }

  /** No two elements share a key. */
  ghost predicate Distinct<T, K>(s: seq<T>, key: T -> K) {
    forall i, j :: 0 <= i < j < |s| ==> key(s[i]) != key(s[j])
  }

  lemma FilterFrom<T>(s: seq<T>, keep: T -> bool, x: T)
    requires x in Filter(s, keep)
    ensures x in s && keep(x)
  {
    FilterMembers(s, keep);
  }

  lemma {:induction false} FilterDistinct<T, K>(s: seq<T>, keep: T -> bool, key: T -> K)
    requires Distinct(s, key)
    ensures Distinct(Filter(s, keep), key)
  {
    if s != [] {
      var front := s[..|s| - 1];
      FilterDistinct(front, keep, key);
      var kept := Filter(front, keep);
      forall i | 0 <= i < |kept|
        ensures key(kept[i]) != key(s[|s| - 1])
      {
        var x := kept[i];
        FilterFrom(front, keep, x);
        var j :| 0 <= j < |front| && front[j] == x;
        assert s[j] == x;
      }
    }
  }
}
