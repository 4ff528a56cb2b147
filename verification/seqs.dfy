/** Array operations the source leans on: `filter`, `slice(0, k)`,
    de-duplication through a `Set`, and concatenation of lists. */
module Seqs {

  /** `s.filter(f)`. */
  function Filter<T(==)>(f: T -> bool, s: seq<T>): (r: seq<T>)
    ensures |r| <= |s|
    ensures forall i | 0 <= i < |r| :: f(r[i]) && r[i] in s
    ensures forall i | 0 <= i < |s| && f(s[i]) :: s[i] in r
    decreases |s|
  {
    if s == [] then []
    else (if f(s[0]) then [s[0]] else []) + Filter(f, s[1..])
  }

  /** Membership in a filter's result, element-wise. */
  lemma FilterMembers<T>(f: T -> bool, s: seq<T>)
    ensures forall x :: x in Filter(f, s) <==> x in s && f(x)
  {
    var r := Filter(f, s);
    forall x ensures x in r <==> x in s && f(x) {
      if x in r {
        var i :| 0 <= i < |r| && r[i] == x;
      }
      if x in s && f(x) {
        var i :| 0 <= i < |s| && s[i] == x;
      }
    }
  }

  /** `r` keeps some of the elements of `s`, in their original order. */
  predicate IsSubsequence<T(==)>(r: seq<T>, s: seq<T>)
    decreases |s|
  {
    if r == [] then true
    else if s == [] then false
    else if r[0] == s[0] then IsSubsequence(r[1..], s[1..])
    else IsSubsequence(r, s[1..])
  }

  /** A filter keeps the passing elements in the order they had. */
  lemma {:induction false} FilterIsSubsequence<T>(f: T -> bool, s: seq<T>)
    ensures IsSubsequence(Filter(f, s), s)
    decreases |s|
  {
    if s != [] {
      FilterIsSubsequence(f, s[1..]);
      var r := Filter(f, s);
      if f(s[0]) {
        assert r == [s[0]] + Filter(f, s[1..]);
        assert r[1..] == Filter(f, s[1..]);
      } else {
        assert r == Filter(f, s[1..]);
        if r != [] {
          SubsequenceHead(r, s);
        }
      }
    }
  }

  /** If `r` is a subsequence of `s[1..]` it is one of `s`. */
  lemma {:induction false} SubsequenceHead<T>(r: seq<T>, s: seq<T>)
    requires s != [] && IsSubsequence(r, s[1..])
    ensures IsSubsequence(r, s)
    decreases |s|, 1
  {
    if r != [] && r[0] == s[0] {
      SubsequenceDropHead(r, s[1..]);
    }
  }

  /** Dropping the first element of `r` keeps it a subsequence. */
  lemma {:induction false} SubsequenceDropHead<T>(r: seq<T>, t: seq<T>)
    requires r != [] && IsSubsequence(r, t)
    ensures IsSubsequence(r[1..], t)
    decreases |t|, 2
  {
    if r[0] != t[0] {
      SubsequenceDropHead(r, t[1..]);
    }
    if r[1..] != [] {
      SubsequenceHead(r[1..], t);
    }
  }

  /** A prefix of a subsequence of `s` is itself a subsequence of `s`. */
  lemma {:induction false} SubsequencePrefix<T>(p: seq<T>, r: seq<T>, s: seq<T>)
    requires p <= r && IsSubsequence(r, s)
    ensures IsSubsequence(p, s)
    decreases |s|
  {
    if p != [] {
      if r[0] == s[0] {
        assert p[1..] <= r[1..];
        SubsequencePrefix(p[1..], r[1..], s[1..]);
      } else {
        SubsequencePrefix(p, r, s[1..]);
      }
    }
  }

  /** A filter keeps every passing element as often as it occurs, and no
      other element. */
  lemma {:induction false} FilterCounts<T>(f: T -> bool, s: seq<T>)
    ensures forall x :: multiset(Filter(f, s))[x] == if f(x) then multiset(s)[x] else 0
    decreases |s|
  {
    if s != [] {
      FilterCounts(f, s[1..]);
      assert s == [s[0]] + s[1..];
      assert multiset(s) == multiset{s[0]} + multiset(s[1..]);
      if f(s[0]) {
        assert multiset(Filter(f, s)) == multiset{s[0]} + multiset(Filter(f, s[1..]));
      } else {
        assert multiset(Filter(f, s)) == multiset(Filter(f, s[1..]));
      }
    }
  }

  /** Filtering twice with the same test changes nothing the second time. */
  lemma {:induction false} FilterIdempotent<T>(f: T -> bool, s: seq<T>)
    ensures Filter(f, Filter(f, s)) == Filter(f, s)
    decreases |s|
  {
    if s != [] {
      FilterIdempotent(f, s[1..]);
      var t := Filter(f, s[1..]);
      if f(s[0]) {
        assert Filter(f, s) == [s[0]] + t;
        assert ([s[0]] + t)[0] == s[0];
        assert ([s[0]] + t)[1..] == t;
        assert Filter(f, [s[0]] + t) == [s[0]] + Filter(f, t);
      } else {
        assert Filter(f, s) == [] + t == t;
      }
    }
  }

  /** Filtering a list every element of which passes gives it back. */
  lemma {:induction false} FilterAllPass<T>(f: T -> bool, s: seq<T>)
    requires forall i | 0 <= i < |s| :: f(s[i])
    ensures Filter(f, s) == s
    decreases |s|
  {
    if s != [] {
      FilterAllPass(f, s[1..]);
      assert s == [s[0]] + s[1..];
    }
  }

  lemma {:induction false} FilterAppend<T>(f: T -> bool, a: seq<T>, b: seq<T>)
    ensures Filter(f, a + b) == Filter(f, a) + Filter(f, b)
    decreases |a|
  {
    if a == [] {
      AppendEmpty(b);
    } else {
      ConsAppend(a, b);
      FilterAppend(f, a[1..], b);
      AppendAssoc(if f(a[0]) then [a[0]] else [], Filter(f, a[1..]), Filter(f, b));
    }
  }

  /** Filtering a list with a known head. */
  lemma FilterCons<T>(f: T -> bool, x: T, t: seq<T>)
    ensures Filter(f, [x] + t) == (if f(x) then [x] else []) + Filter(f, t)
  {
    assert ([x] + t)[0] == x && ([x] + t)[1..] == t;
  }

  /** The filter of a prefix is a prefix of the filter. */
  lemma FilterPrefix<T>(f: T -> bool, a: seq<T>, b: seq<T>)
    requires a <= b
    ensures Filter(f, a) <= Filter(f, b)
  {
    assert b == a + b[|a|..];
    FilterAppend(f, a, b[|a|..]);
  }

  /** Filtering by `f` after a coarser test `g` is filtering by `f` alone. */
  lemma {:induction false} FilterFilter<T>(f: T -> bool, g: T -> bool, s: seq<T>)
    requires forall i | 0 <= i < |s| && f(s[i]) :: g(s[i])
    ensures Filter(f, Filter(g, s)) == Filter(f, s)
    decreases |s|
  {
    if s != [] {
      FilterFilter(f, g, s[1..]);
      var h := if g(s[0]) then [s[0]] else [];
      FilterAppend(f, h, Filter(g, s[1..]));
      if !g(s[0]) {
        AppendEmpty(Filter(f, s[1..]));
      }
    }
  }

  /** Nothing passes a filter that no element passes. */
  lemma FilterNone<T>(f: T -> bool, s: seq<T>)
    requires forall i | 0 <= i < |s| :: !f(s[i])
    ensures Filter(f, s) == []
  {
  }

  /** The head and tail of `a + b` for a non-empty `a`. */
  lemma ConsAppend<T>(a: seq<T>, b: seq<T>)
    requires a != []
    ensures (a + b)[0] == a[0] && (a + b)[1..] == a[1..] + b
  {
  }

  /** `s.slice(0, k)` for an integer `k`: a negative `k` counts from the end. */
  function Take<T>(s: seq<T>, k: int): (r: seq<T>)
    ensures k >= 0 ==> |r| == if k < |s| then k else |s|
    ensures k < 0 ==> |r| == if |s| + k > 0 then |s| + k else 0
    ensures r <= s
  {
    if k >= 0 then (if k < |s| then s[..k] else s)
    else (if |s| + k > 0 then s[..|s| + k] else [])
  }

  predicate NoDuplicates<T(==)>(s: seq<T>) {
    forall i, j | 0 <= i < j < |s| :: s[i] != s[j]
  }

  /** `Array.from(new Set(s))`: the first occurrence of each element, in
      order of first occurrence. */
  function Dedup<T(==)>(s: seq<T>): (r: seq<T>)
    ensures NoDuplicates(r)
    ensures forall i | 0 <= i < |r| :: r[i] in s
    ensures forall i | 0 <= i < |s| :: s[i] in r
    decreases |s|
  {
    if s == [] then []
    else
      var d := Dedup(s[..|s| - 1]);
      if s[|s| - 1] in d then d else d + [s[|s| - 1]]
  }

  /** De-duplication keeps exactly the elements of its input. */
  lemma DedupMembers<T>(s: seq<T>)
    ensures forall x :: x in Dedup(s) <==> x in s
  {
    var r := Dedup(s);
    forall x ensures x in r <==> x in s {
      if x in r {
        var i :| 0 <= i < |r| && r[i] == x;
      }
      if x in s {
        var i :| 0 <= i < |s| && s[i] == x;
      }
    }
  }

  /** De-duplication keeps the original order of first occurrences. */
  lemma {:induction false} DedupIsSubsequence<T>(s: seq<T>)
    ensures IsSubsequence(Dedup(s), s)
    decreases |s|
  {
    if s != [] {
      DedupIsSubsequence(s[..|s| - 1]);
      SubsequenceSnoc(Dedup(s[..|s| - 1]), s[..|s| - 1], s[|s| - 1]);
      assert s[..|s| - 1] + [s[|s| - 1]] == s;
    }
  }

  lemma {:induction false} SubsequenceSnoc<T>(r: seq<T>, s: seq<T>, x: T)
    requires IsSubsequence(r, s)
    ensures IsSubsequence(r, s + [x])
    ensures IsSubsequence(r + [x], s + [x])
    decreases |s|
  {
    if s == [] {
      assert r + [x] == [x] == s + [x];
      assert [x][1..] == [];
    } else {
      assert (s + [x])[1..] == s[1..] + [x];
      if r != [] {
        assert (r + [x])[1..] == r[1..] + [x];
      }
      if r != [] && r[0] == s[0] {
        SubsequenceSnoc(r[1..], s[1..], x);
      } else {
        SubsequenceSnoc(r, s[1..], x);
      }
    }
  }

  /** Dropping the head of a list of two or more keeps its last element
      and, before it, the inner elements. */
  lemma InnerLast<T>(l: seq<T>)
    requires |l| >= 2
    ensures var rest := l[1..];
      rest[|rest| - 1] == l[|l| - 1] && rest[..|rest| - 1] == l[1..|l| - 1]
  {
  }

  /** `a`, then `b`, then `z`: `a` is a prefix, `z` comes last, and
      before it stands `a + b`. */
  lemma AppendLast<T>(a: seq<T>, b: seq<T>, z: T)
    ensures var r := a + b + [z];
      && a <= r && |r| == |a| + |b| + 1 && r[|r| - 1] == z && r[..|r| - 1] == a + b
      && (b != [] ==> r[|a|] == b[0])
  {
  }

  /** Indexing into `[x] + s`. */
  lemma ConsIndex<T>(x: T, s: seq<T>)
    ensures |[x] + s| == |s| + 1 && ([x] + s)[0] == x
    ensures forall i | 0 <= i < |s| :: ([x] + s)[i + 1] == s[i]
  {
  }

  lemma InitLast<T>(s: seq<T>)
    requires s != []
    ensures s[..|s| - 1] + [s[|s| - 1]] == s
  {
  }

  lemma SingletonTail<T>(x: T)
    ensures [x][0] == x && [x][1..] == []
  {
  }

  lemma AppendAssoc<T>(a: seq<T>, b: seq<T>, c: seq<T>)
    ensures a + (b + c) == (a + b) + c
  {
  }

  lemma AppendEmpty<T>(a: seq<T>)
    ensures a + [] == a && [] + a == a
  {
  }

  /** The parts of a list built as first element, middle, last element. */
  lemma Framed<T>(a: T, m: seq<T>, z: T)
    ensures var r := [a] + m + [z];
      && |r| == |m| + 2 && r[0] == a && r[|r| - 1] == z && r[1..] == m + [z]
      && forall i | 0 <= i < |m| :: r[i + 1] == m[i]
  {
  }

  lemma AppendAssoc4<T>(a: seq<T>, b: seq<T>, c: seq<T>, d: seq<T>)
    ensures a + b + (c + d) == (a + (b + c)) + d
  {
  }

  lemma MultisetCons<T>(x: T, s: seq<T>)
    ensures multiset([x] + s) == multiset{x} + multiset(s)
  {
  }

  lemma MultisetSwap<T>(x: T, y: T, m: multiset<T>)
    ensures multiset{x} + (multiset{y} + m) == multiset{y} + (multiset{x} + m)
  {
  }

  /** Concatenation of a list of lists, in order. */
  function Flatten<T>(ss: seq<seq<T>>): seq<T>
    decreases |ss|
  {
    if ss == [] then [] else ss[0] + Flatten(ss[1..])
  }

  /** The concatenation of two lists of lists is the concatenation of
      their concatenations. */
  lemma {:induction false} FlattenAppend<T>(a: seq<seq<T>>, b: seq<seq<T>>)
    ensures Flatten(a + b) == Flatten(a) + Flatten(b)
    decreases |a|
  {
    if a == [] {
      assert a + b == b;
    } else {
      assert (a + b)[1..] == a[1..] + b;
      FlattenAppend(a[1..], b);
    }
  }

  /** Every element of every list is in the concatenation. */
  lemma {:induction false} FlattenMember<T>(ss: seq<seq<T>>, k: nat, i: nat)
    requires k < |ss| && i < |ss[k]|
    ensures ss[k][i] in Flatten(ss)
    decreases |ss|
  {
    if k == 0 {
      assert Flatten(ss)[i] == ss[0][i];
    } else {
      FlattenMember(ss[1..], k - 1, i);
    }
  }
}
