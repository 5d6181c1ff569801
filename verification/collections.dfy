/** Generic sequence algorithms the model is built from: grouping into an
    insertion-ordered dictionary of groups (the `forEach` + object-literal
    idiom of the source), de-duplicating sorts (`[...new Set(xs)].sort()`),
    and the ascending sort by a count (`sort((a, b) => a.count - b.count)`). */
module Collections {
  import opened Text

  /* ---------------------------------------------------------------------
     Grouping
     --------------------------------------------------------------------- */

  datatype Group<K, T> = Group(key: K, members: seq<T>)

  /** `xs.filter(p)`: the elements satisfying `p`, in input order. */
  function Where<T(==)>(xs: seq<T>, p: T -> bool): (r: seq<T>)
    ensures |r| <= |xs|
    ensures forall x | x in r :: x in xs && p(x)
    ensures forall x | x in xs && p(x) :: x in r
  {
    if xs == [] then []
    else
      assert xs == xs[..|xs| - 1] + [xs[|xs| - 1]];
      Where(xs[..|xs| - 1], p) + (if p(xs[|xs| - 1]) then [xs[|xs| - 1]] else [])
  }

  /** Filtering distributes over concatenation. */
  lemma {:induction false} WhereConcat<T>(xs: seq<T>, ys: seq<T>, p: T -> bool)
    ensures Where(xs + ys, p) == Where(xs, p) + Where(ys, p)
    decreases |ys|
  {
    if ys == [] {
      assert xs + ys == xs;
    } else {
      assert (xs + ys)[..|xs + ys| - 1] == xs + ys[..|ys| - 1];
      WhereConcat(xs, ys[..|ys| - 1], p);
    }
  }

  /** Two successive filters are one filter by the conjunction. */
  lemma {:induction false} WhereTwice<T>(xs: seq<T>, p: T -> bool, q: T -> bool, pq: T -> bool)
    requires forall x :: pq(x) == (p(x) && q(x))
    ensures Where(Where(xs, p), q) == Where(xs, pq)
  {
    if xs != [] {
      var init := xs[..|xs| - 1];
      WhereTwice(init, p, q, pq);
      WhereConcat(Where(init, p), if p(xs[|xs| - 1]) then [xs[|xs| - 1]] else [], q);
      if p(xs[|xs| - 1]) {
        assert [xs[|xs| - 1]][..0] == [];
      }
    }
  }

  /** Filtering by a condition all elements meet keeps everything. */
  lemma {:induction false} WhereAll<T>(xs: seq<T>, p: T -> bool)
    requires forall i :: 0 <= i < |xs| ==> p(xs[i])
    ensures Where(xs, p) == xs
  {
    if xs != [] {
      var init := xs[..|xs| - 1];
      WhereAll(init, p);
      assert xs == init + [xs[|xs| - 1]];
      assert Where(xs, p) == Where(init, p) + [xs[|xs| - 1]];
    }
  }

  /** The elements of `xs` whose key is `k`, in input order. */
  function WithKey<T(==), K(==)>(xs: seq<T>, key: T -> K, k: K): (r: seq<T>)
    ensures |r| <= |xs|
    ensures forall x | x in r :: x in xs && key(x) == k
    ensures forall x | x in xs && key(x) == k :: x in r
  {
    Where(xs, x => key(x) == k)
  }

  /** `x` joins the group with its key, or opens a new group at the end. */
  function AddMember<T, K(==)>(gs: seq<Group<K, T>>, x: T, key: T -> K): seq<Group<K, T>>
  {
    if gs == [] then [Group(key(x), [x])]
    else if gs[0].key == key(x) then [gs[0].(members := gs[0].members + [x])] + gs[1..]
    else [gs[0]] + AddMember(gs[1..], x, key)
  }

  /** Groups in order of the first occurrence of each key, built by visiting
      `xs` from left to right as the source's `forEach` does. */
  function GroupBy<T, K(==)>(xs: seq<T>, key: T -> K): seq<Group<K, T>>
  {
    if xs == [] then [] else AddMember(GroupBy(xs[..|xs| - 1], key), xs[|xs| - 1], key)
  }

  function KeysOf<K, T>(gs: seq<Group<K, T>>): seq<K> {
    if gs == [] then [] else [gs[0].key] + KeysOf(gs[1..])
  }

  /** The members of the group keyed `k`, or nothing when there is none. */
  function MembersOf<K(==), T>(gs: seq<Group<K, T>>, k: K): seq<T> {
    if gs == [] then []
    else if gs[0].key == k then gs[0].members
    else MembersOf(gs[1..], k)
  }

  /** The number of elements held by all groups together. */
  function Total<K, T>(gs: seq<Group<K, T>>): nat {
    if gs == [] then 0 else |gs[0].members| + Total(gs[1..])
  }

  predicate Distinct<K(==)>(ks: seq<K>) {
    forall i, j :: 0 <= i < j < |ks| ==> ks[i] != ks[j]
  }

  lemma {:induction false} KeysOfIndex<K, T>(gs: seq<Group<K, T>>)
    ensures |KeysOf(gs)| == |gs|
    ensures forall i :: 0 <= i < |gs| ==> KeysOf(gs)[i] == gs[i].key
  {
    if gs != [] {
      KeysOfIndex(gs[1..]);
    }
  }

  lemma {:induction false} AddMemberMembers<T, K>(gs: seq<Group<K, T>>, x: T, key: T -> K, k: K)
    ensures MembersOf(AddMember(gs, x, key), k)
         == MembersOf(gs, k) + (if key(x) == k then [x] else [])
  {
    if gs != [] && gs[0].key != key(x) {
      AddMemberMembers(gs[1..], x, key, k);
    }
  }

  lemma {:induction false} AddMemberKeys<T, K>(gs: seq<Group<K, T>>, x: T, key: T -> K)
    ensures KeysOf(AddMember(gs, x, key))
         == if key(x) in KeysOf(gs) then KeysOf(gs) else KeysOf(gs) + [key(x)]
  {
    if gs != [] {
      if gs[0].key != key(x) {
        AddMemberKeys(gs[1..], x, key);
        assert KeysOf(gs) == [gs[0].key] + KeysOf(gs[1..]);
      }
    }
  }

  lemma {:induction false} AddMemberTotal<T, K>(gs: seq<Group<K, T>>, x: T, key: T -> K)
    ensures Total(AddMember(gs, x, key)) == Total(gs) + 1
  {
    if gs != [] && gs[0].key != key(x) {
      AddMemberTotal(gs[1..], x, key);
    }
  }

  lemma {:induction false} AddMemberNonEmpty<T, K>(gs: seq<Group<K, T>>, x: T, key: T -> K)
    requires forall i :: 0 <= i < |gs| ==> |gs[i].members| > 0
    ensures forall i :: 0 <= i < |AddMember(gs, x, key)| ==> |AddMember(gs, x, key)[i].members| > 0
  {
    if gs != [] && gs[0].key != key(x) {
      AddMemberNonEmpty(gs[1..], x, key);
    }
  }

  /** Each key's group holds exactly the elements with that key, in input
      order. */
  lemma {:induction false} GroupByMembers<T, K>(xs: seq<T>, key: T -> K, k: K)
    ensures MembersOf(GroupBy(xs, key), k) == WithKey(xs, key, k)
  {
    if xs != [] {
      GroupByMembers(xs[..|xs| - 1], key, k);
      AddMemberMembers(GroupBy(xs[..|xs| - 1], key), xs[|xs| - 1], key, k);
    }
  }

  /** The group keys are pairwise distinct and are exactly the keys that
      occur in the input. */
  lemma {:induction false} GroupByKeys<T, K>(xs: seq<T>, key: T -> K)
    ensures Distinct(KeysOf(GroupBy(xs, key)))
    ensures forall x | x in xs :: key(x) in KeysOf(GroupBy(xs, key))
    ensures forall k | k in KeysOf(GroupBy(xs, key)) :: exists x :: x in xs && key(x) == k
  {
    if xs != [] {
      var init := xs[..|xs| - 1];
      var last := xs[|xs| - 1];
      assert xs == init + [last];
      GroupByKeys(init, key);
      AddMemberKeys(GroupBy(init, key), last, key);
      forall x | x in xs
        ensures key(x) in KeysOf(GroupBy(xs, key))
      {
        if x != last {
          assert x in init;
        }
      }
      forall k | k in KeysOf(GroupBy(xs, key))
        ensures exists x :: x in xs && key(x) == k
      {
        if k != key(last) {
          var x :| x in init && key(x) == k;
          assert x in xs;
        }
      }
    }
  }

  /** Every element lands in exactly one group. */
  lemma {:induction false} GroupByTotal<T, K>(xs: seq<T>, key: T -> K)
    ensures Total(GroupBy(xs, key)) == |xs|
  {
    if xs != [] {
      GroupByTotal(xs[..|xs| - 1], key);
      AddMemberTotal(GroupBy(xs[..|xs| - 1], key), xs[|xs| - 1], key);
    }
  }

  /** No group is empty. */
  lemma {:induction false} GroupByNonEmpty<T, K>(xs: seq<T>, key: T -> K)
    ensures forall i :: 0 <= i < |GroupBy(xs, key)| ==> |GroupBy(xs, key)[i].members| > 0
  {
    if xs != [] {
      GroupByNonEmpty(xs[..|xs| - 1], key);
      AddMemberNonEmpty(GroupBy(xs[..|xs| - 1], key), xs[|xs| - 1], key);
    }
  }

  /** With distinct keys, the group at index `i` is the one `MembersOf`
      finds for its key. */
  lemma {:induction false} MembersOfDistinct<K, T>(gs: seq<Group<K, T>>, i: nat)
    requires i < |gs| && Distinct(KeysOf(gs))
    ensures MembersOf(gs, gs[i].key) == gs[i].members
  {
    KeysOfIndex(gs);
    if i > 0 {
      KeysOfIndex(gs[1..]);
      assert KeysOf(gs)[0] != KeysOf(gs)[i];
      MembersOfDistinct(gs[1..], i - 1);
    }
  }

  /** Distinct keys: no two groups share a key. */
  lemma GroupByKeysDistinct<T, K>(xs: seq<T>, key: T -> K)
    ensures forall i, j :: 0 <= i < j < |GroupBy(xs, key)| ==> GroupBy(xs, key)[i].key != GroupBy(xs, key)[j].key
  {
    GroupByKeys(xs, key);
    KeysOfIndex(GroupBy(xs, key));
  }

  /** Each group holds exactly the elements with its key, in input order. */
  lemma GroupByMembersMatch<T, K>(xs: seq<T>, key: T -> K)
    ensures forall i :: 0 <= i < |GroupBy(xs, key)| ==>
      GroupBy(xs, key)[i].members == WithKey(xs, key, GroupBy(xs, key)[i].key)
  {
    var gs := GroupBy(xs, key);
    GroupByKeys(xs, key);
    forall i | 0 <= i < |gs|
      ensures gs[i].members == WithKey(xs, key, gs[i].key)
    {
      MembersOfDistinct(gs, i);
      GroupByMembers(xs, key, gs[i].key);
    }
  }

  /** Every element's key has a group. */
  lemma GroupByCovers<T, K>(xs: seq<T>, key: T -> K, x: T)
    requires x in xs
    ensures exists i :: 0 <= i < |GroupBy(xs, key)| && GroupBy(xs, key)[i].key == key(x)
  {
    var gs := GroupBy(xs, key);
    GroupByKeys(xs, key);
    KeysOfIndex(gs);
    assert key(x) in KeysOf(gs);
    var i :| 0 <= i < |KeysOf(gs)| && KeysOf(gs)[i] == key(x);
    assert gs[i].key == key(x);
  }

  /* ---------------------------------------------------------------------
     De-duplicating sorts
     --------------------------------------------------------------------- */

  predicate StrictlyDescending(s: seq<int>) {
    forall i, j :: 0 <= i < j < |s| ==> s[i] > s[j]
  }

  predicate StrictlyAscending(s: seq<string>) {
    forall i, j :: 0 <= i < j < |s| ==> LexLess(s[i], s[j])
  }

  function InsertDescending(x: int, s: seq<int>): (r: seq<int>)
    requires StrictlyDescending(s)
    ensures StrictlyDescending(r)
    ensures forall y :: y in r <==> y == x || y in s
  {
    if s == [] then [x]
    else if x == s[0] then s
    else if x > s[0] then [x] + s
    else
      var rest := InsertDescending(x, s[1..]);
      assert forall j :: 0 <= j < |rest| ==> s[0] > rest[j] by {
        forall j | 0 <= j < |rest| ensures s[0] > rest[j] {
          assert rest[j] in rest;
          if rest[j] != x {
            var k :| 0 <= k < |s[1..]| && s[1..][k] == rest[j];
            assert s[k + 1] == rest[j];
          }
        }
      }
      assert s == [s[0]] + s[1..];
      [s[0]] + rest
  }

  /** `[...new Set(xs)].sort((a, b) => b - a)`: the distinct values of `xs`,
      largest first. */
  function DistinctDescending(xs: seq<int>): (r: seq<int>)
    ensures StrictlyDescending(r)
    ensures forall y :: y in r <==> y in xs
  {
    if xs == [] then []
    else
      assert xs == xs[..|xs| - 1] + [xs[|xs| - 1]];
      InsertDescending(xs[|xs| - 1], DistinctDescending(xs[..|xs| - 1]))
  }

  function InsertAscending(x: string, s: seq<string>): (r: seq<string>)
    requires StrictlyAscending(s)
    ensures StrictlyAscending(r)
    ensures forall y :: y in r <==> y == x || y in s
  {
    if s == [] then [x]
    else if x == s[0] then s
    else if LexLess(x, s[0]) then
      assert forall j :: 0 <= j < |s| ==> LexLess(x, s[j]) by {
        forall j | 0 <= j < |s| ensures LexLess(x, s[j]) {
          if j > 0 {
            LexTransitive(x, s[0], s[j]);
          }
        }
      }
      [x] + s
    else
      LexTotal(x, s[0]);
      var rest := InsertAscending(x, s[1..]);
      assert forall j :: 0 <= j < |rest| ==> LexLess(s[0], rest[j]) by {
        forall j | 0 <= j < |rest| ensures LexLess(s[0], rest[j]) {
          assert rest[j] in rest;
          if rest[j] != x {
            var k :| 0 <= k < |s[1..]| && s[1..][k] == rest[j];
            assert s[k + 1] == rest[j];
          }
        }
      }
      assert s == [s[0]] + s[1..];
      [s[0]] + rest
  }

  /** `[...new Set(xs)].sort()`: the distinct strings of `xs` in ascending
      order. */
  function DistinctAscending(xs: seq<string>): (r: seq<string>)
    ensures StrictlyAscending(r)
    ensures forall y :: y in r <==> y in xs
  {
    if xs == [] then []
    else
      assert xs == xs[..|xs| - 1] + [xs[|xs| - 1]];
      InsertAscending(xs[|xs| - 1], DistinctAscending(xs[..|xs| - 1]))
  }

  /** A strictly ascending list has no repeated element. */
  lemma AscendingIsDistinct(s: seq<string>)
    requires StrictlyAscending(s)
    ensures Distinct(s)
  {
    forall i, j | 0 <= i < j < |s|
      ensures s[i] != s[j]
    {
      if s[i] == s[j] {
        LexIrreflexive(s[i]);
      }
    }
  }

  /** The ascending list of a set of strings is unique: the result of
      `DistinctAscending` depends only on which strings occur, not on their
      order or repetition, exactly as sorting the `Set` does. */
  lemma {:induction false} AscendingUnique(s: seq<string>, t: seq<string>)
    requires StrictlyAscending(s) && StrictlyAscending(t)
    requires forall y :: y in s <==> y in t
    ensures s == t
  {
    if s != [] {
      assert s[0] in s;
    }
    if t != [] {
      assert t[0] in t;
    }
    if s != [] && t != [] {
      if s[0] != t[0] {
        var i :| 0 <= i < |s| && s[i] == t[0];
        var j :| 0 <= j < |t| && t[j] == s[0];
        LexAsymmetric(s[0], t[0]);
      }
      assert s == [s[0]] + s[1..];
      assert t == [t[0]] + t[1..];
      forall y
        ensures y in s[1..] <==> y in t[1..]
      {
        if y in s[1..] {
          var i :| 0 <= i < |s[1..]| && s[1..][i] == y;
          assert LexLess(s[0], s[i + 1]);
          LexIrreflexive(y);
          assert y in t && y != t[0];
        }
        if y in t[1..] {
          var j :| 0 <= j < |t[1..]| && t[1..][j] == y;
          assert LexLess(t[0], t[j + 1]);
          LexIrreflexive(y);
          assert y in s && y != s[0];
        }
      }
      AscendingUnique(s[1..], t[1..]);
    }
  }

  /** The descending list of a set of integers is unique. */
  lemma {:induction false} DescendingUnique(s: seq<int>, t: seq<int>)
    requires StrictlyDescending(s) && StrictlyDescending(t)
    requires forall y :: y in s <==> y in t
    ensures s == t
  {
    if s != [] {
      assert s[0] in s;
    }
    if t != [] {
      assert t[0] in t;
    }
    if s != [] && t != [] {
      assert s == [s[0]] + s[1..];
      assert t == [t[0]] + t[1..];
      forall y
        ensures y in s[1..] <==> y in t[1..]
      {
        if y in s[1..] {
          var i :| 0 <= i < |s[1..]| && s[1..][i] == y;
          assert s[0] > s[i + 1];
          assert y in t && y != t[0];
        }
        if y in t[1..] {
          var j :| 0 <= j < |t[1..]| && t[1..][j] == y;
          assert t[0] > t[j + 1];
          assert y in s && y != s[0];
        }
      }
      DescendingUnique(s[1..], t[1..]);
    }
  }

  /* ---------------------------------------------------------------------
     Ascending sort by count
     --------------------------------------------------------------------- */

  predicate AscendingBy<G>(s: seq<G>, count: G -> int) {
    forall i, j :: 0 <= i < j < |s| ==> count(s[i]) <= count(s[j])
  }

  /** The sum of `count` over `s`. */
  function SumBy<G>(s: seq<G>, count: G -> int): int {
    if s == [] then 0 else count(s[0]) + SumBy(s[1..], count)
  }

  /** Places `g` before the first element whose count is not smaller, so
      that earlier elements stay ahead of later ones with the same count. */
  function InsertByCount<G(==)>(g: G, s: seq<G>, count: G -> int): (r: seq<G>)
    requires AscendingBy(s, count)
    ensures AscendingBy(r, count)
    ensures multiset(r) == multiset(s) + multiset{g}
    ensures SumBy(r, count) == SumBy(s, count) + count(g)
  {
    if s == [] then [g]
    else if count(g) <= count(s[0]) then
      ConsAscending(g, s, count);
      [g] + s
    else
      var rest := InsertByCount(g, s[1..], count);
      assert s == [s[0]] + s[1..];
      LowerBoundKept(s[0], rest, s[1..], g, count);
      ConsAscending(s[0], rest, count);
      [s[0]] + rest
  }

  /** Putting an element no larger than every other in front keeps a
      sequence ascending, and adds its count to the sum. */
  lemma ConsAscending<G>(h: G, s: seq<G>, count: G -> int)
    requires AscendingBy(s, count)
    requires forall i :: 0 <= i < |s| ==> count(h) <= count(s[i])
    ensures AscendingBy([h] + s, count)
    ensures SumBy([h] + s, count) == count(h) + SumBy(s, count)
  {
    assert ([h] + s)[1..] == s;
  }

  /** A lower bound of `s` and `g` bounds any rearrangement of them. */
  lemma LowerBoundKept<G>(h: G, rest: seq<G>, s: seq<G>, g: G, count: G -> int)
    requires multiset(rest) == multiset(s) + multiset{g}
    requires count(h) <= count(g)
    requires AscendingBy([h] + s, count)
    ensures forall i :: 0 <= i < |rest| ==> count(h) <= count(rest[i])
  {
    forall i | 0 <= i < |rest|
      ensures count(h) <= count(rest[i])
    {
      assert rest[i] in multiset(rest);
      if rest[i] != g {
        assert rest[i] in multiset(s);
        var j :| 0 <= j < |s| && s[j] == rest[i];
        assert ([h] + s)[0] == h && ([h] + s)[j + 1] == s[j];
      }
    }
  }

  /** `Array.prototype.sort((a, b) => count(a) - count(b))`: ascending by
      count, with the same elements. */
  function SortByCount<G(==)>(gs: seq<G>, count: G -> int): (r: seq<G>)
    ensures AscendingBy(r, count)
    ensures multiset(r) == multiset(gs)
    ensures |r| == |gs|
    ensures SumBy(r, count) == SumBy(gs, count)
  {
    if gs == [] then []
    else
      assert gs == [gs[0]] + gs[1..];
      InsertByCount(gs[0], SortByCount(gs[1..], count), count)
  }
}
