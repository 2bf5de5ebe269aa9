/** Python list and dictionary idioms the library relies on, stated once:
    `list.index`, `list.remove`, slicing, `{x: i for i, x in enumerate(xs)}`
    and filtering comprehensions. */
module Lists {
  import opened Wrappers

  /** No element occurs twice. */
  predicate NoDup<T(==)>(s: seq<T>) {
    forall i, j | 0 <= i < j < |s| :: s[i] != s[j]
  }

  /** No duplicates in a non-empty list: the head is not repeated, nor is
      anything in the tail. */
  lemma NoDupStep<T>(s: seq<T>)
    requires |s| > 0
    ensures NoDup(s) <==> s[0] !in s[1..] && NoDup(s[1..])
  {
    if NoDup(s) {
      forall k | 0 <= k < |s| - 1 ensures s[1..][k] != s[0] {
        assert s[1..][k] == s[k + 1];
      }
    }
    if s[0] !in s[1..] && NoDup(s[1..]) {
      forall i, j | 0 <= i < j < |s| ensures s[i] != s[j] {
        assert s[j] == s[1..][j - 1];
        if i > 0 {
          assert s[i] == s[1..][i - 1];
        }
      }
    }
  }

  /** Appending a new element keeps a list free of repetitions. */
  lemma NoDupSnoc<T>(s: seq<T>, x: T)
    requires NoDup(s) && x !in s
    ensures NoDup(s + [x])
  {
    var t := s + [x];
    forall i, j | 0 <= i < j < |t| ensures t[i] != t[j] {
      assert t[i] == s[i];
    }
  }

  /** The elements of a list, as `set(s)`. */
  function Elems<T(!new)>(s: seq<T>): (r: set<T>)
    ensures forall x :: x in r <==> x in s
  {
    set x | x in s
  }

  lemma NoDupFirstTwo<T>(s: seq<T>)
    requires NoDup(s)
    ensures |s| >= 2 ==> s[0] != s[1]
  {
  }

  /** `s.index(x)`: the position of the first occurrence. */
  function IndexOf<T(==)>(s: seq<T>, x: T): (i: nat)
    requires x in s
    ensures i < |s| && s[i] == x
    ensures x !in s[..i]
  {
    if s[0] == x then 0
    else
      var i := 1 + IndexOf(s[1..], x);
      assert s[..i] == [s[0]] + s[1..][..i - 1];
      i
  }

  /** `s.remove(x)`: drops the first occurrence of `x`; ValueError when
      `x` is absent. */
  function Remove<T(==)>(s: seq<T>, x: T): (r: Result<seq<T>>)
    ensures r.Ok? <==> x in s
    ensures r.Ok? ==> r.value == s[..IndexOf(s, x)] + s[IndexOf(s, x) + 1..]
  {
    if |s| == 0 then Err(ValueError)
    else if s[0] == x then Ok(s[1..])
    else
      var t := Remove(s[1..], x);
      assert x in s <==> x in s[1..];
      if t.Err? then Err(ValueError)
      else
        RemoveStep(s, x, t.value);
        Ok([s[0]] + t.value)
  }

  /** The recursive case of `Remove`: the head is kept in front. */
  lemma {:induction false} RemoveStep<T>(s: seq<T>, x: T, t: seq<T>)
    requires |s| > 0 && s[0] != x && x in s[1..]
    requires t == s[1..][..IndexOf(s[1..], x)] + s[1..][IndexOf(s[1..], x) + 1..]
    ensures [s[0]] + t == s[..IndexOf(s, x)] + s[IndexOf(s, x) + 1..]
  {
    var i := IndexOf(s[1..], x);
    var j := IndexOf(s, x);
    assert j == i + 1;
    var a, b := s[1..][..i], s[1..][i + 1..];
    assert a == s[1..j];
    assert b == s[j + 1..];
    assert s[..j] == [s[0]] + a;
    assert [s[0]] + (a + b) == ([s[0]] + a) + b;
  }

  /** Removing the middle element of a repetition-free list. */
  lemma NoDupMiddle<T>(pre: seq<T>, x: T, rest: seq<T>)
    requires NoDup(pre + [x] + rest)
    ensures NoDup(pre + rest) && x !in pre && x !in rest
    ensures Remove(pre + [x] + rest, x) == Ok(pre + rest)
  {
    var l := pre + [x] + rest;
    forall a, b | 0 <= a < b < |pre + rest| ensures (pre + rest)[a] != (pre + rest)[b] {
      var a' := if a < |pre| then a else a + 1;
      var b' := if b < |pre| then b else b + 1;
      assert (pre + rest)[a] == l[a'] && (pre + rest)[b] == l[b'];
    }
    assert forall j | 0 <= j < |pre| :: pre[j] == l[j];
    assert forall j | 0 <= j < |rest| :: rest[j] == l[|pre| + 1 + j];
    var i := IndexOf(l, x);
    assert l[|pre|] == x;
    assert i == |pre|;
    assert l[..i] == pre;
    assert l[i + 1..] == rest;
  }

  /** Every occurrence of `x` filtered out, order kept. */
  function Without<T(==,!new)>(s: seq<T>, x: T): (r: seq<T>)
    ensures x !in r
    ensures forall y :: y in r <==> y in s && y != x
    ensures |r| <= |s|
  {
    if |s| == 0 then []
    else if s[0] == x then Without(s[1..], x)
    else [s[0]] + Without(s[1..], x)
  }

  lemma WithoutAbsent<T(!new)>(s: seq<T>, x: T)
    requires x !in s
    ensures Without(s, x) == s
  {
  }

  /** On a list without repetitions, `list.remove` is the filter. */
  lemma {:induction false} RemoveIsWithout<T(!new)>(s: seq<T>, x: T)
    requires NoDup(s) && x in s
    ensures Remove(s, x) == Ok(Without(s, x))
    ensures |Without(s, x)| == |s| - 1
  {
    if s[0] == x {
      assert x !in s[1..];
      WithoutAbsent(s[1..], x);
    } else {
      RemoveIsWithout(s[1..], x);
    }
  }

  lemma {:induction false} WithoutKeepsNoDup<T(!new)>(s: seq<T>, x: T)
    requires NoDup(s)
    ensures NoDup(Without(s, x))
  {
    if |s| > 0 {
      WithoutKeepsNoDup(s[1..], x);
      assert s[0] !in s[1..];
    }
  }

  /** `{x: i for i, x in enumerate(s)}`: a later occurrence overwrites an
      earlier one, so every key maps to its LAST position. */
  function RankTable<T(==)>(s: seq<T>): (r: map<T, nat>)
    ensures r.Keys == set x | x in s
    ensures forall x | x in r :: r[x] < |s| && s[r[x]] == x
  {
    if |s| == 0 then map[]
    else
      var init := s[..|s| - 1];
      var r := RankTable(init);
      assert forall x | x in r :: s[r[x]] == init[r[x]];
      r[s[|s| - 1] := |s| - 1]
  }

  /** The rank tables of short lists, as displays. */
  lemma RankTableOne<T>(a: T)
    ensures RankTable([a]) == map[a := 0]
  {
    assert [a][..0] == [];
  }

  lemma RankTableTwo<T>(a: T, b: T)
    ensures RankTable([a, b]) == map[a := 0, b := 1]
  {
    assert [a, b][..1] == [a];
    RankTableOne(a);
  }

  lemma RankTableThree<T>(a: T, b: T, c: T)
    ensures RankTable([a, b, c]) == map[a := 0, b := 1, c := 2]
  {
    assert [a, b, c][..2] == [a, b];
    RankTableTwo(a, b);
  }

  /** A repeated element is ranked by its last occurrence. */
  lemma {:induction false} RankTableLast<T>(s: seq<T>, x: T)
    requires x in s
    ensures x !in s[RankTable(s)[x] + 1..]
  {
    var last := |s| - 1;
    var init := s[..last];
    assert s == init + [s[last]];
    if s[last] != x {
      assert x in init;
      RankTableLast(init, x);
      var k := RankTable(init)[x];
      assert RankTable(s)[x] == k;
      assert s[k + 1..] == init[k + 1..] + [s[last]];
    }
  }

  /** Without repetitions the rank of the element at position `i` is `i`. */
  lemma RankTableNoDup<T>(s: seq<T>)
    requires NoDup(s)
    ensures forall i | 0 <= i < |s| :: s[i] in RankTable(s) && RankTable(s)[s[i]] == i
  {
    var r := RankTable(s);
    forall i | 0 <= i < |s|
      ensures r[s[i]] == i
    {
      assert s[r[s[i]]] == s[i];
    }
  }

  /** A prefix of a list without repetitions has none. */
  lemma PrefixNoDup<T>(p: seq<T>, orig: seq<T>)
    requires p <= orig && NoDup(orig)
    ensures NoDup(p)
  {
    forall i, j | 0 <= i < j < |p| ensures p[i] != p[j] {
      assert p[i] == orig[i] && p[j] == orig[j];
    }
  }

  /** `s[i:]` for a non-negative `i`: empty when `i` is past the end. */
  function Drop<T>(s: seq<T>, i: nat): (r: seq<T>)
    ensures |r| == if i <= |s| then |s| - i else 0
    ensures forall k | 0 <= k < |r| :: r[k] == s[i + k]
  {
    if i <= |s| then s[i..] else []
  }

  lemma DropNoDup<T>(s: seq<T>, i: nat)
    requires NoDup(s)
    ensures NoDup(Drop(s, i))
  {
    var d := Drop(s, i);
    forall a, b | 0 <= a < b < |d| ensures d[a] != d[b] {
      assert d[a] == s[i + a] && d[b] == s[i + b];
    }
  }

  /** `s[:i]` for a non-negative `i`: the whole list when `i` is past the end. */
  function Take<T>(s: seq<T>, i: nat): (r: seq<T>)
    ensures r <= s
    ensures |r| == if i <= |s| then i else |s|
  {
    if i <= |s| then s[..i] else s
  }

  /** An index normalised as Python slicing does: a negative bound counts
      from the end, and every bound is clamped into `[0, n]`. */
  function SliceBound(b: int, n: nat): (r: nat)
    ensures r <= n
    ensures 0 <= b <= n ==> r == b
    ensures b > n ==> r == n
  {
    var c := if b < 0 then b + n else b;
    if c < 0 then 0 else if c > n then n else c
  }

  /** `s[start:stop]` with Python's semantics for any integer bounds. */
  function PySlice<T>(s: seq<T>, start: int, stop: int): (r: seq<T>)
    ensures |r| <= |s|
    ensures 0 <= start <= stop <= |s| ==> r == s[start..stop]
  {
    var lo := SliceBound(start, |s|);
    var hi := SliceBound(stop, |s|);
    if lo < hi then s[lo..hi] else []
  }

  /** The concatenation of a list of groups, as `[x for g in gs for x in g]`. */
  function Flatten<T(!new)>(gs: seq<seq<T>>): (r: seq<T>)
    ensures forall x :: x in r <==> exists g | g in gs :: x in g
  {
    if |gs| == 0 then []
    else
      var r := gs[0] + Flatten(gs[1..]);
      assert forall g | g in gs[1..] :: g in gs;
      assert forall x | x in r && x !in gs[0] :: exists g | g in gs[1..] :: x in g;
      r
  }

  lemma {:induction false} FlattenAppend<T(!new)>(gs: seq<seq<T>>, g: seq<T>)
    ensures Flatten(gs + [g]) == Flatten(gs) + g
  {
    if |gs| == 0 {
      assert [g][1..] == [];
    } else {
      assert (gs + [g])[1..] == gs[1..] + [g];
      FlattenAppend(gs[1..], g);
    }
  }

  /** A list and a set with the same members: some element of the list is
      in `B` exactly when some member of the set is. */
  lemma SomeInSeq<T>(ws: seq<T>, C: iset<T>, B: iset<T>)
    requires forall x :: x in ws <==> x in C
    ensures (exists i | 0 <= i < |ws| :: ws[i] in B) <==> exists x | x in C :: x in B
  {
    if exists x | x in C :: x in B {
      var x :| x in C && x in B;
      var i :| 0 <= i < |ws| && ws[i] == x;
    }
  }

  /** The rank tables a reader builds for one side: each agent's list
      mapped to its position table. */
  function Ranks<K(==), T(==)>(P: map<K, seq<T>>): (r: map<K, map<T, nat>>)
    ensures r.Keys == P.Keys
    ensures forall a | a in P :: r[a] == RankTable(P[a])
  {
    map a | a in P :: RankTable(P[a])
  }

  /** Position in a repetition-free list decides membership of a prefix. */
  lemma PrefixByRank<T>(l: seq<T>, x: T, k: nat)
    requires NoDup(l) && x in l && k <= |l|
    ensures x in l[..k] <==> RankTable(l)[x] < k
  {
    RankTableNoDup(l);
    if x in l[..k] {
      var i :| 0 <= i < k && l[..k][i] == x;
      assert l[i] == x;
    }
    if RankTable(l)[x] < k {
      assert l[..k][RankTable(l)[x]] == x;
    }
  }

  /** Adding a new element to a set, and removing a member, change its
      size by one. */
  lemma CardAdd<T>(a: set<T>, x: T)
    requires x !in a
    ensures |a + {x}| == |a| + 1
  {
  }

  lemma CardRemove<T>(a: set<T>, x: T)
    requires x in a
    ensures |a - {x}| == |a| - 1
  {
  }

  /** Two updates of the same key: the second wins. */
  lemma UpdateTwice<K, V>(m: map<K, V>, k: K, a: V, b: V)
    ensures m[k := a][k := b] == m[k := b]
  {
  }

  /** Overwriting a present key leaves the key set alone. */
  lemma UpdateKeys<K, V>(m: map<K, V>, k: K, v: V)
    requires k in m
    ensures m[k := v].Keys == m.Keys
  {
  }

  /** `[x for x in xs if x in keep]`. */
  function Filter<T(!new)>(xs: seq<T>, keep: set<T>): (r: seq<T>)
    ensures forall x :: x in r <==> x in xs && x in keep
    ensures |r| <= |xs|
  {
    if |xs| == 0 then []
    else (if xs[0] in keep then [xs[0]] else []) + Filter(xs[1..], keep)
  }

  lemma {:induction false} FilterNoDup<T(!new)>(xs: seq<T>, keep: set<T>)
    requires NoDup(xs)
    ensures NoDup(Filter(xs, keep))
  {
    if |xs| > 0 {
      NoDupStep(xs);
      FilterNoDup(xs[1..], keep);
      var t := Filter(xs[1..], keep);
      if xs[0] in keep {
        assert xs[0] !in t;
        assert ([xs[0]] + t)[1..] == t;
        NoDupStep([xs[0]] + t);
      }
    }
  }

  /** Filtering a concatenation filters each part. */
  lemma {:induction false} FilterAppend<T(!new)>(a: seq<T>, b: seq<T>, keep: set<T>)
    ensures Filter(a + b, keep) == Filter(a, keep) + Filter(b, keep)
  {
    if |a| == 0 {
      assert a + b == b;
    } else {
      var head: seq<T> := if a[0] in keep then [a[0]] else [];
      assert (a + b)[0] == a[0];
      assert (a + b)[1..] == a[1..] + b;
      FilterAppend(a[1..], b, keep);
      assert Filter(a + b, keep) == head + (Filter(a[1..], keep) + Filter(b, keep));
      assert head + (Filter(a[1..], keep) + Filter(b, keep)) == (head + Filter(a[1..], keep)) + Filter(b, keep);
    }
  }

  /** `order` lists the keys of a dictionary once each, in iteration order. */
  ghost predicate Enumerates<T>(order: seq<T>, keys: set<T>) {
    && NoDup(order)
    && (forall i | 0 <= i < |order| :: order[i] in keys)
    && (forall k | k in keys :: k in order)
  }
}
