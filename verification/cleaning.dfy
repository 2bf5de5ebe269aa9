/** Acceptability cleaning: a pair that is not listed on both sides is
    struck from every list that names it, so that afterwards acceptability
    is mutual.

    Two implementations exist. The cleaning readers (`fileReader` and
    `dictionaryReader` of the stable-marriage and hospitals/residents
    problems) make two passes: the first side's lists are filtered against
    the other side's lists as read, then the other side's lists are filtered
    against the first side's CLEANED lists. `clean_unacceptable_pairs` of
    `AbstractPreferenceInstance` instead visits every pair of the product of
    the two sides once and applies `list.remove` to each side that lists a
    pair that is not mutual. On lists without repetitions both give the same
    result (`ProductAgreesWithPasses`). */
module Cleaning {
  import opened Wrappers
  import opened Lists

  type Id = string
  type Prefs = map<Id, seq<Id>>

  // ---------------------------------------------------------------------
  // Subsequences: what "order is preserved" means for a cleaned list.
  // ---------------------------------------------------------------------

  /** `xs` is `ys` with some entries left out, in the same order. */
  predicate Subseq<T(==)>(xs: seq<T>, ys: seq<T>)
    decreases |ys|
  {
    if |xs| == 0 then true
    else if |ys| == 0 then false
    else if xs[0] == ys[0] then Subseq(xs[1..], ys[1..])
    else Subseq(xs, ys[1..])
  }

  lemma {:induction false} SubseqRefl<T>(xs: seq<T>)
    ensures Subseq(xs, xs)
    decreases |xs|
  {
    if |xs| > 0 {
      SubseqRefl(xs[1..]);
    }
  }

  lemma {:induction false} SubseqMembers<T>(xs: seq<T>, ys: seq<T>)
    requires Subseq(xs, ys)
    ensures forall x | x in xs :: x in ys
    decreases |ys|
  {
    if |xs| > 0 {
      assert |ys| > 0;
      if xs[0] == ys[0] {
        SubseqMembers(xs[1..], ys[1..]);
        assert forall x | x in xs :: x == xs[0] || x in xs[1..];
      } else {
        SubseqMembers(xs, ys[1..]);
      }
    }
  }

  /** Dropping the first kept entry keeps a subsequence. */
  lemma {:induction false} SubseqDropHead<T>(xs: seq<T>, ys: seq<T>)
    requires |xs| > 0 && Subseq(xs, ys)
    ensures Subseq(xs[1..], ys)
    decreases |ys|
  {
    if xs[0] == ys[0] {
      SubseqSkip(xs[1..], ys);
    } else {
      SubseqDropHead(xs, ys[1..]);
      SubseqSkip(xs[1..], ys);
    }
  }

  /** A subsequence of the tail is a subsequence of the whole list. */
  lemma {:induction false} SubseqSkip<T>(xs: seq<T>, ys: seq<T>)
    requires |ys| > 0 && Subseq(xs, ys[1..])
    ensures Subseq(xs, ys)
    decreases |ys|, 0
  {
    if |xs| > 0 && xs[0] == ys[0] {
      SubseqDropHead(xs, ys[1..]);
    }
  }

  lemma {:induction false} SubseqTrans<T>(xs: seq<T>, ys: seq<T>, zs: seq<T>)
    requires Subseq(xs, ys) && Subseq(ys, zs)
    ensures Subseq(xs, zs)
    decreases |zs|
  {
    if |xs| > 0 {
      assert |ys| > 0 && |zs| > 0;
      if ys[0] == zs[0] {
        if xs[0] == ys[0] {
          SubseqTrans(xs[1..], ys[1..], zs[1..]);
        } else {
          SubseqTrans(xs, ys[1..], zs[1..]);
        }
      } else {
        SubseqTrans(xs, ys, zs[1..]);
        SubseqSkip(xs, zs);
      }
    }
  }

  /** Two subsequences of a list without repetitions that hold the same
      elements are the same list: the order is fixed by the list. */
  lemma {:induction false} SubseqUnique<T>(xs: seq<T>, ys: seq<T>, zs: seq<T>)
    requires NoDup(zs) && Subseq(xs, zs) && Subseq(ys, zs)
    requires forall x :: x in xs <==> x in ys
    ensures xs == ys
    decreases |zs|
  {
    if |zs| == 0 {
      assert |xs| == 0 && |ys| == 0;
    } else {
      NoDupStep(zs);
      var z := zs[0];
      if z in xs {
        assert xs[0] == z by {
          if xs[0] != z {
            SubseqMembers(xs, zs[1..]);
          }
        }
        assert ys[0] == z by {
          if ys[0] != z {
            SubseqMembers(ys, zs[1..]);
          }
        }
        SubseqMembers(xs[1..], zs[1..]);
        SubseqMembers(ys[1..], zs[1..]);
        forall x ensures x in xs[1..] <==> x in ys[1..] {
          assert x in xs <==> x == z || x in xs[1..];
          assert x in ys <==> x == z || x in ys[1..];
        }
        SubseqUnique(xs[1..], ys[1..], zs[1..]);
        assert xs == [z] + xs[1..] && ys == [z] + ys[1..];
      } else {
        if |xs| > 0 {
          assert xs[0] != z;
        }
        if |ys| > 0 {
          assert ys[0] != z;
        }
        SubseqUnique(xs, ys, zs[1..]);
      }
    }
  }

  lemma {:induction false} SubseqNoDup<T>(xs: seq<T>, ys: seq<T>)
    requires NoDup(ys) && Subseq(xs, ys)
    ensures NoDup(xs)
    decreases |ys|
  {
    if |xs| > 0 {
      NoDupStep(ys);
      if xs[0] == ys[0] {
        SubseqNoDup(xs[1..], ys[1..]);
        SubseqMembers(xs[1..], ys[1..]);
        NoDupStep(xs);
      } else {
        SubseqNoDup(xs, ys[1..]);
      }
    }
  }

  /** A filtered list is a subsequence of the list. */
  lemma {:induction false} FilterSubseq<T(!new)>(xs: seq<T>, keep: set<T>)
    ensures Subseq(Filter(xs, keep), xs)
    decreases |xs|
  {
    if |xs| > 0 {
      FilterSubseq(xs[1..], keep);
      if xs[0] in keep {
        assert ([xs[0]] + Filter(xs[1..], keep))[1..] == Filter(xs[1..], keep);
      } else {
        assert Filter(xs, keep) == Filter(xs[1..], keep);
        SubseqSkip(Filter(xs, keep), xs);
      }
    }
  }

  /** Filtering with a condition every entry meets changes nothing. */
  lemma {:induction false} FilterAll<T(!new)>(xs: seq<T>, keep: set<T>)
    requires forall x | x in xs :: x in keep
    ensures Filter(xs, keep) == xs
    decreases |xs|
  {
    if |xs| > 0 {
      FilterAll(xs[1..], keep);
    }
  }

  /** `list.remove` leaves a subsequence. */
  lemma {:induction false} RemoveSubseq<T>(s: seq<T>, x: T)
    requires x in s
    ensures Subseq(Remove(s, x).value, s)
    decreases |s|
  {
    if s[0] == x {
      SubseqRefl(s[1..]);
      SubseqSkip(s[1..], s);
    } else {
      assert x in s[1..];
      RemoveSubseq(s[1..], x);
      assert Remove(s, x).value == [s[0]] + Remove(s[1..], x).value;
      assert ([s[0]] + Remove(s[1..], x).value)[1..] == Remove(s[1..], x).value;
    }
  }

  // ---------------------------------------------------------------------
  // The two passes of the cleaning readers.
  // ---------------------------------------------------------------------

  /** Every agent some list of `A` names is an agent of `B`: what the
      readers' `self.women[w]` lookups need. */
  predicate Known(A: Prefs, B: Prefs) {
    forall a, w | a in A && w in A[a] :: w in B
  }

  /** The agents `a` keeps: those whose list in `B` names `a` back. */
  function Accepting(a: Id, B: Prefs): set<Id> {
    set w | w in B && a in B[w]
  }

  /** One pass: each list of `A`, in order, keeps only the agents whose list
      in `B` names its owner; a listed agent `B` does not hold raises
      KeyError. */
  function CleanSide(A: Prefs, B: Prefs): (r: Result<Prefs>)
    ensures r.Ok? <==> Known(A, B)
    ensures r.Ok? ==> r.value.Keys == A.Keys
    ensures r.Ok? ==> forall a, w | a in A :: w in r.value[a] <==> w in A[a] && a in B[w]
  {
    if Known(A, B) then Ok(map a | a in A :: Filter(A[a], Accepting(a, B)))
    else Err(KeyError)
  }

  /** Each list a pass produces is a subsequence of the list it cleans. */
  lemma CleanSideSubseq(A: Prefs, B: Prefs, a: Id)
    requires Known(A, B) && a in A
    ensures Subseq(CleanSide(A, B).value[a], A[a])
  {
    FilterSubseq(A[a], Accepting(a, B));
  }

  /** The readers' cleaning: the first side against the other side as read,
      then the other side against the first side's cleaned lists. */
  function Clean(A: Prefs, B: Prefs): (r: Result<(Prefs, Prefs)>)
    ensures r.Ok? <==> Known(A, B) && Known(B, A)
    ensures r.Ok? ==> r.value.0.Keys == A.Keys && r.value.1.Keys == B.Keys
  {
    var A' :- CleanSide(A, B);
    var B' :- CleanSide(B, A');
    Ok((A', B'))
  }

  /** After both passes acceptability is mutual: `b` is on `a`'s cleaned
      list exactly when `a` is on `b`'s, and exactly when the pair was
      listed on both sides to begin with. */
  lemma CleanSymmetric(A: Prefs, B: Prefs)
    requires Clean(A, B).Ok?
    ensures var (A', B') := Clean(A, B).value;
      && (forall a, b | a in A' && b in B' :: b in A'[a] <==> a in B'[b])
      && (forall a, b | a in A' && b in A'[a] :: b in B' && b in A[a] && a in B[b])
      && (forall b, a | b in B' && a in B'[b] :: a in A' && b in A[a] && a in B[b])
  {
  }

  /** Mutually listed pairs survive the cleaning. */
  lemma CleanKeepsMutual(A: Prefs, B: Prefs, a: Id, b: Id)
    requires Clean(A, B).Ok?
    requires a in A && b in A[a] && b in B && a in B[b]
    ensures b in Clean(A, B).value.0[a] && a in Clean(A, B).value.1[b]
  {
  }

  /** Cleaning keeps each list's order and its freedom from repetitions. */
  lemma CleanOrder(A: Prefs, B: Prefs)
    requires Clean(A, B).Ok?
    ensures forall a | a in A :: Subseq(Clean(A, B).value.0[a], A[a])
    ensures forall b | b in B :: Subseq(Clean(A, B).value.1[b], B[b])
    ensures forall a | a in A && NoDup(A[a]) :: NoDup(Clean(A, B).value.0[a])
    ensures forall b | b in B && NoDup(B[b]) :: NoDup(Clean(A, B).value.1[b])
  {
    var A' := CleanSide(A, B).value;
    forall a | a in A
      ensures Subseq(A'[a], A[a])
      ensures NoDup(A[a]) ==> NoDup(A'[a])
    {
      CleanSideSubseq(A, B, a);
      if NoDup(A[a]) {
        SubseqNoDup(A'[a], A[a]);
      }
    }
    forall b | b in B
      ensures Subseq(Clean(A, B).value.1[b], B[b])
      ensures NoDup(B[b]) ==> NoDup(Clean(A, B).value.1[b])
    {
      CleanSideSubseq(B, A', b);
      if NoDup(B[b]) {
        SubseqNoDup(Clean(A, B).value.1[b], B[b]);
      }
    }
  }

  /** Cleaning is idempotent: cleaned lists are already mutual. */
  lemma CleanIdempotent(A: Prefs, B: Prefs)
    requires Clean(A, B).Ok?
    ensures var (A', B') := Clean(A, B).value; Clean(A', B') == Ok((A', B'))
  {
    var (A', B') := Clean(A, B).value;
    CleanSymmetric(A, B);
    assert Known(A', B') && Known(B', A');
    var A'' := CleanSide(A', B').value;
    forall a | a in A' ensures A''[a] == A'[a] {
      FilterAll(A'[a], Accepting(a, B'));
    }
    assert A'' == A';
    var B'' := CleanSide(B', A'').value;
    forall b | b in B' ensures B''[b] == B'[b] {
      FilterAll(B'[b], Accepting(b, A'));
    }
    assert B'' == B';
  }

  // ---------------------------------------------------------------------
  // `clean_unacceptable_pairs`: one visit per pair of the product.
  // ---------------------------------------------------------------------

  /** `product(a_side, b_side)`: all pairs, the first side outermost. */
  function Product(xs: seq<Id>, ys: seq<Id>): (ps: seq<(Id, Id)>)
    ensures forall a, b :: (a, b) in ps <==> a in xs && b in ys
  {
    if |xs| == 0 then []
    else
      var row := seq(|ys|, j requires 0 <= j < |ys| => (xs[0], ys[j]));
      forall a, b ensures (a, b) in row <==> a == xs[0] && b in ys {
        if a == xs[0] && b in ys {
          var j :| 0 <= j < |ys| && ys[j] == b;
          assert row[j] == (a, b);
        }
      }
      row + Product(xs[1..], ys)
  }

  /** The body of the loop for one pair: a pair that is not listed on both
      sides is removed, by its first occurrence, from each side listing it. */
  function CleanPair(men: Prefs, women: Prefs, a: Id, b: Id): (r: (Prefs, Prefs))
    requires a in men && b in women
    ensures r.0.Keys == men.Keys && r.1.Keys == women.Keys
    ensures forall x | x in men && x != a :: r.0[x] == men[x]
    ensures forall y | y in women && y != b :: r.1[y] == women[y]
  {
    var aInB := a in women[b];
    var bInA := b in men[a];
    if aInB && bInA then (men, women)
    else
      var men' := if bInA then men[a := Remove(men[a], b).value] else men;
      var women' := if aInB then women[b := Remove(women[b], a).value] else women;
      (men', women')
  }

  /** On lists without repetitions a visited pair ends up either on both
      sides or on neither; no other membership changes. */
  lemma CleanPairMembers(men: Prefs, women: Prefs, a: Id, b: Id)
    requires a in men && b in women && NoDup(men[a]) && NoDup(women[b])
    ensures var (m1, w1) := CleanPair(men, women, a, b);
      && (forall y :: y in m1[a] <==> y in men[a] && (y == b ==> a in women[b]))
      && (forall x :: x in w1[b] <==> x in women[b] && (x == a ==> b in men[a]))
      && NoDup(m1[a]) && NoDup(w1[b])
      && Subseq(m1[a], men[a]) && Subseq(w1[b], women[b])
  {
    var (m1, w1) := CleanPair(men, women, a, b);
    SubseqRefl(men[a]);
    SubseqRefl(women[b]);
    if !(a in women[b] && b in men[a]) {
      if b in men[a] {
        RemoveIsWithout(men[a], b);
        WithoutKeepsNoDup(men[a], b);
        RemoveSubseq(men[a], b);
      }
      if a in women[b] {
        RemoveIsWithout(women[b], a);
        WithoutKeepsNoDup(women[b], a);
        RemoveSubseq(women[b], a);
      }
    }
  }

  /** The loop over a sequence of pairs; a pair naming an agent neither
      dictionary holds raises KeyError. */
  function CleanPairs(men: Prefs, women: Prefs, ps: seq<(Id, Id)>): (r: Result<(Prefs, Prefs)>)
    ensures r.Ok? <==> Visitable(men, women, ps)
    ensures r.Ok? ==> r.value.0.Keys == men.Keys && r.value.1.Keys == women.Keys
    decreases |ps|
  {
    if |ps| == 0 then Ok((men, women))
    else
      var (a, b) := ps[0];
      assert forall p :: p in ps <==> p == ps[0] || p in ps[1..];
      if a !in men || b !in women then Err(KeyError)
      else
        var (m1, w1) := CleanPair(men, women, a, b);
        CleanPairs(m1, w1, ps[1..])
  }

  /** No list repeats an entry. */
  ghost predicate Distinct(P: Prefs) {
    forall x | x in P :: NoDup(P[x])
  }

  /** Every pair of `ps` names an agent of each side. */
  predicate Visitable(men: Prefs, women: Prefs, ps: seq<(Id, Id)>) {
    forall p | p in ps :: p.0 in men && p.1 in women
  }

  /** One visit keeps every list free of repetitions and leaves it a
      subsequence of what it was. */
  lemma CleanPairShape(men: Prefs, women: Prefs, a: Id, b: Id)
    requires a in men && b in women && Distinct(men) && Distinct(women)
    ensures var (m1, w1) := CleanPair(men, women, a, b);
      && Distinct(m1) && Distinct(w1)
      && (forall x | x in men :: Subseq(m1[x], men[x]))
      && (forall y | y in women :: Subseq(w1[y], women[y]))
  {
    var (m1, w1) := CleanPair(men, women, a, b);
    CleanPairMembers(men, women, a, b);
    forall x | x in men ensures Subseq(m1[x], men[x]) {
      if x != a {
        SubseqRefl(men[x]);
      }
    }
    forall y | y in women ensures Subseq(w1[y], women[y]) {
      if y != b {
        SubseqRefl(women[y]);
      }
    }
  }

  /** The loop keeps every list free of repetitions and leaves it a
      subsequence of the list it started from. */
  lemma {:induction false} CleanPairsShape(men: Prefs, women: Prefs, ps: seq<(Id, Id)>)
    requires Distinct(men) && Distinct(women) && Visitable(men, women, ps)
    ensures var (m1, w1) := CleanPairs(men, women, ps).value;
      && Distinct(m1) && Distinct(w1)
      && (forall a | a in men :: Subseq(m1[a], men[a]))
      && (forall b | b in women :: Subseq(w1[b], women[b]))
    decreases |ps|
  {
    if |ps| == 0 {
      forall a | a in men ensures Subseq(men[a], men[a]) { SubseqRefl(men[a]); }
      forall b | b in women ensures Subseq(women[b], women[b]) { SubseqRefl(women[b]); }
    } else {
      var (a0, b0) := ps[0];
      assert ps[0] in ps;
      var (m1, w1) := CleanPair(men, women, a0, b0);
      CleanPairShape(men, women, a0, b0);
      assert forall p | p in ps[1..] :: p in ps;
      CleanPairsShape(m1, w1, ps[1..]);
      var (m2, w2) := CleanPairs(m1, w1, ps[1..]).value;
      assert CleanPairs(men, women, ps).value == (m2, w2);
      forall a | a in men ensures Subseq(m2[a], men[a]) {
        SubseqTrans(m2[a], m1[a], men[a]);
      }
      forall b | b in women ensures Subseq(w2[b], women[b]) {
        SubseqTrans(w2[b], w1[b], women[b]);
      }
    }
  }

  /** On lists without repetitions an entry of `a`'s list survives the
      loop exactly when its pair was never visited or was listed on both
      sides. */
  lemma {:induction false} CleanPairsMen(men: Prefs, women: Prefs, ps: seq<(Id, Id)>, a: Id)
    requires Distinct(men) && Distinct(women) && Visitable(men, women, ps) && a in men
    ensures forall y :: y in CleanPairs(men, women, ps).value.0[a] <==>
      y in men[a] && ((a, y) in ps && y in women ==> a in women[y])
    decreases |ps|
  {
    if |ps| > 0 {
      var (a0, b0) := ps[0];
      assert ps[0] in ps;
      var (m1, w1) := CleanPair(men, women, a0, b0);
      CleanPairMembers(men, women, a0, b0);
      CleanPairShape(men, women, a0, b0);
      assert forall p | p in ps[1..] :: p in ps;
      CleanPairsMen(m1, w1, ps[1..], a);
      var m2 := CleanPairs(m1, w1, ps[1..]).value.0;
      assert CleanPairs(men, women, ps).value.0 == m2;
      MenStep(men, women, a0, b0, ps, m2, a);
    }
  }

  /** One visit followed by the rest of the loop, for an agent `a` of the
      first side. */
  lemma MenStep(men: Prefs, women: Prefs, a0: Id, b0: Id, ps: seq<(Id, Id)>, m2: Prefs, a: Id)
    requires |ps| > 0 && ps[0] == (a0, b0) && a0 in men && b0 in women && a in men
    requires NoDup(men[a0]) && NoDup(women[b0])
    requires var (m1, w1) := CleanPair(men, women, a0, b0);
      a in m2 && forall y :: y in m2[a] <==> y in m1[a] && ((a, y) in ps[1..] && y in w1 ==> a in w1[y])
    ensures forall y :: y in m2[a] <==> y in men[a] && ((a, y) in ps && y in women ==> a in women[y])
  {
    CleanPairMembers(men, women, a0, b0);
    forall y ensures y in m2[a] <==> y in men[a] && ((a, y) in ps && y in women ==> a in women[y]) {
      assert (a, y) in ps <==> (a, y) == (a0, b0) || (a, y) in ps[1..];
    }
  }

  /** The same for an agent `b` of the second side. */
  lemma {:induction false} CleanPairsWomen(men: Prefs, women: Prefs, ps: seq<(Id, Id)>, b: Id)
    requires Distinct(men) && Distinct(women) && Visitable(men, women, ps) && b in women
    ensures forall x :: x in CleanPairs(men, women, ps).value.1[b] <==>
      x in women[b] && ((x, b) in ps && x in men ==> b in men[x])
    decreases |ps|
  {
    if |ps| > 0 {
      var (a0, b0) := ps[0];
      assert ps[0] in ps;
      var (m1, w1) := CleanPair(men, women, a0, b0);
      CleanPairMembers(men, women, a0, b0);
      CleanPairShape(men, women, a0, b0);
      assert forall p | p in ps[1..] :: p in ps;
      CleanPairsWomen(m1, w1, ps[1..], b);
      var w2 := CleanPairs(m1, w1, ps[1..]).value.1;
      assert CleanPairs(men, women, ps).value.1 == w2;
      WomenStep(men, women, a0, b0, ps, w2, b);
    }
  }

  /** One visit followed by the rest of the loop, for an agent `b` of the
      second side. */
  lemma WomenStep(men: Prefs, women: Prefs, a0: Id, b0: Id, ps: seq<(Id, Id)>, w2: Prefs, b: Id)
    requires |ps| > 0 && ps[0] == (a0, b0) && a0 in men && b0 in women && b in women
    requires NoDup(men[a0]) && NoDup(women[b0])
    requires var (m1, w1) := CleanPair(men, women, a0, b0);
      b in w2 && forall x :: x in w2[b] <==> x in w1[b] && ((x, b) in ps[1..] && x in m1 ==> b in m1[x])
    ensures forall x :: x in w2[b] <==> x in women[b] && ((x, b) in ps && x in men ==> b in men[x])
  {
    CleanPairMembers(men, women, a0, b0);
    forall x ensures x in w2[b] <==> x in women[b] && ((x, b) in ps && x in men ==> b in men[x]) {
      assert (x, b) in ps <==> (x, b) == (a0, b0) || (x, b) in ps[1..];
    }
  }

  /** `clean_unacceptable_pairs(men, women)`: the pairs of the product of
      the two dictionaries' keys, in iteration order. */
  function CleanProduct(men: Prefs, women: Prefs, mOrder: seq<Id>, wOrder: seq<Id>): (r: Result<(Prefs, Prefs)>)
    requires Enumerates(mOrder, men.Keys) && Enumerates(wOrder, women.Keys)
    ensures r.Ok?
  {
    CleanPairs(men, women, Product(mOrder, wOrder))
  }

  /** Over the whole product, on lists without repetitions, an entry of
      the first side is kept exactly when its pair was listed on both
      sides, or when it names an agent the other side does not hold (such a
      pair is never visited). */
  lemma CleanProductMen(men: Prefs, women: Prefs, mOrder: seq<Id>, wOrder: seq<Id>, a: Id)
    requires Enumerates(mOrder, men.Keys) && Enumerates(wOrder, women.Keys)
    requires Distinct(men) && Distinct(women) && a in men
    ensures forall b :: b in CleanProduct(men, women, mOrder, wOrder).value.0[a] <==>
      b in men[a] && (b in women ==> a in women[b])
  {
    var ps := Product(mOrder, wOrder);
    assert Visitable(men, women, ps);
    CleanPairsMen(men, women, ps, a);
    forall b ensures (a, b) in ps <==> b in women {}
  }

  /** The same for the second side. */
  lemma CleanProductWomen(men: Prefs, women: Prefs, mOrder: seq<Id>, wOrder: seq<Id>, b: Id)
    requires Enumerates(mOrder, men.Keys) && Enumerates(wOrder, women.Keys)
    requires Distinct(men) && Distinct(women) && b in women
    ensures forall a :: a in CleanProduct(men, women, mOrder, wOrder).value.1[b] <==>
      a in women[b] && (a in men ==> b in men[a])
  {
    var ps := Product(mOrder, wOrder);
    assert Visitable(men, women, ps);
    CleanPairsWomen(men, women, ps, b);
    forall a ensures (a, b) in ps <==> a in men {}
  }

  /** After the product loop, on lists without repetitions, `b` is on `a`'s
      list exactly when `a` is on `b`'s. */
  lemma CleanProductSymmetric(men: Prefs, women: Prefs, mOrder: seq<Id>, wOrder: seq<Id>, a: Id, b: Id)
    requires Enumerates(mOrder, men.Keys) && Enumerates(wOrder, women.Keys)
    requires Distinct(men) && Distinct(women) && a in men && b in women
    ensures var r := CleanProduct(men, women, mOrder, wOrder).value;
      b in r.0[a] <==> a in r.1[b]
  {
    CleanProductMen(men, women, mOrder, wOrder, a);
    CleanProductWomen(men, women, mOrder, wOrder, b);
  }

  /** The product loop keeps each list's order and its freedom from
      repetitions. */
  lemma CleanProductOrder(men: Prefs, women: Prefs, mOrder: seq<Id>, wOrder: seq<Id>)
    requires Enumerates(mOrder, men.Keys) && Enumerates(wOrder, women.Keys)
    requires Distinct(men) && Distinct(women)
    ensures var r := CleanProduct(men, women, mOrder, wOrder).value;
      && Distinct(r.0) && Distinct(r.1)
      && (forall a | a in men :: Subseq(r.0[a], men[a]))
      && (forall b | b in women :: Subseq(r.1[b], women[b]))
  {
    var ps := Product(mOrder, wOrder);
    assert Visitable(men, women, ps);
    CleanPairsShape(men, women, ps);
  }

  /** Two lists with the members the two cleanings give a list of the
      first side have the same members. */
  lemma MenMembers(men: Prefs, women: Prefs, a: Id, m1a: seq<Id>, m2a: seq<Id>)
    requires Known(men, women) && a in men
    requires forall b :: b in m1a <==> b in men[a] && (b in women ==> a in women[b])
    requires forall b :: b in m2a <==> b in men[a] && a in women[b]
    ensures forall b :: b in m1a <==> b in m2a
  {
  }

  /** The product loop leaves the first side's lists exactly as the first
      pass of the readers does, when every list is free of repetitions and
      names only known agents. */
  lemma AgreeMen(men: Prefs, women: Prefs, mOrder: seq<Id>, wOrder: seq<Id>)
    requires Enumerates(mOrder, men.Keys) && Enumerates(wOrder, women.Keys)
    requires Distinct(men) && Distinct(women) && Known(men, women)
    ensures CleanProduct(men, women, mOrder, wOrder).value.0 == CleanSide(men, women).value
  {
    var m1 := CleanProduct(men, women, mOrder, wOrder).value.0;
    var m2 := CleanSide(men, women).value;
    CleanProductOrder(men, women, mOrder, wOrder);
    forall a | a in men ensures m1[a] == m2[a] {
      AgreeMenAt(men, women, mOrder, wOrder, a, m1[a], m2[a]);
    }
  }

  /** At one man: the product loop and the men's pass keep the same list. */
  lemma AgreeMenAt(men: Prefs, women: Prefs, mOrder: seq<Id>, wOrder: seq<Id>, a: Id, m1a: seq<Id>, m2a: seq<Id>)
    requires Enumerates(mOrder, men.Keys) && Enumerates(wOrder, women.Keys)
    requires Distinct(men) && Distinct(women) && Known(men, women) && a in men
    requires m1a == CleanProduct(men, women, mOrder, wOrder).value.0[a] && Subseq(m1a, men[a])
    requires m2a == CleanSide(men, women).value[a]
    ensures m1a == m2a
  {
    CleanSideSubseq(men, women, a);
    CleanProductMen(men, women, mOrder, wOrder, a);
    assert forall b :: b in m2a <==> b in men[a] && a in women[b];
    MenMembers(men, women, a, m1a, m2a);
    SubseqUnique(m1a, m2a, men[a]);
  }

  /** The same for the second side, against the second pass. */
  lemma AgreeWomen(men: Prefs, women: Prefs, mOrder: seq<Id>, wOrder: seq<Id>)
    requires Enumerates(mOrder, men.Keys) && Enumerates(wOrder, women.Keys)
    requires Distinct(men) && Distinct(women) && Known(men, women) && Known(women, men)
    ensures CleanProduct(men, women, mOrder, wOrder).value.1 == CleanSide(women, CleanSide(men, women).value).value
  {
    var w1 := CleanProduct(men, women, mOrder, wOrder).value.1;
    var m2 := CleanSide(men, women).value;
    var w2 := CleanSide(women, m2).value;
    CleanProductOrder(men, women, mOrder, wOrder);
    forall b | b in women ensures w1[b] == w2[b] {
      CleanSideSubseq(women, m2, b);
      CleanProductWomen(men, women, mOrder, wOrder, b);
      assert forall x :: x in w2[b] <==> x in women[b] && b in men[x] && x in women[b];
      MenMembers(women, men, b, w1[b], w2[b]);
      SubseqUnique(w1[b], w2[b], women[b]);
    }
  }

  /** The two implementations agree: on lists without repetitions that name
      only known agents, the product loop leaves exactly the lists the two
      passes of the readers produce. */
  lemma ProductAgreesWithPasses(men: Prefs, women: Prefs, mOrder: seq<Id>, wOrder: seq<Id>)
    requires Enumerates(mOrder, men.Keys) && Enumerates(wOrder, women.Keys)
    requires Distinct(men) && Distinct(women)
    requires Known(men, women) && Known(women, men)
    ensures CleanProduct(men, women, mOrder, wOrder) == Clean(men, women)
  {
    AgreeMen(men, women, mOrder, wOrder);
    AgreeWomen(men, women, mOrder, wOrder);
  }

  /** A repeated entry defeats `list.remove`: only its first occurrence is
      removed, so a man listing a woman twice who does not list him back
      keeps her once. */
  lemma RepeatSurvives()
    ensures var men := map["m1" := ["w1", "w1"]];
      var women := map["w1" := []];
      var r := CleanProduct(men, women, ["m1"], ["w1"]).value;
      "w1" in r.0["m1"] && "m1" !in r.1["w1"]
  {
    var men := map["m1" := ["w1", "w1"]];
    var women: Prefs := map["w1" := []];
    assert Product(["m1"], ["w1"]) == [("m1", "w1")];
    var (m1, w1) := CleanPair(men, women, "m1", "w1");
    assert Remove(["w1", "w1"], "w1") == Ok(["w1"]);
    assert CleanPairs(men, women, [("m1", "w1")]) == CleanPairs(m1, w1, []);
  }

  // ---------------------------------------------------------------------
  // The constructor of `AbstractPreferenceInstance`.
  // ---------------------------------------------------------------------

  /** The constructor: exactly one of a file name and a dictionary must be
      given, and a file name must name an existing file (`os.path.isfile`,
      passed as `isFile`); it then loads from that one source with the
      subclass's loader. */
  function Construct<D, T>(filename: Option<string>, dictionary: Option<D>, isFile: string -> bool,
                           fromFile: string -> Result<T>, fromDict: D -> Result<T>): (r: Result<T>)
    ensures filename.None? == dictionary.None? ==> r == Err(AssertionError)
    ensures filename.Some? && dictionary.None? && !isFile(filename.value) ==> r == Err(AssertionError)
    ensures r.Ok? ==>
      || (filename.Some? && dictionary.None? && isFile(filename.value) && r == fromFile(filename.value))
      || (filename.None? && dictionary.Some? && r == fromDict(dictionary.value))
  {
    if filename.None? && dictionary.None? then Err(AssertionError)
    else if filename.Some? && dictionary.Some? then Err(AssertionError)
    else if filename.Some? then
      if !isFile(filename.value) then Err(AssertionError) else fromFile(filename.value)
    else fromDict(dictionary.value)
  }
}
