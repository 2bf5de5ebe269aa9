/** The proposal loop shared by `SMManOptimal` and `SMWomanOptimal`.

    Both classes run the same Gale–Shapley loop with the roles swapped: in the
    man-optimal one the men propose and the women's lists are cut, in the
    woman-optimal one the women propose and the men's lists are cut. The
    model therefore speaks of PROPOSERS and RECEIVERS; module `SMRun`
    instantiates it both ways.

    Working lists shrink as pairs are deleted, while the receivers' rank
    tables stay those of the lists as read. */
module SMEngine {
  import opened Wrappers
  import opened Lists

  type Id = string
  type Prefs = map<Id, seq<Id>>

  /** Preference lists as read: `proposers[m]` is m's list of receivers. */
  datatype Instance = Instance(proposers: Prefs, receivers: Prefs)

  /** A proposer's rank table, built from the list as read. */
  function PRank(I: Instance, m: Id): map<Id, nat> {
    if m in I.proposers then RankTable(I.proposers[m]) else map[]
  }

  /** A receiver's rank table, built from the list as read. */
  function RRank(I: Instance, w: Id): map<Id, nat> {
    if w in I.receivers then RankTable(I.receivers[w]) else map[]
  }

  /** What the cleaning readers hand to the engine: lists without
      repetitions, and acceptability that is mutual. */
  ghost predicate WellFormed(I: Instance) {
    && (forall m | m in I.proposers :: NoDup(I.proposers[m]))
    && (forall w | w in I.receivers :: NoDup(I.receivers[w]))
    && (forall m, w | m in I.proposers && w in I.proposers[m] :: w in I.receivers && m in I.receivers[w])
    && (forall w, m | w in I.receivers && m in I.receivers[w] :: m in I.proposers && w in I.proposers[m])
  }

  /** The engine's mutable fields: the working lists, the receivers' rank
      tables, the matching `M` split by side, and the unassigned set. */
  datatype State = State(
    plist: Prefs,
    rlist: Prefs,
    rrank: map<Id, map<Id, nat>>,
    pmatch: map<Id, Option<Id>>,
    rmatch: map<Id, Option<Id>>,
    free: set<Id>)

  /** The constructor: every proposer is unassigned and nobody is matched. */
  function Init(I: Instance): (s: State)
    ensures s.free == I.proposers.Keys
    ensures forall m | m in I.proposers :: m in s.pmatch && s.pmatch[m] == None
    ensures forall w | w in I.receivers :: w in s.rmatch && s.rmatch[w] == None
    ensures s.plist == I.proposers && s.rlist == I.receivers
  {
    State(I.proposers, I.receivers,
          map w | w in I.receivers :: RankTable(I.receivers[w]),
          map m | m in I.proposers :: None,
          map w | w in I.receivers :: None,
          I.proposers.Keys)
  }

  /** `_delete_pair`: `list.remove` on both sides; fails unless each lists
      the other. */
  function DeletePair(s: State, m: Id, w: Id): (r: Result<State>)
    ensures r.Ok? <==> m in s.plist && w in s.rlist && w in s.plist[m] && m in s.rlist[w]
    ensures r.Ok? ==>
      && r.value == s.(plist := r.value.plist, rlist := r.value.rlist)
      && r.value.plist.Keys == s.plist.Keys && r.value.rlist.Keys == s.rlist.Keys
      && |r.value.plist[m]| == |s.plist[m]| - 1 && |r.value.rlist[w]| == |s.rlist[w]| - 1
      && (forall x | x in s.plist && x != m :: r.value.plist[x] == s.plist[x])
      && (forall v | v in s.rlist && v != w :: r.value.rlist[v] == s.rlist[v])
  {
    if m !in s.plist || w !in s.rlist then Err(KeyError)
    else
      var pl :- Remove(s.plist[m], w);
      var rl :- Remove(s.rlist[w], m);
      Ok(s.(plist := s.plist[m := pl], rlist := s.rlist[w := rl]))
  }

  /** `_free_up`: the proposer loses the partner and is re-queued. */
  function FreeUp(s: State, p: Id): (r: State)
    ensures r.free == s.free + {p} && r.pmatch == s.pmatch[p := None]
    ensures r.plist == s.plist && r.rlist == s.rlist && r.rmatch == s.rmatch && r.rrank == s.rrank
  {
    s.(pmatch := s.pmatch[p := None], free := s.free + {p})
  }

  /** `_engage`. */
  function Engage(s: State, m: Id, w: Id): (r: State)
    ensures r.pmatch == s.pmatch[m := Some(w)] && r.rmatch == s.rmatch[w := Some(m)]
    ensures Consistent(s.pmatch, s.rmatch) && m in s.pmatch && s.pmatch[m].None? && w in s.rmatch && s.rmatch[w].None?
            ==> Consistent(r.pmatch, r.rmatch)
    ensures r.plist == s.plist && r.rlist == s.rlist && r.free == s.free && r.rrank == s.rrank
  {
    s.(pmatch := s.pmatch[m := Some(w)], rmatch := s.rmatch[w := Some(m)])
  }

  /** The deletion loop over a snapshot of the receiver's list tail. */
  function DeleteAll(s: State, rejects: seq<Id>, w: Id): (r: Result<State>)
    ensures r.Ok? ==> r.value.pmatch == s.pmatch && r.value.rmatch == s.rmatch && r.value.free == s.free
    decreases |rejects|
  {
    if |rejects| == 0 then Ok(s)
    else
      var s' :- DeletePair(s, rejects[0], w);
      DeleteAll(s', rejects[1..], w)
  }

  /** One loop iteration once proposer `m` has been popped and has a
      non-empty list: propose to the head, displace its partner, engage,
      and cut the receiver's list from m's original rank on, m included. */
  function Propose(s: State, m: Id): (r: Result<State>)
    requires m in s.plist && |s.plist[m]| > 0
  {
    var w := s.plist[m][0];
    if w !in s.rmatch || w !in s.rlist || w !in s.rrank || m !in s.rrank[w] || m !in s.pmatch then Err(KeyError)
    else
      var p := s.rmatch[w];
      if p.Some? && p.value !in s.pmatch then Err(KeyError)
      else
        var s1 := if p.Some? then FreeUp(s, p.value) else s;
        var s2 := Engage(s1, m, w);
        DeleteAll(s2, Drop(s2.rlist[w], s2.rrank[w][m]), w)
  }

  /** One iteration of `_while_loop` as written, with `m` the element
      `set.pop()` returns: `list[0]` of an exhausted list raises IndexError. */
  function StepAsWritten(s: State, m: Id): (r: Result<State>)
    requires m in s.free
    ensures m in s.plist && s.plist[m] == [] ==> r == Err(IndexError)
  {
    var s0 := s.(free := s.free - {m});
    if m !in s0.plist then Err(KeyError)
    else if |s0.plist[m]| == 0 then Err(IndexError)
    else Propose(s0, m)
  }

  /** The iteration with the evidently intended guard: a proposer whose list
      is exhausted stays single and leaves the queue. */
  function Step(s: State, m: Id): (r: Result<State>)
    requires m in s.free
    ensures m in s.plist && |s.plist[m]| > 0 ==> r == StepAsWritten(s, m)
    ensures m in s.plist && s.plist[m] == [] ==> r == Ok(s.(free := s.free - {m}))
  {
    var s0 := s.(free := s.free - {m});
    if m !in s0.plist then Err(KeyError)
    else if |s0.plist[m]| == 0 then Ok(s0)
    else Propose(s0, m)
  }

  // ---------------------------------------------------------------------
  // Invariants of the loop

  /** Strictly increasing ranks along a list, every element ranked. */
  ghost predicate Increasing(l: seq<Id>, rank: map<Id, nat>) {
    && (forall x | x in l :: x in rank)
    && (forall i, j | 0 <= i < j < |l| :: rank[l[i]] < rank[l[j]])
  }

  /** Every agent and every receiver's rank table is in place. */
  ghost predicate Shape(I: Instance, s: State) {
    && s.plist.Keys == I.proposers.Keys && s.pmatch.Keys == I.proposers.Keys
    && s.rlist.Keys == I.receivers.Keys && s.rmatch.Keys == I.receivers.Keys
    && s.rrank.Keys == I.receivers.Keys
    && (forall w | w in s.rrank :: s.rrank[w] == RRank(I, w))
  }

  /** A proposer's working list is its list as read with entries deleted
      (order kept); a receiver's working list is a prefix of its list as read. */
  ghost predicate ListsShrink(I: Instance, s: State) {
    && (forall m | m in s.plist && m in I.proposers :: Increasing(s.plist[m], PRank(I, m)))
    && (forall w | w in s.rlist && w in I.receivers :: s.rlist[w] <= I.receivers[w])
  }

  /** w is on m's working list iff m is on w's. */
  ghost predicate Symmetric(pl: Prefs, rl: Prefs) {
    forall m, w | m in pl && w in rl :: w in pl[m] <==> m in rl[w]
  }

  /** The two sides of `M` agree. */
  ghost predicate Consistent(pm: map<Id, Option<Id>>, rm: map<Id, Option<Id>>) {
    && (forall m | m in pm && pm[m].Some? :: pm[m].value in rm && rm[pm[m].value] == Some(m))
    && (forall w | w in rm && rm[w].Some? :: rm[w].value in pm && pm[rm[w].value] == Some(w))
  }

  /** The queue holds unmatched proposers only; an unmatched proposer out of
      the queue has exhausted its list. */
  ghost predicate QueueOk(s: State) {
    && s.free <= s.pmatch.Keys
    && (forall m | m in s.free :: s.pmatch[m] == None)
    && (forall m | m in s.pmatch && s.pmatch[m] == None && m !in s.free :: m in s.plist && s.plist[m] == [])
  }

  /** A matched receiver's working list holds only proposers it ranks above
      its partner. */
  ghost predicate CutOk(I: Instance, s: State) {
    forall w | w in s.rmatch && s.rmatch[w].Some? ::
      w in s.rlist && s.rmatch[w].value in RRank(I, w) && |s.rlist[w]| <= RRank(I, w)[s.rmatch[w].value]
  }

  /** A matched proposer's working list holds only receivers it ranks below
      its partner. */
  ghost predicate PassedOk(I: Instance, s: State) {
    forall m | m in s.pmatch && s.pmatch[m].Some? ::
      && m in s.plist && s.pmatch[m].value in PRank(I, m)
      && (forall x | x in s.plist[m] :: x in PRank(I, m) && PRank(I, m)[x] > PRank(I, m)[s.pmatch[m].value])
  }

  /** Every deleted pair is dominated: the receiver holds a partner it ranks
      at least as high as the deleted proposer. */
  ghost predicate RejectedOk(I: Instance, s: State) {
    forall m, w | m in I.proposers && w in I.proposers[m] && m in s.plist && w !in s.plist[m] ::
      && w in s.rmatch && s.rmatch[w].Some?
      && s.rmatch[w].value in RRank(I, w) && m in RRank(I, w)
      && RRank(I, w)[s.rmatch[w].value] <= RRank(I, w)[m]
  }

  ghost predicate Inv(I: Instance, s: State) {
    && WellFormed(I)
    && Shape(I, s)
    && ListsShrink(I, s)
    && Symmetric(s.plist, s.rlist)
    && Consistent(s.pmatch, s.rmatch)
    && QueueOk(s)
    && CutOk(I, s)
    && PassedOk(I, s)
    && RejectedOk(I, s)
  }

  /** (m, w) blocks when each lists the other as read and each is single or
      ranks the other above its partner. */
  ghost predicate Blocks(I: Instance, pm: map<Id, Option<Id>>, rm: map<Id, Option<Id>>, m: Id, w: Id) {
    && m in I.proposers && w in I.proposers[m] && w in I.receivers && m in I.receivers[w]
    && m in pm && w in rm
    && (pm[m].None? || (pm[m].value in PRank(I, m) && PRank(I, m)[w] < PRank(I, m)[pm[m].value]))
    && (rm[w].None? || (rm[w].value in RRank(I, w) && RRank(I, w)[m] < RRank(I, w)[rm[w].value]))
  }

  ghost predicate Stable(I: Instance, pm: map<Id, Option<Id>>, rm: map<Id, Option<Id>>) {
    forall m, w :: !Blocks(I, pm, rm, m, w)
  }

  /** The pairs still on the proposers' working lists; every proposal
      deletes at least the proposing pair. */
  function Pairs(pl: Prefs): set<(Id, Id)> {
    set m, w | m in pl && w in pl[m] :: (m, w)
  }

  // ---------------------------------------------------------------------
  // List facts

  lemma {:induction false} IncreasingWithout(l: seq<Id>, rank: map<Id, nat>, x: Id)
    requires Increasing(l, rank)
    ensures Increasing(Without(l, x), rank)
  {
    if |l| > 0 {
      assert Increasing(l[1..], rank) by { IncreasingTail(l, rank); }
      IncreasingWithout(l[1..], rank, x);
      if l[0] != x {
        var t := Without(l[1..], x);
        forall y | y in t ensures rank[l[0]] < rank[y] {
          var k :| 0 <= k < |l[1..]| && l[1..][k] == y;
          assert l[k + 1] == y;
        }
        IncreasingCons(l[0], t, rank);
      }
    }
  }

  lemma IncreasingTail(l: seq<Id>, rank: map<Id, nat>)
    requires Increasing(l, rank) && |l| > 0
    ensures Increasing(l[1..], rank)
  {
    forall i, j | 0 <= i < j < |l| - 1 ensures rank[l[1..][i]] < rank[l[1..][j]] {
      assert l[1..][i] == l[i + 1] && l[1..][j] == l[j + 1];
    }
  }

  /** A head ranked above everything after it extends an increasing list. */
  lemma IncreasingCons(h: Id, t: seq<Id>, rank: map<Id, nat>)
    requires h in rank && Increasing(t, rank)
    requires forall y | y in t :: rank[h] < rank[y]
    ensures Increasing([h] + t, rank)
  {
    var l := [h] + t;
    forall i, j | 0 <= i < j < |l| ensures rank[l[i]] < rank[l[j]] {
      assert l[j] == t[j - 1];
      if i > 0 {
        assert l[i] == t[i - 1];
      }
    }
  }

  lemma IncreasingNoDup(l: seq<Id>, rank: map<Id, nat>)
    requires Increasing(l, rank)
    ensures NoDup(l)
  {
  }

  /** Every element after the head ranks strictly below it. */
  lemma IncreasingHead(l: seq<Id>, rank: map<Id, nat>)
    requires Increasing(l, rank) && |l| > 0
    ensures forall x | x in Without(l, l[0]) :: rank[x] > rank[l[0]]
  {
    forall x | x in Without(l, l[0]) ensures rank[x] > rank[l[0]] {
      var k :| 0 <= k < |l| && l[k] == x;
    }
  }

  /** On a prefix of a repetition-free list the original rank is the
      position, so the tail from rank k on is exactly the members ranked k
      or lower. */
  lemma PrefixRanks(l: seq<Id>, orig: seq<Id>, k: nat)
    requires l <= orig && NoDup(orig) && k <= |l|
    ensures NoDup(l)
    ensures forall x | x in l :: x in RankTable(orig) && RankTable(orig)[x] < |l| && l[RankTable(orig)[x]] == x
    ensures forall x :: x in l[k..] <==> x in l && RankTable(orig)[x] >= k
    ensures forall x :: x in l[..k] <==> x in l && RankTable(orig)[x] < k
  {
    PrefixPositions(l, orig);
    TailByRank(l, RankTable(orig), k);
    HeadByRank(l, RankTable(orig), k);
  }

  /** A prefix keeps the positions of the list it comes from. */
  lemma PrefixPositions(l: seq<Id>, orig: seq<Id>)
    requires l <= orig && NoDup(orig)
    ensures NoDup(l)
    ensures forall x | x in l :: x in RankTable(orig) && RankTable(orig)[x] < |l| && l[RankTable(orig)[x]] == x
  {
    RankTableNoDup(orig);
    assert forall i | 0 <= i < |l| :: l[i] == orig[i];
    forall x | x in l ensures RankTable(orig)[x] < |l| && l[RankTable(orig)[x]] == x {
      var i :| 0 <= i < |l| && l[i] == x;
    }
  }

  /** With `rank` giving positions, the tail from k on is the members ranked
      k or lower. */
  lemma TailByRank(l: seq<Id>, rank: map<Id, nat>, k: nat)
    requires NoDup(l) && k <= |l|
    requires forall x | x in l :: x in rank && rank[x] < |l| && l[rank[x]] == x
    ensures forall x :: x in l[k..] <==> x in l && rank[x] >= k
  {
    forall x ensures x in l[k..] <==> x in l && rank[x] >= k {
      if x in l[k..] {
        var i :| 0 <= i < |l[k..]| && l[k..][i] == x;
        assert l[k + i] == x;
      }
      if x in l && rank[x] >= k {
        assert l[k..][rank[x] - k] == x;
      }
    }
  }

  /** With `rank` giving positions, the first k members are those ranked
      above k. */
  lemma HeadByRank(l: seq<Id>, rank: map<Id, nat>, k: nat)
    requires NoDup(l) && k <= |l|
    requires forall x | x in l :: x in rank && rank[x] < |l| && l[rank[x]] == x
    ensures forall x :: x in l[..k] <==> x in l && rank[x] < k
  {
    forall x ensures x in l[..k] <==> x in l && rank[x] < k {
      if x in l[..k] {
        var i :| 0 <= i < k && l[..k][i] == x;
        assert l[i] == x;
      }
      if x in l && rank[x] < k {
        assert l[..k][rank[x]] == x;
      }
    }
  }

  /** The proposers' lists after every proposer of `rejects` has lost `w`. */
  function CutLists(pl: Prefs, rejects: seq<Id>, w: Id): (r: Prefs)
    ensures r.Keys == pl.Keys
  {
    map x | x in pl :: if x in rejects then Without(pl[x], w) else pl[x]
  }

  lemma DeletePairMiddle(s: State, x: Id, w: Id, pre: seq<Id>, rest: seq<Id>)
    requires w in s.rlist && s.rlist[w] == pre + [x] + rest && NoDup(pre + [x] + rest)
    requires x in s.plist && w in s.plist[x] && NoDup(s.plist[x])
    ensures DeletePair(s, x, w) == Ok(s.(plist := s.plist[x := Without(s.plist[x], w)], rlist := s.rlist[w := pre + rest]))
  {
    NoDupMiddle(pre, x, rest);
    RemoveIsWithout(s.plist[x], w);
  }

  lemma CutListsStep(pl: Prefs, x: Id, rest: seq<Id>, w: Id)
    requires x in pl && x !in rest
    ensures CutLists(pl[x := Without(pl[x], w)], rest, w) == CutLists(pl, [x] + rest, w)
  {
  }

  /** The state `DeleteAll` reaches on a tail `rejects` of w's list. */
  function AfterCut(s: State, w: Id, pre: seq<Id>, rejects: seq<Id>): State {
    s.(plist := CutLists(s.plist, rejects, w), rlist := s.rlist[w := pre])
  }

  lemma AfterCutStep(s: State, w: Id, pre: seq<Id>, x: Id, rest: seq<Id>)
    requires x in s.plist && x !in rest
    ensures AfterCut(s.(plist := s.plist[x := Without(s.plist[x], w)], rlist := s.rlist[w := pre + rest]), w, pre, rest)
         == AfterCut(s, w, pre, [x] + rest)
  {
    CutListsStep(s.plist, x, rest, w);
    assert s.rlist[w := pre + rest][w := pre] == s.rlist[w := pre];
  }

  /** `DeleteAll` in closed form: the receiver keeps the part of its list
      before the snapshot, and each rejected proposer loses the receiver. */
  lemma {:induction false} DeleteAllCut(s: State, w: Id, pre: seq<Id>, rejects: seq<Id>)
    requires w in s.rlist && s.rlist[w] == pre + rejects && NoDup(pre + rejects)
    requires forall x | x in rejects :: x in s.plist && w in s.plist[x] && NoDup(s.plist[x])
    ensures DeleteAll(s, rejects, w) == Ok(AfterCut(s, w, pre, rejects))
    decreases |rejects|
  {
    if |rejects| == 0 {
      assert pre + rejects == pre;
      assert CutLists(s.plist, rejects, w) == s.plist;
      assert s.rlist[w := pre] == s.rlist;
    } else {
      var x, rest := rejects[0], rejects[1..];
      assert rejects == [x] + rest;
      assert pre + rejects == pre + [x] + rest;
      DeletePairMiddle(s, x, w, pre, rest);
      NoDupMiddle(pre, x, rest);
      var s' := s.(plist := s.plist[x := Without(s.plist[x], w)], rlist := s.rlist[w := pre + rest]);
      assert DeleteAll(s, rejects, w) == DeleteAll(s', rest, w);
      forall y | y in rest ensures y in s'.plist && w in s'.plist[y] && NoDup(s'.plist[y]) {
        assert y in rejects && y != x;
      }
      DeleteAllCut(s', w, pre, rest);
      AfterCutStep(s, w, pre, x, rest);
    }
  }

  // ---------------------------------------------------------------------
  // One proposal in closed form

  /** The lookups `Propose` makes all succeed. */
  ghost predicate Ready(s: State, m: Id) {
    && m in s.plist && |s.plist[m]| > 0
    && s.plist[m][0] in s.rlist && s.plist[m][0] in s.rrank && s.plist[m][0] in s.rmatch
    && m in s.rrank[s.plist[m][0]]
  }

  /** The state `Propose` reaches, written out: `w` is the head of m's list,
      `k` is m's original rank with `w`, and w's list is cut at `k`. */
  function Proposal(s: State, m: Id): State
    requires Ready(s, m)
  {
    var w := s.plist[m][0];
    var k := s.rrank[w][m];
    var p := s.rmatch[w];
    State(
      CutLists(s.plist, Drop(s.rlist[w], k), w),
      s.rlist[w := Take(s.rlist[w], k)],
      s.rrank,
      (if p.Some? then s.pmatch[p.value := None] else s.pmatch)[m := Some(w)],
      s.rmatch[w := Some(m)],
      if p.Some? then s.free + {p.value} else s.free)
  }

  /** The head `w` of m's list and the agents' places in each other's lists. */
  lemma HeadFacts(I: Instance, s: State, m: Id)
    requires Inv(I, s) && m in s.plist && |s.plist[m]| > 0
    ensures var w := s.plist[m][0];
      && m in I.proposers && w in I.proposers[m] && w in PRank(I, m)
      && w in I.receivers && m in I.receivers[w]
      && w in s.rlist && w in s.rrank && w in s.rmatch && m in s.rrank[w]
      && s.rrank[w] == RRank(I, w) && m in s.rlist[w] && m in RRank(I, w)
      && s.rlist[w] <= I.receivers[w] && NoDup(I.receivers[w])
  {
    var w := s.plist[m][0];
    assert w in s.plist[m];
    assert w in PRank(I, m);
  }

  /** Cutting a prefix of a repetition-free list at the original rank of
      one of its members `m`: m sits at that position, the tail holds
      exactly the members ranked at or after it. */
  lemma CutFacts(l: seq<Id>, orig: seq<Id>, m: Id)
    requires l <= orig && NoDup(orig) && m in l
    ensures m in RankTable(orig)
    ensures var k := RankTable(orig)[m];
      && k < |l| && l[k] == m
      && l[..k] + l[k..] == l
      && NoDup(l)
      && (forall x :: x in l[k..] <==> x in l && x in RankTable(orig) && RankTable(orig)[x] >= k)
      && (forall x :: x in l[..k] <==> x in l && x in RankTable(orig) && RankTable(orig)[x] < k)
  {
    PrefixRanks(l, orig, 0);
    PrefixRanks(l, orig, RankTable(orig)[m]);
  }

  lemma ReceiverListFacts(I: Instance, s: State, w: Id)
    requires Inv(I, s) && w in s.rlist
    ensures forall x | x in s.rlist[w] :: x in I.proposers && x in s.plist && w in s.plist[x] && x in RRank(I, w)
  {
    var l := s.rlist[w];
    assert l <= I.receivers[w];
    forall x | x in l ensures x in I.proposers && x in s.plist && w in s.plist[x] && x in RRank(I, w) {
      var i :| 0 <= i < |l| && l[i] == x;
      assert I.receivers[w][i] == x;
    }
  }

  lemma ProposeIsProposal(I: Instance, s: State, m: Id)
    requires Inv(I, s) && m in s.free && m in s.plist && |s.plist[m]| > 0
    ensures Ready(s, m)
    ensures Propose(s.(free := s.free - {m}), m) == Ok(Next(s, m))
  {
    HeadFacts(I, s, m);
    var s0 := s.(free := s.free - {m});
    var w := s.plist[m][0];
    CutFacts(s.rlist[w], I.receivers[w], m);
    ReceiverListFacts(I, s, w);
    var k := RRank(I, w)[m];
    var p := s.rmatch[w];
    if p.Some? {
      assert p.value in s.pmatch;
    }
    var s1 := if p.Some? then FreeUp(s0, p.value) else s0;
    var s2 := Engage(s1, m, w);
    var pre, rejects := s.rlist[w][..k], s.rlist[w][k..];
    assert Drop(s2.rlist[w], s2.rrank[w][m]) == rejects;
    forall x | x in rejects ensures x in s2.plist && w in s2.plist[x] && NoDup(s2.plist[x]) {
      IncreasingNoDup(s.plist[x], PRank(I, x));
    }
    DeleteAllCut(s2, w, pre, rejects);
    assert Take(s.rlist[w], k) == pre;
  }

  /** The state after popping `m` and letting it propose. */
  function Next(s: State, m: Id): State
    requires Ready(s, m)
  {
    Proposal(s.(free := s.free - {m}), m)
  }

  // ---------------------------------------------------------------------
  // Each part of the invariant survives a proposal

  lemma NextShape(I: Instance, s: State, m: Id)
    requires Shape(I, s) && QueueOk(s) && Consistent(s.pmatch, s.rmatch) && m in s.free && Ready(s, m)
    ensures Shape(I, Next(s, m))
  {
    var w := s.plist[m][0];
    if s.rmatch[w].Some? {
      assert s.rmatch[w].value in s.pmatch;
    }
    NextKeys(s, m);
  }

  /** A proposal keeps every agent's entries and the rank tables. */
  lemma NextKeys(s: State, m: Id)
    requires Ready(s, m) && m in s.pmatch
    requires s.rmatch[s.plist[m][0]].Some? ==> s.rmatch[s.plist[m][0]].value in s.pmatch
    ensures var t := Next(s, m);
      && t.plist.Keys == s.plist.Keys && t.pmatch.Keys == s.pmatch.Keys
      && t.rlist.Keys == s.rlist.Keys && t.rmatch.Keys == s.rmatch.Keys && t.rrank == s.rrank
  {
  }

  lemma NextListsShrink(I: Instance, s: State, m: Id)
    requires ListsShrink(I, s) && Ready(s, m)
    ensures ListsShrink(I, Next(s, m))
  {
    var t := Next(s, m);
    var w := s.plist[m][0];
    var k := s.rrank[w][m];
    forall x | x in t.plist && x in I.proposers ensures Increasing(t.plist[x], PRank(I, x)) {
      IncreasingWithout(s.plist[x], PRank(I, x), w);
    }
    assert Take(s.rlist[w], k) <= s.rlist[w];
  }

  lemma NextSymmetric(I: Instance, s: State, m: Id)
    requires Inv(I, s) && m in s.free && Ready(s, m)
    ensures Symmetric(Next(s, m).plist, Next(s, m).rlist)
  {
    HeadFacts(I, s, m);
    var w := s.plist[m][0];
    CutFacts(s.rlist[w], I.receivers[w], m);
    SymmetricCut(s.plist, s.rlist, w, RRank(I, w)[m]);
  }

  /** Deleting the pairs of a tail of w's list on both sides keeps
      acceptability mutual. */
  lemma SymmetricCut(pl: Prefs, rl: Prefs, w: Id, k: nat)
    requires Symmetric(pl, rl) && w in rl && k <= |rl[w]| && NoDup(rl[w])
    ensures Symmetric(CutLists(pl, rl[w][k..], w), rl[w := rl[w][..k]])
  {
    var l := rl[w];
    assert forall x | x in l :: x in l[..k] || x in l[k..] by {
      assert l == l[..k] + l[k..];
    }
  }

  lemma NextConsistent(I: Instance, s: State, m: Id)
    requires Consistent(s.pmatch, s.rmatch) && QueueOk(s) && m in s.free && Ready(s, m)
    ensures Consistent(Next(s, m).pmatch, Next(s, m).rmatch)
  {
  }

  lemma NextQueue(I: Instance, s: State, m: Id)
    requires QueueOk(s) && Consistent(s.pmatch, s.rmatch) && m in s.free && Ready(s, m)
    requires s.plist.Keys == s.pmatch.Keys
    ensures QueueOk(Next(s, m))
  {
    var w := s.plist[m][0];
    if s.rmatch[w].Some? {
      assert s.rmatch[w].value in s.pmatch;
    }
  }

  lemma NextCut(I: Instance, s: State, m: Id)
    requires Inv(I, s) && m in s.free && Ready(s, m)
    ensures CutOk(I, Next(s, m))
  {
    HeadFacts(I, s, m);
    var w := s.plist[m][0];
    CutFacts(s.rlist[w], I.receivers[w], m);
  }

  lemma NextPassed(I: Instance, s: State, m: Id, w: Id, k: nat)
    requires PassedOk(I, s) && Ready(s, m) && w == s.plist[m][0] && k == s.rrank[w][m]
    requires m in I.proposers && Increasing(s.plist[m], PRank(I, m)) && w in PRank(I, m)
    requires k <= |s.rlist[w]| && m in s.rlist[w][k..]
    ensures PassedOk(I, Next(s, m))
  {
    IncreasingHead(s.plist[m], PRank(I, m));
    assert Next(s, m).plist[m] == Without(s.plist[m], w);
  }

  lemma NextRejected(I: Instance, s: State, m: Id, w: Id, k: nat)
    requires RejectedOk(I, s) && CutOk(I, s) && Ready(s, m) && w == s.plist[m][0] && k == s.rrank[w][m]
    requires s.rrank[w] == RRank(I, w) && k < |s.rlist[w]|
    requires forall x :: x in s.rlist[w][k..] <==> x in s.rlist[w] && x in RRank(I, w) && RRank(I, w)[x] >= k
    ensures RejectedOk(I, Next(s, m))
  {
    var t := Next(s, m);
    forall x, v | x in I.proposers && v in I.proposers[x] && x in t.plist && v !in t.plist[x]
      ensures && v in t.rmatch && t.rmatch[v].Some?
              && t.rmatch[v].value in RRank(I, v) && x in RRank(I, v)
              && RRank(I, v)[t.rmatch[v].value] <= RRank(I, v)[x]
    {
      if v == w && w in s.plist[x] {
        assert x in s.rlist[w][k..];
      }
    }
  }

  /** A proposal keeps every part of the invariant. */
  lemma NextInv(I: Instance, s: State, m: Id)
    requires Inv(I, s) && m in s.free && m in s.plist && |s.plist[m]| > 0
    ensures Ready(s, m) && Inv(I, Next(s, m))
  {
    HeadFacts(I, s, m);
    var w := s.plist[m][0];
    var k := s.rrank[w][m];
    CutFacts(s.rlist[w], I.receivers[w], m);
    NextShape(I, s, m);
    NextListsShrink(I, s, m);
    NextSymmetric(I, s, m);
    NextConsistent(I, s, m);
    NextQueue(I, s, m);
    NextCut(I, s, m);
    NextPassed(I, s, m, w, k);
    NextRejected(I, s, m, w, k);
  }

  /** A proposal deletes at least the proposing pair and adds none. */
  lemma NextPairs(s: State, m: Id, w: Id, k: nat)
    requires Ready(s, m) && w == s.plist[m][0] && k == s.rrank[w][m]
    requires k <= |s.rlist[w]| && m in s.rlist[w][k..]
    ensures Pairs(Next(s, m).plist) < Pairs(s.plist)
  {
    var t := Next(s, m);
    assert t.plist[m] == Without(s.plist[m], w);
    assert (m, w) in Pairs(s.plist) - Pairs(t.plist);
  }

  /** One proposal from a state satisfying the invariant: `Propose`
      succeeds, lands in `Next`, keeps the invariant and deletes a pair. */
  lemma Advance(I: Instance, s: State, m: Id)
    requires Inv(I, s) && m in s.free && m in s.plist && |s.plist[m]| > 0
    ensures Ready(s, m)
    ensures Propose(s.(free := s.free - {m}), m) == Ok(Next(s, m))
    ensures Inv(I, Next(s, m))
    ensures Pairs(Next(s, m).plist) < Pairs(s.plist)
  {
    ProposeIsProposal(I, s, m);
    NextInv(I, s, m);
    HeadFacts(I, s, m);
    var w := s.plist[m][0];
    CutFacts(s.rlist[w], I.receivers[w], m);
    NextPairs(s, m, w, s.rrank[w][m]);
  }

  /** Without the guard nobody leaves the queue unmatched: every proposer
      is queued or holds a partner. */
  ghost predicate QueuedOrMatched(s: State) {
    forall m | m in s.pmatch :: m in s.free || s.pmatch[m].Some?
  }

  lemma NextQueuedOrMatched(s: State, m: Id)
    requires QueuedOrMatched(s) && Ready(s, m)
    ensures QueuedOrMatched(Next(s, m))
  {
  }

  /** Popping a proposer whose list is exhausted keeps the invariant. */
  lemma SkipInv(I: Instance, s: State, m: Id)
    requires Inv(I, s) && m in s.free && m in s.plist && s.plist[m] == []
    ensures Inv(I, s.(free := s.free - {m}))
    ensures Pairs(s.(free := s.free - {m}).plist) == Pairs(s.plist)
    ensures |s.free - {m}| < |s.free|
  {
    var s' := s.(free := s.free - {m});
    SkipQueue(s, m);
    SameLists(I, s, s');
    Shrinks(s.free, m);
  }

  lemma Shrinks(A: set<Id>, x: Id)
    requires x in A
    ensures |A - {x}| < |A|
  {
  }

  lemma SkipQueue(s: State, m: Id)
    requires QueueOk(s) && m in s.free && m in s.plist && s.plist[m] == []
    ensures QueueOk(s.(free := s.free - {m}))
  {
  }

  /** The parts of the invariant that do not mention the queue. */
  lemma SameLists(I: Instance, s: State, s': State)
    requires s'.plist == s.plist && s'.rlist == s.rlist && s'.rrank == s.rrank
    requires s'.pmatch == s.pmatch && s'.rmatch == s.rmatch
    requires Inv(I, s) && QueueOk(s')
    ensures Inv(I, s') && Pairs(s'.plist) == Pairs(s.plist)
  {
  }

  lemma InitInv(I: Instance)
    requires WellFormed(I)
    ensures Inv(I, Init(I))
  {
    forall m | m in I.proposers ensures Increasing(I.proposers[m], PRank(I, m)) {
      RankTableNoDup(I.proposers[m]);
    }
  }

  /** Once the queue is empty the invariant rules out every blocking pair,
      judged on the lists as read. */
  lemma FinalStable(I: Instance, s: State)
    requires s.free == {} && QueueOk(s) && PassedOk(I, s) && RejectedOk(I, s)
    requires s.plist.Keys == I.proposers.Keys && s.pmatch.Keys == I.proposers.Keys
    ensures Stable(I, s.pmatch, s.rmatch)
  {
    forall m, w | m in I.proposers && w in I.proposers[m]
      ensures !Blocks(I, s.pmatch, s.rmatch, m, w)
    {
      if w in s.plist[m] {
        assert s.pmatch[m].Some? && PRank(I, m)[w] > PRank(I, m)[s.pmatch[m].value];
      } else {
        assert s.rmatch[w].Some? && RRank(I, w)[s.rmatch[w].value] <= RRank(I, w)[m];
      }
    }
  }

  /** What a finished run promises. */
  lemma Finish(I: Instance, s: State)
    requires Inv(I, s) && s.free == {}
    ensures s.pmatch.Keys == I.proposers.Keys && s.rmatch.Keys == I.receivers.Keys
    ensures Consistent(s.pmatch, s.rmatch)
    ensures forall m | m in s.pmatch && s.pmatch[m].Some? :: m in I.proposers && s.pmatch[m].value in I.proposers[m]
    ensures Stable(I, s.pmatch, s.rmatch)
  {
    FinalStable(I, s);
  }

  // ---------------------------------------------------------------------
  // The loop

  /** `_while_loop` with the guard: on every pop order it ends with an
      empty queue and a matching that no pair blocks. */
  method Run(I: Instance) returns (r: State)
    requires WellFormed(I)
    ensures r.free == {} && Inv(I, r)
    ensures r.pmatch.Keys == I.proposers.Keys && r.rmatch.Keys == I.receivers.Keys
    ensures Consistent(r.pmatch, r.rmatch)
    ensures forall m | m in r.pmatch && r.pmatch[m].Some? :: m in I.proposers && r.pmatch[m].value in I.proposers[m]
    ensures Stable(I, r.pmatch, r.rmatch)
  {
    r := Init(I);
    InitInv(I);
    while r.free != {}
      invariant Inv(I, r)
      decreases Pairs(r.plist), |r.free|
    {
      var m :| m in r.free;
      if |r.plist[m]| == 0 {
        SkipInv(I, r, m);
        r := r.(free := r.free - {m});
      } else {
        Advance(I, r, m);
        r := Next(r, m);
      }
    }
    Finish(I, r);
  }

  /** `_while_loop` as written: the only way it fails on a well-formed
      instance is `list[0]` on an exhausted list, popped from a state the
      invariant describes; when it finishes, every proposer is matched and
      the matching is stable. */
  method RunAsWritten(I: Instance) returns (r: Result<State>)
    requires WellFormed(I)
    ensures r.Err? ==> r.error == IndexError
    ensures r.Err? ==> exists t: State, m: Id :: Inv(I, t) && m in t.free && m in t.plist && t.plist[m] == []
    ensures r.Ok? ==> r.value.free == {} && Inv(I, r.value)
    ensures r.Ok? ==> r.value.pmatch.Keys == I.proposers.Keys && r.value.rmatch.Keys == I.receivers.Keys
    ensures r.Ok? ==> Consistent(r.value.pmatch, r.value.rmatch)
    ensures r.Ok? ==> forall m | m in r.value.pmatch && r.value.pmatch[m].Some? :: m in I.proposers && r.value.pmatch[m].value in I.proposers[m]
    ensures r.Ok? ==> Stable(I, r.value.pmatch, r.value.rmatch)
    ensures r.Ok? ==> forall m | m in I.proposers :: r.value.pmatch[m].Some?
  {
    var s := Init(I);
    InitInv(I);
    while s.free != {}
      invariant Inv(I, s) && QueuedOrMatched(s)
      decreases Pairs(s.plist)
    {
      var m :| m in s.free;
      if |s.plist[m]| == 0 {
        assert StepAsWritten(s, m) == Err(IndexError);
        assert Inv(I, s) && m in s.free && m in s.plist && s.plist[m] == [];
        return Err(IndexError);
      }
      Advance(I, s, m);
      NextQueuedOrMatched(s, m);
      s := Next(s, m);
    }
    Finish(I, s);
    r := Ok(s);
  }
}
