/** The resident-proposing loop of `HRResidentOptimal`.

    A popped resident proposes to the head of its working list and is
    assigned there; a hospital over capacity evicts its worst resident; a
    hospital at capacity cuts its working list from the worst resident's
    original rank on, that resident included. Working lists shrink as pairs
    are deleted, while the hospitals' rank tables stay those of the lists as
    read.

    The loop tests "at capacity" on the occupancy it read BEFORE the
    eviction, so a step that evicts never cuts. `StepAsWritten` is that
    loop; `Step` re-reads the occupancy after the eviction and lets a
    resident whose list is exhausted leave the queue, and is the loop the
    termination argument below is about. */
module HREngine {
  import opened Wrappers
  import opened Lists

  type Id = string
  type Prefs = map<Id, seq<Id>>

  /** A hospital as read: capacity, preference list and rank table. */
  datatype Hospital = Hospital(capacity: int, list: seq<Id>, rank: map<Id, nat>)

  /** The residents' lists and the hospitals, as read. */
  datatype Instance = Instance(residents: Prefs, hospitals: map<Id, Hospital>)

  /** The loop's mutable state: the working lists of both sides, `M` split
      by side (a resident's hospital, a hospital's set of residents) and the
      unassigned set. */
  datatype State = State(
    rlist: Prefs,
    hlist: Prefs,
    rmatch: map<Id, Option<Id>>,
    hmatch: map<Id, set<Id>>,
    free: set<Id>)

  /** The constructor: every resident is unassigned and queued, every
      hospital's set is empty. */
  function Init(I: Instance): (s: State)
    ensures s.free == I.residents.Keys
    ensures s.rlist == I.residents && s.rmatch.Keys == I.residents.Keys
    ensures s.hlist.Keys == I.hospitals.Keys && s.hmatch.Keys == I.hospitals.Keys
    ensures forall x | x in s.rmatch :: s.rmatch[x] == None
    ensures forall h | h in s.hmatch :: s.hmatch[h] == {} && s.hlist[h] == I.hospitals[h].list
  {
    State(I.residents,
          map h | h in I.hospitals :: I.hospitals[h].list,
          map x | x in I.residents :: None,
          map h | h in I.hospitals :: {},
          I.residents.Keys)
  }

  /** `_delete_pair`: `list.remove` on the resident's list, then on the
      hospital's; ValueError unless each lists the other. */
  function DeletePair(s: State, x: Id, h: Id): (r: Result<State>)
    ensures r.Ok? <==> x in s.rlist && h in s.hlist && h in s.rlist[x] && x in s.hlist[h]
    ensures r.Err? ==> r.error == KeyError || r.error == ValueError
    ensures r.Ok? ==>
      && r.value == s.(rlist := r.value.rlist, hlist := r.value.hlist)
      && r.value.rlist.Keys == s.rlist.Keys && r.value.hlist.Keys == s.hlist.Keys
      && |r.value.rlist[x]| == |s.rlist[x]| - 1 && |r.value.hlist[h]| == |s.hlist[h]| - 1
      && (forall y | y in s.rlist && y != x :: r.value.rlist[y] == s.rlist[y])
      && (forall g | g in s.hlist && g != h :: r.value.hlist[g] == s.hlist[g])
  {
    if x !in s.rlist then Err(KeyError)
    else
      var rl := Remove(s.rlist[x], h);
      if rl.Err? then Err(ValueError)
      else if h !in s.hlist then Err(KeyError)
      else
        var hl := Remove(s.hlist[h], x);
        if hl.Err? then Err(ValueError)
        else Ok(s.(rlist := s.rlist[x := rl.value], hlist := s.hlist[h := hl.value]))
  }

  /** The deletion loop over a snapshot of the hospital's list tail. */
  function DeleteAll(s: State, rejects: seq<Id>, h: Id): (r: Result<State>)
    ensures r.Ok? ==> r.value.rmatch == s.rmatch && r.value.hmatch == s.hmatch && r.value.free == s.free
    ensures r.Ok? ==> r.value.rlist.Keys == s.rlist.Keys && r.value.hlist.Keys == s.hlist.Keys
    decreases |rejects|
  {
    if |rejects| == 0 then Ok(s)
    else
      var d := DeletePair(s, rejects[0], h);
      if d.Err? then Err(d.error) else DeleteAll(d.value, rejects[1..], h)
  }

  /** `_assign_pair`. */
  function Assign(s: State, x: Id, h: Id): (r: Result<State>)
    ensures r.Ok? <==> x in s.rmatch && h in s.hmatch
    ensures r.Ok? ==> r.value.rmatch == s.rmatch[x := Some(h)] && r.value.hmatch == s.hmatch[h := s.hmatch[h] + {x}]
    ensures r.Ok? ==> r.value.rlist == s.rlist && r.value.hlist == s.hlist && r.value.free == s.free
  {
    if x !in s.rmatch || h !in s.hmatch then Err(KeyError)
    else Ok(s.(rmatch := s.rmatch[x := Some(h)], hmatch := s.hmatch[h := s.hmatch[h] + {x}]))
  }

  /** `_break_assignment`: the resident becomes unassigned, leaves the
      hospital's set (KeyError when absent there) and is queued again iff its
      working list is non-empty. */
  function Break(s: State, x: Id, h: Id): (r: Result<State>)
    ensures r.Ok? <==> x in s.rmatch && h in s.hmatch && x in s.hmatch[h] && x in s.rlist
    ensures r.Ok? ==> r.value.rmatch == s.rmatch[x := None] && r.value.hmatch == s.hmatch[h := s.hmatch[h] - {x}]
    ensures r.Ok? ==> (x in r.value.free <==> x in s.free || |s.rlist[x]| > 0) && r.value.free - {x} == s.free - {x}
    ensures r.Ok? ==> r.value.rlist == s.rlist && r.value.hlist == s.hlist
  {
    if x !in s.rmatch || h !in s.hmatch || x !in s.hmatch[h] || x !in s.rlist then Err(KeyError)
    else
      Ok(s.(rmatch := s.rmatch[x := None],
            hmatch := s.hmatch[h := s.hmatch[h] - {x}],
            free := if |s.rlist[x]| > 0 then s.free + {x} else s.free))
  }

  /** A member of greatest rank of a non-empty set of ranked residents. */
  ghost function MaxRanked(S: set<Id>, rank: map<Id, nat>): (x: Id)
    requires S != {} && S <= rank.Keys
    ensures x in S && forall y | y in S :: rank[y] <= rank[x]
    decreases |S|
  {
    var y :| y in S;
    if S == {y} then y
    else
      var z := MaxRanked(S - {y}, rank);
      if rank[y] <= rank[z] then z else y
  }

  /** `_get_worst_existing_resident`: `min` with key `-rank[x]`, so a member
      of greatest rank; ValueError for an empty set, KeyError when a member
      has no rank. Among members of equal rank `min` takes the first in the
      set's iteration order, which the model leaves unspecified. */
  ghost function Worst(S: set<Id>, rank: map<Id, nat>): (r: Result<Id>)
    ensures S == {} ==> r == Err(ValueError)
    ensures S != {} ==> (r.Ok? <==> S <= rank.Keys)
    ensures r.Err? ==> r.error == ValueError || r.error == KeyError
    ensures r.Ok? ==> r.value in S && r.value in rank && forall y | y in S :: y in rank && rank[y] <= rank[r.value]
  {
    if S == {} then Err(ValueError)
    else if !(S <= rank.Keys) then Err(KeyError)
    else Ok(MaxRanked(S, rank))
  }

  /** The eviction of an over-full hospital's worst resident. */
  ghost function Evict(I: Instance, s: State, h: Id): (r: Result<State>)
    requires h in I.hospitals && h in s.hmatch
    ensures r.Ok? ==> r.value.rlist == s.rlist && r.value.hlist == s.hlist && r.value.hmatch.Keys == s.hmatch.Keys
  {
    var w := Worst(s.hmatch[h], I.hospitals[h].rank);
    if w.Err? then Err(w.error) else Break(s, w.value, h)
  }

  /** The cut of a hospital at capacity: every resident on its working list
      from the worst resident's original rank on, the worst included, is
      deleted pairwise. */
  ghost function Cut(I: Instance, s: State, h: Id): (r: Result<State>)
    requires h in I.hospitals && h in s.hmatch && h in s.hlist
    ensures r.Ok? ==> r.value.rmatch == s.rmatch && r.value.hmatch == s.hmatch && r.value.free == s.free
  {
    var w := Worst(s.hmatch[h], I.hospitals[h].rank);
    if w.Err? then Err(w.error)
    else DeleteAll(s, Drop(s.hlist[h], I.hospitals[h].rank[w.value]), h)
  }

  /** One iteration once resident `x` has been popped and its list is not
      empty: assign it to the head `h`, evict if over capacity, then cut if
      at capacity. With `reread` false the capacity test for the cut uses
      the occupancy read before the eviction, as the loop is written. */
  ghost function Propose(I: Instance, s: State, x: Id, reread: bool): (r: Result<State>)
    requires x in s.rlist && |s.rlist[x]| > 0
  {
    var h := s.rlist[x][0];
    var a := Assign(s, x, h);
    if a.Err? then Err(a.error)
    else if h !in I.hospitals || h !in s.hlist then Err(KeyError)
    else
      var s1 := a.value;
      var cap := I.hospitals[h].capacity;
      var occ := |s1.hmatch[h]|;
      var e := if occ > cap then Evict(I, s1, h) else Ok(s1);
      if e.Err? then Err(e.error)
      else
        var s2 := e.value;
        if (if reread then |s2.hmatch[h]| else occ) == cap then Cut(I, s2, h) else Ok(s2)
  }

  /** One iteration of `_while_loop` as written, `x` being the resident
      `set.pop()` returns: `list[0]` of an exhausted list raises IndexError. */
  ghost function StepAsWritten(I: Instance, s: State, x: Id): (r: Result<State>)
    requires x in s.free
    ensures x in s.rlist && s.rlist[x] == [] ==> r == Err(IndexError)
  {
    var s0 := s.(free := s.free - {x});
    if x !in s0.rlist then Err(KeyError)
    else if |s0.rlist[x]| == 0 then Err(IndexError)
    else Propose(I, s0, x, false)
  }

  /** The iteration as evidently intended: the occupancy is read again after
      the eviction, and a resident whose list is exhausted leaves the queue
      unassigned. */
  ghost function Step(I: Instance, s: State, x: Id): (r: Result<State>)
    requires x in s.free
    ensures x in s.rlist && s.rlist[x] == [] ==> r == Ok(s.(free := s.free - {x}))
  {
    var s0 := s.(free := s.free - {x});
    if x !in s0.rlist then Err(KeyError)
    else if |s0.rlist[x]| == 0 then Ok(s0)
    else Propose(I, s0, x, true)
  }

  // ---------------------------------------------------------------------
  // Capacity, and the loop as written

  /** Every hospital's set is within its capacity. */
  ghost predicate Within(I: Instance, s: State) {
    forall h | h in s.hmatch && h in I.hospitals :: |s.hmatch[h]| <= I.hospitals[h].capacity
  }

  /** Evicting one member takes an over-full set back to capacity. */
  lemma {:induction false} EvictShrinks(I: Instance, s: State, h: Id)
    requires h in I.hospitals && h in s.hmatch
    ensures Evict(I, s, h).Ok? ==>
      && |Evict(I, s, h).value.hmatch[h]| == |s.hmatch[h]| - 1
      && forall g | g in s.hmatch && g != h :: Evict(I, s, h).value.hmatch[g] == s.hmatch[g]
  {
  }

  /** An iteration keeps every hospital within capacity, whichever
      occupancy the cut reads. */
  lemma {:induction false} ProposeWithin(I: Instance, s: State, x: Id, reread: bool)
    requires x in s.rlist && |s.rlist[x]| > 0
    requires Within(I, s) && forall h | h in s.hmatch :: x !in s.hmatch[h]
    ensures Propose(I, s, x, reread).Ok? ==> Within(I, Propose(I, s, x, reread).value)
  {
    var h := s.rlist[x][0];
    var a := Assign(s, x, h);
    if a.Ok? && h in I.hospitals && h in s.hlist {
      var s1 := a.value;
      assert |s1.hmatch[h]| == |s.hmatch[h]| + 1;
      if |s1.hmatch[h]| > I.hospitals[h].capacity {
        EvictShrinks(I, s1, h);
      }
    }
  }

  /** The loop as written keeps every hospital within capacity. */
  lemma {:induction false} StepAsWrittenWithin(I: Instance, s: State, x: Id)
    requires x in s.free && Within(I, s) && forall h | h in s.hmatch :: x !in s.hmatch[h]
    ensures StepAsWritten(I, s, x).Ok? ==> Within(I, StepAsWritten(I, s, x).value)
  {
    if x in s.rlist && |s.rlist[x]| > 0 {
      ProposeWithin(I, s.(free := s.free - {x}), x, false);
    }
  }

  /** An iteration that evicts does not cut in the loop as written: both
      sides' working lists are left as they were. */
  lemma {:induction false} OverflowSkipsCut(I: Instance, s: State, x: Id)
    requires x in s.free && x in s.rlist && |s.rlist[x]| > 0
    requires var h := s.rlist[x][0];
      h in s.hmatch && h in I.hospitals && x !in s.hmatch[h] && |s.hmatch[h]| >= I.hospitals[h].capacity
    ensures StepAsWritten(I, s, x).Ok? ==>
      StepAsWritten(I, s, x).value.rlist == s.rlist && StepAsWritten(I, s, x).value.hlist == s.hlist
  {
    var h := s.rlist[x][0];
    var s0 := s.(free := s.free - {x});
    var a := Assign(s0, x, h);
    if a.Ok? {
      assert |a.value.hmatch[h]| == |s.hmatch[h]| + 1;
    }
  }

  /** Without an eviction the two versions take the same step. */
  lemma {:induction false} NoOverflowAgrees(I: Instance, s: State, x: Id)
    requires x in s.free && x in s.rlist && |s.rlist[x]| > 0
    requires var h := s.rlist[x][0];
      h in s.hmatch && h in I.hospitals && |s.hmatch[h] + {x}| <= I.hospitals[h].capacity
    ensures StepAsWritten(I, s, x) == Step(I, s, x)
  {
  }

  // ---------------------------------------------------------------------
  // The cut in closed form

  /** The residents' lists after every resident of `rejects` has lost `h`. */
  function CutLists(rl: Prefs, rejects: seq<Id>, h: Id): (r: Prefs)
    ensures r.Keys == rl.Keys
  {
    map x | x in rl :: if x in rejects then Without(rl[x], h) else rl[x]
  }

  /** The state the deletion loop reaches on a tail `rejects` of h's list
      whose head part is `pre`. */
  function AfterCut(s: State, h: Id, pre: seq<Id>, rejects: seq<Id>): State {
    s.(rlist := CutLists(s.rlist, rejects, h), hlist := s.hlist[h := pre])
  }

  lemma {:induction false} DeletePairMiddle(s: State, x: Id, h: Id, pre: seq<Id>, rest: seq<Id>)
    requires h in s.hlist && s.hlist[h] == pre + [x] + rest && NoDup(pre + [x] + rest)
    requires x in s.rlist && h in s.rlist[x] && NoDup(s.rlist[x])
    ensures DeletePair(s, x, h) == Ok(s.(rlist := s.rlist[x := Without(s.rlist[x], h)], hlist := s.hlist[h := pre + rest]))
  {
    NoDupMiddle(pre, x, rest);
    RemoveIsWithout(s.rlist[x], h);
  }

  lemma {:induction false} AfterCutStep(s: State, h: Id, pre: seq<Id>, x: Id, rest: seq<Id>)
    requires x in s.rlist && x !in rest
    ensures AfterCut(s.(rlist := s.rlist[x := Without(s.rlist[x], h)], hlist := s.hlist[h := pre + rest]), h, pre, rest)
         == AfterCut(s, h, pre, [x] + rest)
  {
    assert CutLists(s.rlist[x := Without(s.rlist[x], h)], rest, h) == CutLists(s.rlist, [x] + rest, h);
    assert s.hlist[h := pre + rest][h := pre] == s.hlist[h := pre];
  }

  /** The deletion loop in closed form: the hospital keeps the part of its
      list before the snapshot, and each rejected resident loses the
      hospital. */
  lemma {:induction false} DeleteAllCut(s: State, h: Id, pre: seq<Id>, rejects: seq<Id>)
    requires h in s.hlist && s.hlist[h] == pre + rejects && NoDup(pre + rejects)
    requires forall x | x in rejects :: x in s.rlist && h in s.rlist[x] && NoDup(s.rlist[x])
    ensures DeleteAll(s, rejects, h) == Ok(AfterCut(s, h, pre, rejects))
    decreases |rejects|
  {
    if |rejects| == 0 {
      assert pre + rejects == pre;
      assert CutLists(s.rlist, rejects, h) == s.rlist;
      assert s.hlist[h := pre] == s.hlist;
    } else {
      var x, rest := rejects[0], rejects[1..];
      assert rejects == [x] + rest;
      assert pre + rejects == pre + [x] + rest;
      DeletePairMiddle(s, x, h, pre, rest);
      NoDupMiddle(pre, x, rest);
      var s' := s.(rlist := s.rlist[x := Without(s.rlist[x], h)], hlist := s.hlist[h := pre + rest]);
      assert DeleteAll(s, rejects, h) == DeleteAll(s', rest, h);
      forall y | y in rest ensures y in s'.rlist && h in s'.rlist[y] && NoDup(s'.rlist[y]) {
        assert y in rejects && y != x;
      }
      DeleteAllCut(s', h, pre, rest);
      AfterCutStep(s, h, pre, x, rest);
    }
  }

  // ---------------------------------------------------------------------
  // Invariants of the loop with the occupancy read again

  /** What a cleaning reader hands to the loop: lists without repetitions,
      mutual acceptability, rank tables built from the hospitals' lists, and
      positive capacities (a hospital of capacity 0 evicts every proposer and
      has no worst resident to cut from). */
  ghost predicate WellFormed(I: Instance) {
    && (forall h | h in I.hospitals ::
          && NoDup(I.hospitals[h].list)
          && I.hospitals[h].rank == RankTable(I.hospitals[h].list)
          && I.hospitals[h].capacity >= 1)
    && (forall x | x in I.residents :: NoDup(I.residents[x]))
    && (forall x, h | x in I.residents && h in I.residents[x] :: h in I.hospitals && x in I.hospitals[h].list)
    && (forall h, x | h in I.hospitals && x in I.hospitals[h].list :: x in I.residents && h in I.residents[x])
  }

  /** Every agent of the instance has its entries in the state. */
  ghost predicate Shape(I: Instance, s: State) {
    && s.rlist.Keys == I.residents.Keys && s.rmatch.Keys == I.residents.Keys
    && s.hlist.Keys == I.hospitals.Keys && s.hmatch.Keys == I.hospitals.Keys
  }

  /** A resident's working list keeps some of its entries, without
      repetitions; a hospital's working list is a prefix of its list as
      read. */
  ghost predicate ListsShrink(I: Instance, s: State) {
    && (forall x | x in s.rlist && x in I.residents ::
          NoDup(s.rlist[x]) && forall h | h in s.rlist[x] :: h in I.residents[x])
    && (forall h | h in s.hlist && h in I.hospitals :: s.hlist[h] <= I.hospitals[h].list)
  }

  /** h is on x's working list iff x is on h's. */
  ghost predicate Symmetric(s: State) {
    forall x, h | x in s.rlist && h in s.hlist :: h in s.rlist[x] <==> x in s.hlist[h]
  }

  /** A hospital's residents are assigned to it and on its list as read;
      queued residents are unassigned. */
  ghost predicate Matched(I: Instance, s: State) {
    && (forall h, x | h in s.hmatch && x in s.hmatch[h] ::
          x in s.rmatch && s.rmatch[x] == Some(h) && h in I.hospitals && x in I.hospitals[h].list)
    && (forall x | x in s.free :: x in s.rmatch && s.rmatch[x] == None)
  }

  /** At most one of a hospital's residents is off its working list: the
      one the last cut started from. */
  ghost predicate OneOut(s: State) {
    forall h, x, y | h in s.hmatch && h in s.hlist && x in s.hmatch[h] && y in s.hmatch[h] &&
                     x !in s.hlist[h] && y !in s.hlist[h] :: x == y
  }

  ghost predicate Core(I: Instance, s: State) {
    && Shape(I, s) && ListsShrink(I, s) && Symmetric(s) && Matched(I, s) && OneOut(s)
  }

  ghost predicate Inv(I: Instance, s: State) {
    WellFormed(I) && Core(I, s) && Within(I, s)
  }

  /** The pairs (h, x) still on the hospitals' working lists. */
  function Pairs(hl: Prefs): set<(Id, Id)> {
    set h, x | h in hl && x in hl[h] :: (h, x)
  }

  /** The loop's measure goes down: no pair comes back to the working
      lists, and either one leaves them or the queue strictly shrinks. */
  ghost predicate Progress(s: State, t: State) {
    Pairs(t.hlist) <= Pairs(s.hlist) && (Pairs(t.hlist) < Pairs(s.hlist) || t.free < s.free)
  }

  // ---------------------------------------------------------------------
  // Facts about prefixes and ranks

  /** In a prefix of a list without repetitions, an element is present
      exactly when its original rank is below the prefix's length. */
  lemma {:induction false} PrefixRank(orig: seq<Id>, p: seq<Id>, y: Id)
    requires NoDup(orig) && p <= orig && y in orig
    ensures y in RankTable(orig) && (y in p <==> RankTable(orig)[y] < |p|)
  {
    var i := RankTable(orig)[y];
    if y in p {
      var j :| 0 <= j < |p| && p[j] == y;
      assert orig[j] == y;
    }
    if i < |p| {
      assert p[i] == orig[i];
    }
  }

  lemma {:induction false} PrefixIn(p: seq<Id>, orig: seq<Id>, y: Id)
    requires p <= orig && y in p
    ensures y in orig
  {
    var j :| 0 <= j < |p| && p[j] == y;
    assert orig[j] == y;
  }

  /** The split of a list at `k`, and where its elements go. */
  lemma {:induction false} SplitAt(l: seq<Id>, k: nat)
    ensures l == Take(l, k) + Drop(l, k)
    ensures forall y | y in Drop(l, k) :: y in l
  {
    if k <= |l| {
      assert l == l[..k] + l[k..];
    }
  }

  /** The facts about the hospital a resident proposes to. */
  lemma {:induction false} HeadFacts(I: Instance, s: State, x: Id)
    requires WellFormed(I) && Core(I, s) && x in s.rlist && |s.rlist[x]| > 0
    ensures var h := s.rlist[x][0];
      && x in I.residents && h in I.hospitals && h in s.hlist && h in s.hmatch
      && x in s.hlist[h] && x in I.hospitals[h].list
  {
    var h := s.rlist[x][0];
    assert h in s.rlist[x];
    assert h in I.residents[x];
    PrefixIn(s.hlist[h], I.hospitals[h].list, x);
  }

  /** The members of a hospital's set all have ranks. */
  lemma {:induction false} MembersRanked(I: Instance, s: State, h: Id)
    requires WellFormed(I) && Core(I, s) && h in I.hospitals
    ensures s.hmatch[h] <= I.hospitals[h].rank.Keys
  {
  }

  /** The cut in closed form, on a state where the invariant holds. */
  lemma {:induction false} CutForm(I: Instance, s: State, h: Id)
    requires WellFormed(I) && Core(I, s) && h in I.hospitals && s.hmatch[h] != {}
    ensures Worst(s.hmatch[h], I.hospitals[h].rank).Ok?
    ensures var k := I.hospitals[h].rank[Worst(s.hmatch[h], I.hospitals[h].rank).value];
      Cut(I, s, h) == Ok(AfterCut(s, h, Take(s.hlist[h], k), Drop(s.hlist[h], k)))
  {
    var H := I.hospitals[h];
    MembersRanked(I, s, h);
    var w := Worst(s.hmatch[h], H.rank).value;
    var k := H.rank[w];
    var hl := s.hlist[h];
    SplitAt(hl, k);
    PrefixNoDup(hl, H.list);
    forall x | x in Drop(hl, k) ensures x in s.rlist && h in s.rlist[x] && NoDup(s.rlist[x]) {
      PrefixIn(hl, H.list, x);
    }
    DeleteAllCut(s, h, Take(hl, k), Drop(hl, k));
  }

  /** The cut of h's list at original rank `k`. */
  function CutAt(s: State, h: Id, k: nat): State
    requires h in s.hlist
  {
    AfterCut(s, h, Take(s.hlist[h], k), Drop(s.hlist[h], k))
  }

  /** `w` is a member of h's set of greatest rank. */
  ghost predicate IsWorst(I: Instance, s: State, h: Id, w: Id)
    requires h in I.hospitals && h in s.hmatch
  {
    w in s.hmatch[h] && w in I.hospitals[h].rank &&
    forall y | y in s.hmatch[h] :: y in I.hospitals[h].rank && I.hospitals[h].rank[y] <= I.hospitals[h].rank[w]
  }

  lemma {:induction false} DisjointSplit(pre: seq<Id>, rest: seq<Id>, y: Id)
    requires NoDup(pre + rest) && y in pre
    ensures y !in rest
  {
    var i :| 0 <= i < |pre| && pre[i] == y;
    assert (pre + rest)[i] == y;
    assert forall j | 0 <= j < |rest| :: (pre + rest)[|pre| + j] == rest[j];
  }

  /** Every member of h's set but the worst survives the cut: stated on
      the list as read `orig`, its rank table, and the working prefix `hl`. */
  lemma {:induction false} MemberInPre(orig: seq<Id>, hl: seq<Id>, w: Id, y: Id)
    requires NoDup(orig) && hl <= orig && y in orig && w in orig && y != w
    requires RankTable(orig)[y] <= RankTable(orig)[w]
    requires y in hl || w in hl
    ensures y in Take(hl, RankTable(orig)[w])
  {
    var rank := RankTable(orig);
    assert orig[rank[y]] == y && orig[rank[w]] == w;
    PrefixRank(orig, hl, w);
    PrefixRank(orig, hl, y);
    PrefixRank(orig, Take(hl, rank[w]), y);
  }

  /** The same, read off the state. */
  lemma {:induction false} MemberSurvives(I: Instance, s: State, h: Id, w: Id, y: Id)
    requires WellFormed(I) && Core(I, s) && h in I.hospitals && IsWorst(I, s, h, w)
    requires y in s.hmatch[h] && y != w
    ensures y in Take(s.hlist[h], I.hospitals[h].rank[w])
  {
    var H := I.hospitals[h];
    assert H.rank == RankTable(H.list) && NoDup(H.list) && s.hlist[h] <= H.list;
    assert y in H.list && w in H.list;
    assert y in s.hlist[h] || w in s.hlist[h];
    MemberInPre(H.list, s.hlist[h], w, y);
  }

  lemma {:induction false} CutShrink(I: Instance, s: State, h: Id, k: nat)
    requires WellFormed(I) && Core(I, s) && h in I.hospitals
    ensures ListsShrink(I, CutAt(s, h, k))
  {
    var t := CutAt(s, h, k);
    forall x | x in t.rlist && x in I.residents
      ensures NoDup(t.rlist[x]) && forall g | g in t.rlist[x] :: g in I.residents[x]
    {
      if x in Drop(s.hlist[h], k) {
        WithoutKeepsNoDup(s.rlist[x], h);
      }
    }
  }

  lemma {:induction false} CutSymmetric(I: Instance, s: State, h: Id, k: nat)
    requires WellFormed(I) && Core(I, s) && h in I.hospitals
    ensures Symmetric(CutAt(s, h, k))
  {
    var t := CutAt(s, h, k);
    var hl := s.hlist[h];
    var pre, rejects := Take(hl, k), Drop(hl, k);
    SplitAt(hl, k);
    PrefixNoDup(hl, I.hospitals[h].list);
    forall x, g | x in t.rlist && g in t.hlist ensures g in t.rlist[x] <==> x in t.hlist[g] {
      if g == h {
        if x in rejects {
          if x in pre {
            DisjointSplit(pre, rejects, x);
          }
        }
      }
    }
  }

  lemma {:induction false} CutOneOut(I: Instance, s: State, h: Id, w: Id)
    requires WellFormed(I) && Core(I, s) && h in I.hospitals && IsWorst(I, s, h, w)
    ensures OneOut(CutAt(s, h, I.hospitals[h].rank[w]))
  {
    var t := CutAt(s, h, I.hospitals[h].rank[w]);
    forall g, a, b | g in t.hmatch && g in t.hlist && a in t.hmatch[g] && b in t.hmatch[g] &&
                     a !in t.hlist[g] && b !in t.hlist[g]
      ensures a == b
    {
      if g == h {
        if a != w {
          MemberSurvives(I, s, h, w, a);
        }
        if b != w {
          MemberSurvives(I, s, h, w, b);
        }
      }
    }
  }

  /** The cut only removes pairs, and removes (h, w) when w is still on
      h's list. */
  lemma {:induction false} CutPairs(I: Instance, s: State, h: Id, w: Id)
    requires WellFormed(I) && Core(I, s) && h in I.hospitals && IsWorst(I, s, h, w)
    ensures Pairs(CutAt(s, h, I.hospitals[h].rank[w]).hlist) <= Pairs(s.hlist)
    ensures w in s.hlist[h] ==> Pairs(CutAt(s, h, I.hospitals[h].rank[w]).hlist) < Pairs(s.hlist)
  {
    var k := I.hospitals[h].rank[w];
    var t := CutAt(s, h, k);
    var hl := s.hlist[h];
    forall p | p in Pairs(t.hlist) ensures p in Pairs(s.hlist) {
      var (g, y) := p;
      if g == h {
        PrefixIn(Take(hl, k), hl, y);
      }
    }
    if w in hl {
      assert (h, w) in Pairs(s.hlist);
      PrefixRank(I.hospitals[h].list, Take(hl, k), w);
      assert (h, w) !in Pairs(t.hlist);
    }
  }

  /** A state with the same matching and the same agents keeps the parts
      of the invariant about the matching. */
  lemma {:induction false} SameMatching(I: Instance, s: State, t: State)
    requires Shape(I, s) && Matched(I, s)
    requires t.rmatch == s.rmatch && t.hmatch == s.hmatch && t.free == s.free
    requires t.rlist.Keys == s.rlist.Keys && t.hlist.Keys == s.hlist.Keys
    ensures Shape(I, t) && Matched(I, t)
  {
  }

  /** A cut changes no assignment. */
  lemma CutMatching(I: Instance, s: State, h: Id, k: nat)
    requires Shape(I, s) && Matched(I, s) && h in s.hlist
    ensures Shape(I, CutAt(s, h, k)) && Matched(I, CutAt(s, h, k))
  {
    SameMatching(I, s, CutAt(s, h, k));
  }

  /** A cut from the worst resident keeps the invariant. */
  lemma {:induction false} CutCore(I: Instance, s: State, h: Id, w: Id)
    requires WellFormed(I) && Core(I, s) && h in I.hospitals && IsWorst(I, s, h, w)
    ensures var t := CutAt(s, h, I.hospitals[h].rank[w]); Core(I, t)
  {
    var k := I.hospitals[h].rank[w];
    var t := CutAt(s, h, k);
    assert Shape(I, t) && Matched(I, t) by { CutMatching(I, s, h, k); }
    assert ListsShrink(I, t) by { CutShrink(I, s, h, k); }
    assert Symmetric(t) by { CutSymmetric(I, s, h, k); }
    assert OneOut(t) by { CutOneOut(I, s, h, w); }
  }

  // ---------------------------------------------------------------------
  // Each part of an iteration keeps the invariant

  /** Updating the matching of a resident and a hospital already present
      keeps the agents. */
  lemma {:induction false} UpdateShape(I: Instance, s: State, t: State, x: Id, u: Option<Id>, h: Id, v: set<Id>)
    requires Shape(I, s) && x in s.rmatch && h in s.hmatch
    requires t.rlist == s.rlist && t.hlist == s.hlist
    requires t.rmatch == s.rmatch[x := u] && t.hmatch == s.hmatch[h := v]
    ensures Shape(I, t)
  {
  }

  /** A state with the same working lists keeps the parts of the
      invariant about the lists. */
  lemma {:induction false} SameLists(I: Instance, s: State, t: State)
    requires ListsShrink(I, s) && Symmetric(s) && t.rlist == s.rlist && t.hlist == s.hlist
    ensures ListsShrink(I, t) && Symmetric(t)
  {
  }

  lemma {:induction false} AssignMatched(I: Instance, s: State, t: State, x: Id, h: Id)
    requires Matched(I, s) && x in s.rmatch && s.rmatch[x] == None && x !in s.free
    requires h in I.hospitals && x in I.hospitals[h].list && h in s.hmatch
    requires t == s.(rmatch := s.rmatch[x := Some(h)], hmatch := s.hmatch[h := s.hmatch[h] + {x}])
    ensures Matched(I, t)
  {
    forall g, y | g in t.hmatch && y in t.hmatch[g]
      ensures y in t.rmatch && t.rmatch[y] == Some(g) && g in I.hospitals && y in I.hospitals[g].list
    {
      if y != x {
        assert y in s.hmatch[g];
      }
    }
  }

  lemma {:induction false} AssignOneOut(s: State, t: State, x: Id, h: Id)
    requires OneOut(s) && h in s.hlist && h in s.hmatch && x in s.hlist[h]
    requires t.hlist == s.hlist && t.hmatch == s.hmatch[h := s.hmatch[h] + {x}]
    ensures OneOut(t)
  {
    forall g, a, b | g in t.hmatch && g in t.hlist && a in t.hmatch[g] && b in t.hmatch[g] &&
                     a !in t.hlist[g] && b !in t.hlist[g]
      ensures a == b
    {
      assert a in s.hmatch[g] && b in s.hmatch[g];
    }
  }

  /** Assigning an unassigned resident to the head of its list. */
  lemma {:induction false} AssignCore(I: Instance, s: State, x: Id) returns (h: Id, s1: State)
    requires WellFormed(I) && Core(I, s) && x in s.rlist && |s.rlist[x]| > 0 && x !in s.free
    requires x in s.rmatch && s.rmatch[x] == None
    ensures h == s.rlist[x][0] && Assign(s, x, h) == Ok(s1)
    ensures h in I.hospitals && h in s.hlist && h in s.hmatch
    ensures x !in s.hmatch[h] && Core(I, s1)
  {
    h := s.rlist[x][0];
    HeadFacts(I, s, x);
    assert x !in s.hmatch[h];
    s1 := s.(rmatch := s.rmatch[x := Some(h)], hmatch := s.hmatch[h := s.hmatch[h] + {x}]);
    assert Core(I, s1) by {
      UpdateShape(I, s, s1, x, Some(h), h, s.hmatch[h] + {x});
      SameLists(I, s, s1);
      AssignMatched(I, s, s1, x, h);
      AssignOneOut(s, s1, x, h);
    }
  }

  lemma {:induction false} BreakMatched(I: Instance, s: State, t: State, w: Id, h: Id)
    requires Matched(I, s) && h in s.hmatch && w in s.hmatch[h]
    requires t.rmatch == s.rmatch[w := None] && t.hmatch == s.hmatch[h := s.hmatch[h] - {w}]
    requires t.free - {w} == s.free - {w}
    ensures Matched(I, t)
  {
    assert s.rmatch[w] == Some(h);
    forall g, y | g in t.hmatch && y in t.hmatch[g]
      ensures y in t.rmatch && t.rmatch[y] == Some(g) && g in I.hospitals && y in I.hospitals[g].list
    {
      assert y in s.hmatch[g];
      assert y != w;
    }
    forall y | y in t.free ensures y in t.rmatch && t.rmatch[y] == None {
      if y != w {
        assert y in t.free - {w};
        assert y in s.free;
      }
    }
  }

  lemma {:induction false} BreakOneOut(s: State, t: State, w: Id, h: Id)
    requires OneOut(s) && h in s.hmatch
    requires t.hlist == s.hlist && t.hmatch == s.hmatch[h := s.hmatch[h] - {w}]
    ensures OneOut(t)
  {
    forall g, a, b | g in t.hmatch && g in t.hlist && a in t.hmatch[g] && b in t.hmatch[g] &&
                     a !in t.hlist[g] && b !in t.hlist[g]
      ensures a == b
    {
      assert a in s.hmatch[g] && b in s.hmatch[g];
    }
  }

  /** Evicting the worst resident of a hospital: afterwards every resident
      it holds is on its working list. */
  lemma {:induction false} EvictCore(I: Instance, s: State, h: Id) returns (w: Id, s2: State)
    requires WellFormed(I) && Core(I, s) && h in I.hospitals && s.hmatch[h] != {}
    ensures Worst(s.hmatch[h], I.hospitals[h].rank) == Ok(w) && w in s.hmatch[h]
    ensures Evict(I, s, h) == Ok(s2) && Break(s, w, h) == Ok(s2)
    ensures Core(I, s2)
    ensures forall y | y in s2.hmatch[h] :: y in s2.hlist[h]
  {
    var H := I.hospitals[h];
    MembersRanked(I, s, h);
    w := Worst(s.hmatch[h], H.rank).value;
    assert IsWorst(I, s, h, w);
    assert w in s.rmatch && w in s.rlist;
    s2 := Break(s, w, h).value;
    BreakCore(I, s, h, w, s2);
    EvictedHeld(I, s, h, w, s2);
  }

  /** Breaking a pair keeps the invariant's core. */
  lemma BreakCore(I: Instance, s: State, h: Id, w: Id, s2: State)
    requires Core(I, s) && h in s.hmatch && w in s.hmatch[h] && w in s.rmatch && w in s.rlist
    requires Break(s, w, h) == Ok(s2)
    ensures Core(I, s2)
  {
    UpdateShape(I, s, s2, w, None, h, s.hmatch[h] - {w});
    SameLists(I, s, s2);
    BreakMatched(I, s, s2, w, h);
    BreakOneOut(s, s2, w, h);
  }

  /** After the worst resident leaves, everybody the hospital still holds is
      on its working list. */
  lemma EvictedHeld(I: Instance, s: State, h: Id, w: Id, s2: State)
    requires WellFormed(I) && Core(I, s) && h in I.hospitals && IsWorst(I, s, h, w)
    requires w in s.rmatch && w in s.rlist && Break(s, w, h) == Ok(s2)
    ensures forall y | y in s2.hmatch[h] :: y in s2.hlist[h]
  {
    forall y | y in s2.hmatch[h] ensures y in s2.hlist[h] {
      MemberSurvives(I, s, h, w, y);
      PrefixIn(Take(s.hlist[h], I.hospitals[h].rank[w]), s.hlist[h], y);
    }
  }

  /** A cut on a state where the invariant holds keeps it, only removes
      pairs, and removes one when every resident of the hospital is on its
      working list. */
  lemma {:induction false} CutStep(I: Instance, s: State, h: Id)
    requires WellFormed(I) && Core(I, s) && h in I.hospitals && s.hmatch[h] != {}
    ensures Cut(I, s, h).Ok?
    ensures var t := Cut(I, s, h).value;
      && Core(I, t) && t.hmatch == s.hmatch && t.free == s.free
      && (Within(I, s) ==> Within(I, t))
      && Pairs(t.hlist) <= Pairs(s.hlist)
      && ((forall y | y in s.hmatch[h] :: y in s.hlist[h]) ==> Pairs(t.hlist) < Pairs(s.hlist))
  {
    CutForm(I, s, h);
    var w := Worst(s.hmatch[h], I.hospitals[h].rank).value;
    assert IsWorst(I, s, h, w);
    CutCore(I, s, h, w);
    CutPairs(I, s, h, w);
  }

  /** Removing the popped resident from the queue keeps the invariant. */
  lemma {:induction false} PopCore(I: Instance, s: State, x: Id)
    requires Core(I, s) && x in s.free
    ensures Core(I, s.(free := s.free - {x}))
  {
    var t := s.(free := s.free - {x});
    assert t.rlist == s.rlist && t.hlist == s.hlist && t.rmatch == s.rmatch && t.hmatch == s.hmatch;
    SameLists(I, s, t);
    PopMatched(I, s, t);
  }

  lemma {:induction false} PopMatched(I: Instance, s: State, t: State)
    requires Matched(I, s) && OneOut(s) && t.rmatch == s.rmatch && t.hmatch == s.hmatch && t.hlist == s.hlist
    requires t.free <= s.free
    ensures Matched(I, t) && OneOut(t)
  {
    forall h, y | h in t.hmatch && y in t.hmatch[h]
      ensures y in t.rmatch && t.rmatch[y] == Some(h) && h in I.hospitals && y in I.hospitals[h].list
    {
      assert y in s.hmatch[h];
    }
  }

  /** The constructor's state satisfies the invariant. */
  lemma {:induction false} InitInv(I: Instance)
    requires WellFormed(I)
    ensures Inv(I, Init(I))
  {
    var s := Init(I);
    forall h | h in s.hlist && h in I.hospitals ensures s.hlist[h] <= I.hospitals[h].list {
      assert s.hlist[h] == I.hospitals[h].list;
    }
  }

  /** The proposal of a popped, unassigned resident: it succeeds, keeps
      the invariant, and either removes a pair from the working lists or
      leaves them and the queue as they were. */
  ghost predicate ProposeOk(I: Instance, s: State, x: Id)
    requires x in s.rlist && |s.rlist[x]| > 0
  {
    var r := Propose(I, s, x, true);
    && r.Ok? && Core(I, r.value) && Within(I, r.value)
    && (Pairs(r.value.hlist) < Pairs(s.hlist) || (Pairs(r.value.hlist) <= Pairs(s.hlist) && r.value.free == s.free))
  }

  ghost predicate Popped(I: Instance, s: State, x: Id) {
    && WellFormed(I) && Core(I, s) && Within(I, s)
    && x in s.rlist && |s.rlist[x]| > 0 && x !in s.free && x in s.rmatch && s.rmatch[x] == None
  }

  /** The three shapes of a proposal after the assignment `s1`. */
  lemma {:induction false} ProposeShape(I: Instance, s: State, x: Id, h: Id, s1: State)
    requires x in s.rlist && |s.rlist[x]| > 0 && h == s.rlist[x][0] && Assign(s, x, h) == Ok(s1)
    requires h in I.hospitals && h in s.hlist && h in s.hmatch
    ensures |s1.hmatch[h]| < I.hospitals[h].capacity ==> Propose(I, s, x, true) == Ok(s1)
    ensures |s1.hmatch[h]| == I.hospitals[h].capacity ==> Propose(I, s, x, true) == Cut(I, s1, h)
    ensures |s1.hmatch[h]| > I.hospitals[h].capacity ==>
      var e := Evict(I, s1, h);
      e.Ok? && |e.value.hmatch[h]| == I.hospitals[h].capacity ==> Propose(I, s, x, true) == Cut(I, e.value, h)
  {
  }

  /** The assignment of a popped resident to a full hospital overfills it
      by one. */
  lemma {:induction false} AssignOver(I: Instance, s: State, x: Id) returns (h: Id, s1: State)
    requires Popped(I, s, x)
    requires var h := s.rlist[x][0]; h in I.hospitals && h in s.hmatch && |s.hmatch[h]| == I.hospitals[h].capacity
    ensures h == s.rlist[x][0] && h in I.hospitals && h in s.hlist && h in s.hmatch && Assign(s, x, h) == Ok(s1)
    ensures Core(I, s1) && |s1.hmatch[h]| == I.hospitals[h].capacity + 1
    ensures s1.hmatch == s.hmatch[h := s1.hmatch[h]]
  {
    h, s1 := AssignCore(I, s, x);
    CardAdd(s.hmatch[h], x);
  }

  /** Evicting from a hospital overfull by one brings it back to capacity
      with every resident it holds on its working list. */
  lemma {:induction false} EvictOver(I: Instance, s1: State, h: Id) returns (s2: State)
    requires WellFormed(I) && Core(I, s1) && h in I.hospitals && |s1.hmatch[h]| == I.hospitals[h].capacity + 1
    ensures Evict(I, s1, h) == Ok(s2) && Core(I, s2) && s2.hlist == s1.hlist
    ensures |s2.hmatch[h]| == I.hospitals[h].capacity && s2.hmatch[h] != {}
    ensures forall y | y in s2.hmatch[h] :: y in s2.hlist[h]
    ensures s2.hmatch == s1.hmatch[h := s2.hmatch[h]]
  {
    var w;
    w, s2 := EvictCore(I, s1, h);
    CardRemove(s1.hmatch[h], w);
  }

  /** The proposal overfills the hospital: the eviction brings it back to
      capacity with every resident it holds on its working list. */
  lemma {:induction false} AssignEvict(I: Instance, s: State, x: Id) returns (h: Id, s2: State)
    requires Popped(I, s, x)
    requires var h := s.rlist[x][0]; h in I.hospitals && h in s.hmatch && |s.hmatch[h]| == I.hospitals[h].capacity
    ensures h == s.rlist[x][0] && h in I.hospitals && h in s2.hmatch && h in s2.hlist
    ensures Propose(I, s, x, true) == Cut(I, s2, h)
    ensures Core(I, s2) && Within(I, s2) && s2.hlist == s.hlist && s2.hmatch[h] != {}
    ensures forall y | y in s2.hmatch[h] :: y in s2.hlist[h]
  {
    var s1;
    h, s1 := AssignOver(I, s, x);
    s2 := EvictOver(I, s1, h);
    ProposeShape(I, s, x, h, s1);
    UpdateTwice(s.hmatch, h, s1.hmatch[h], s2.hmatch[h]);
    WithinUpdate(I, s, s2, h);
  }

  /** ... and the cut then removes a pair. */
  lemma {:induction false} ProposeOverfull(I: Instance, s: State, x: Id) returns (t: State)
    requires Popped(I, s, x)
    requires var h := s.rlist[x][0]; h in I.hospitals && h in s.hmatch && |s.hmatch[h]| == I.hospitals[h].capacity
    ensures Propose(I, s, x, true) == Ok(t) && Core(I, t) && Within(I, t)
    ensures Pairs(t.hlist) < Pairs(s.hlist)
  {
    var h, s2 := AssignEvict(I, s, x);
    CutStep(I, s2, h);
    t := Cut(I, s2, h).value;
  }

  /** The proposal fills the hospital exactly: the cut keeps the queue. */
  lemma {:induction false} ProposeFills(I: Instance, s: State, x: Id) returns (t: State)
    requires Popped(I, s, x)
    requires var h := s.rlist[x][0]; h in I.hospitals && h in s.hmatch && |s.hmatch[h]| + 1 == I.hospitals[h].capacity
    ensures Propose(I, s, x, true) == Ok(t) && Core(I, t) && Within(I, t)
    ensures Pairs(t.hlist) <= Pairs(s.hlist) && t.free == s.free
  {
    var h, s1 := AssignCore(I, s, x);
    assert |s1.hmatch[h]| == I.hospitals[h].capacity by {
      CardAdd(s.hmatch[h], x);
    }
    assert Propose(I, s, x, true) == Cut(I, s1, h) by {
      ProposeShape(I, s, x, h, s1);
    }
    assert Within(I, s1) by {
      WithinUpdate(I, s, s1, h);
    }
    CutStep(I, s1, h);
    t := Cut(I, s1, h).value;
  }

  /** The proposal leaves the hospital under capacity: nothing is cut. */
  lemma {:induction false} ProposeUnder(I: Instance, s: State, x: Id) returns (t: State)
    requires Popped(I, s, x)
    requires var h := s.rlist[x][0]; h in I.hospitals && h in s.hmatch && |s.hmatch[h]| + 1 < I.hospitals[h].capacity
    ensures Propose(I, s, x, true) == Ok(t) && Core(I, t) && Within(I, t)
    ensures t.hlist == s.hlist && t.free == s.free
  {
    var h, s1 := AssignCore(I, s, x);
    assert |s1.hmatch[h]| < I.hospitals[h].capacity by {
      CardAdd(s.hmatch[h], x);
    }
    assert Propose(I, s, x, true) == Ok(s1) by {
      ProposeShape(I, s, x, h, s1);
    }
    assert Within(I, s1) by {
      WithinUpdate(I, s, s1, h);
    }
    t := s1;
  }

  /** Changing one hospital's set to one within capacity keeps every
      hospital within capacity. */
  lemma {:induction false} WithinUpdate(I: Instance, s: State, t: State, h: Id)
    requires Within(I, s) && h in I.hospitals && h in t.hmatch && |t.hmatch[h]| <= I.hospitals[h].capacity
    requires t.hmatch == s.hmatch[h := t.hmatch[h]]
    ensures Within(I, t)
  {
  }

  lemma {:induction false} ProposeInv(I: Instance, s: State, x: Id)
    requires Popped(I, s, x)
    ensures ProposeOk(I, s, x)
  {
    HeadFacts(I, s, x);
    var h := s.rlist[x][0];
    var cap := I.hospitals[h].capacity;
    if |s.hmatch[h]| == cap {
      var t := ProposeOverfull(I, s, x);
    } else if |s.hmatch[h]| + 1 == cap {
      var t := ProposeFills(I, s, x);
    } else {
      var t := ProposeUnder(I, s, x);
    }
  }

  /** One iteration of the loop with the occupancy read again succeeds from
      every state satisfying the invariant, keeps the invariant and makes
      progress: either a pair leaves the working lists, or the queue
      shrinks. */
  lemma {:induction false} StepInv(I: Instance, s: State, x: Id)
    requires Inv(I, s) && x in s.free
    ensures Step(I, s, x).Ok?
    ensures Inv(I, Step(I, s, x).value) && Progress(s, Step(I, s, x).value)
  {
    var s0 := s.(free := s.free - {x});
    assert Core(I, s0) && Within(I, s0) by {
      PopCore(I, s, x);
    }
    assert x in s0.rlist && x in s0.rmatch && s0.rmatch[x] == None;
    if |s0.rlist[x]| > 0 {
      assert Step(I, s, x) == Propose(I, s0, x, true);
      ProposeInv(I, s0, x);
      var t := Step(I, s, x).value;
      assert Pairs(t.hlist) <= Pairs(s.hlist);
      assert Pairs(t.hlist) < Pairs(s.hlist) || t.free < s.free;
    } else {
      assert Step(I, s, x) == Ok(s0);
      assert s0.free < s.free;
    }
  }

  /** A subset of a finite set has at most as many elements. */
  lemma {:induction false} SubsetCard<T>(a: set<T>, b: set<T>)
    requires a <= b
    ensures |a| <= |b|
    decreases |b|
  {
    if a != {} {
      var y :| y in a;
      SubsetCard(a - {y}, b - {y});
    }
  }

  /** A proper subset of a finite set has fewer elements. */
  lemma {:induction false} ProperSubsetCard<T>(a: set<T>, b: set<T>)
    requires a < b
    ensures |a| < |b|
  {
    var y :| y in b && y !in a;
    SubsetCard(a, b - {y});
  }

  /** The measure of `Progress` decreases lexicographically. */
  lemma {:induction false} LexDecrease<A, B>(a: set<A>, a': set<A>, f: set<B>, f': set<B>)
    requires a' <= a && (a' < a || f' < f)
    ensures |a'| < |a| || (|a'| == |a| && |f'| < |f|)
  {
    if a' < a {
      ProperSubsetCard(a', a);
    } else {
      assert a' == a;
      ProperSubsetCard(f', f);
    }
  }

  /** The loop with the occupancy read again, the queue being popped in
      any order: it ends with every resident dequeued and the invariant
      intact. */
  ghost function Run(I: Instance, s: State): (t: State)
    requires Inv(I, s)
    ensures Inv(I, t) && t.free == {}
    decreases |Pairs(s.hlist)|, |s.free|
  {
    if s.free == {} then s
    else
      var x :| x in s.free;
      StepInv(I, s, x);
      var t := Step(I, s, x).value;
      LexDecrease(Pairs(s.hlist), Pairs(t.hlist), s.free, t.free);
      Run(I, t)
  }

  /** The loop as written, with at most `fuel` iterations and the popped
      resident chosen by `pop`; `None` when the fuel runs out first. */
  ghost function RunAsWritten(I: Instance, s: State, pop: seq<Id>, fuel: nat): (r: Option<Result<State>>)
    ensures r == Some(Ok(s)) <== s.free == {}
    ensures r.Some? && r.value.Ok? ==> r.value.value.free == {}
    decreases fuel
  {
    if s.free == {} then Some(Ok(s))
    else if fuel == 0 || |pop| == 0 then None
    else
      var x := pop[0];
      if x !in s.free then Some(Err(KeyError))
      else
        var t := StepAsWritten(I, s, x);
        if t.Err? then Some(t) else RunAsWritten(I, t.value, pop[1..], fuel - 1)
  }

  // ---------------------------------------------------------------------
  // The loop as written does not terminate

  /** The run as written finished with a state. */
  predicate Ends(r: Option<Result<State>>) {
    r.Some? && r.value.Ok?
  }

  /** A state whose one queued resident takes the loop back to that same
      state is never left: the loop as written does not finish from it,
      whatever the residents popped and however many iterations it is
      given. */
  lemma {:induction false} FixpointNeverEnds(I: Instance, s: State, b: Id, pop: seq<Id>, fuel: nat)
    requires s.free == {b} && StepAsWritten(I, s, b) == Ok(s)
    ensures !Ends(RunAsWritten(I, s, pop, fuel))
    decreases fuel
  {
    if fuel > 0 && |pop| > 0 && pop[0] == b {
      assert RunAsWritten(I, s, pop, fuel) == RunAsWritten(I, s, pop[1..], fuel - 1);
      FixpointNeverEnds(I, s, b, pop[1..], fuel - 1);
    }
  }

  /** A successful pop in front of a run that never ends. */
  lemma PopNeverEnds(I: Instance, s: State, x: Id, t: State, pop: seq<Id>, fuel: nat)
    requires x in s.free && StepAsWritten(I, s, x) == Ok(t)
    requires fuel >= 1 ==> !Ends(RunAsWritten(I, t, pop, fuel - 1))
    ensures !Ends(RunAsWritten(I, s, [x] + pop, fuel))
  {
    assert ([x] + pop)[0] == x && ([x] + pop)[1..] == pop;
  }

  /** Overwriting the middle or first entry of a three-entry map display. */
  lemma SetMiddle<K, V>(a: K, b: K, c: K, x: V, y: V, z: V, w: V)
    requires a != b && b != c && a != c
    ensures map[a := x, b := y, c := z][b := w] == map[a := x, b := w, c := z]
  {
  }

  lemma SetFirst<K, V>(a: K, b: K, c: K, x: V, y: V, z: V, w: V)
    requires a != b && b != c && a != c
    ensures map[a := x, b := y, c := z][a := w] == map[a := w, b := y, c := z]
  {
  }

  lemma TrioNoDup(a: Id, b: Id, c: Id)
    requires a != b && b != c && a != c
    ensures NoDup([a, b, c])
  {
    var l := [a, b, c];
    forall i, j | 0 <= i < j < |l| ensures l[i] != l[j] {
    }
  }

  /** A hospital `h` of capacity 1 ranking `a`, `b`, `c`, each of whom
      lists only `h`. */
  function Trio(h: Id, a: Id, b: Id, c: Id): Instance {
    Instance(map[a := [h], b := [h], c := [h]], map[h := Hospital(1, [a, b, c], RankTable([a, b, c]))])
  }

  /** Trio is an instance a cleaning reader can produce. */
  lemma TrioWellFormed(h: Id, a: Id, b: Id, c: Id)
    requires a != b && b != c && a != c
    ensures WellFormed(Trio(h, a, b, c))
  {
    TrioHospitalOk(h, a, b, c);
    TrioResidentsOk(h, a, b, c);
    TrioListedBack(h, a, b, c);
    TrioListedForth(h, a, b, c);
  }

  lemma TrioHospitalOk(h: Id, a: Id, b: Id, c: Id)
    requires a != b && b != c && a != c
    ensures var I := Trio(h, a, b, c); forall g | g in I.hospitals ::
      NoDup(I.hospitals[g].list) && I.hospitals[g].rank == RankTable(I.hospitals[g].list) && I.hospitals[g].capacity >= 1
  {
    TrioNoDup(a, b, c);
  }

  lemma TrioResidentsOk(h: Id, a: Id, b: Id, c: Id)
    ensures var I := Trio(h, a, b, c); forall x | x in I.residents :: NoDup(I.residents[x])
  {
    assert NoDup([h]);
    var I := Trio(h, a, b, c);
    assert forall x | x in I.residents :: I.residents[x] == [h];
  }

  lemma TrioListedBack(h: Id, a: Id, b: Id, c: Id)
    ensures var I := Trio(h, a, b, c);
      forall x, g | x in I.residents && g in I.residents[x] :: g in I.hospitals && x in I.hospitals[g].list
  {
    var I := Trio(h, a, b, c);
    forall x, g | x in I.residents && g in I.residents[x] ensures g in I.hospitals && x in I.hospitals[g].list {
      assert I.residents[x] == [h];
    }
  }

  lemma TrioListedForth(h: Id, a: Id, b: Id, c: Id)
    ensures var I := Trio(h, a, b, c);
      forall g, x | g in I.hospitals && x in I.hospitals[g].list :: x in I.residents && g in I.residents[x]
  {
    var I := Trio(h, a, b, c);
    forall g, x | g in I.hospitals && x in I.hospitals[g].list ensures x in I.residents && g in I.residents[x] {
      assert g == h && x in [a, b, c];
    }
  }

  /** The rank of each of the three in h's table. */
  lemma TrioRanks(h: Id, a: Id, b: Id, c: Id)
    requires a != b && b != c && a != c
    ensures var rank := Trio(h, a, b, c).hospitals[h].rank;
            a in rank && b in rank && c in rank && rank[a] == 0 && rank[b] == 1 && rank[c] == 2
  {
    var l: seq<Id> := [a, b, c];
    TrioNoDup(a, b, c);
    RankTableNoDup(l);
    assert l[0] == a && l[1] == b && l[2] == c;
  }

  /** The states the loop as written passes through on Trio when the queue
      pops c, b and a: after c, c alone holds h and the cut has struck the
      pair (c, h); after b, b has displaced c, whose list is now empty; after
      a, a has displaced b, who is queued again with h at the head of its
      list. The last is TrioStuck. */
  function TrioAfterC(h: Id, a: Id, b: Id, c: Id): State {
    State(map[a := [h], b := [h], c := []], map[h := [a, b]],
          map[a := None, b := None, c := Some(h)], map[h := {c}], {a, b})
  }

  function TrioAfterB(h: Id, a: Id, b: Id, c: Id): State {
    State(map[a := [h], b := [h], c := []], map[h := [a, b]],
          map[a := None, b := Some(h), c := None], map[h := {b}], {a})
  }

  function TrioStuck(h: Id, a: Id, b: Id, c: Id): State {
    State(map[a := [h], b := [h], c := []], map[h := [a, b]],
          map[a := Some(h), b := None, c := None], map[h := {a}], {b})
  }

  /** h over-full with a and b, nobody queued. */
  function TrioFull(h: Id, a: Id, b: Id, c: Id): State {
    State(map[a := [h], b := [h], c := []], map[h := [a, b]],
          map[a := Some(h), b := Some(h), c := None], map[h := {a, b}], {})
  }

  lemma TrioInit(h: Id, a: Id, b: Id, c: Id)
    requires a != b && b != c && a != c
    ensures Init(Trio(h, a, b, c)) ==
      State(map[a := [h], b := [h], c := [h]], map[h := [a, b, c]],
            map[a := None, b := None, c := None], map[h := {}], {a, b, c})
  {
    var I := Trio(h, a, b, c);
    var s := Init(I);
    assert I.hospitals.Keys == {h} && I.residents.Keys == {a, b, c};
    assert s.hlist == map[h := [a, b, c]] by { OneKey(s.hlist, h, [a, b, c]); }
    assert s.hmatch == map[h := {}] by { OneKey(s.hmatch, h, {}); }
    assert s.rmatch == map[a := None, b := None, c := None] by { ThreeNones(s.rmatch, a, b, c); }
  }

  lemma OneKey<V>(m: map<Id, V>, k: Id, v: V)
    requires m.Keys == {k} && m[k] == v
    ensures m == map[k := v]
  {
  }

  lemma ThreeNones(m: map<Id, Option<Id>>, a: Id, b: Id, c: Id)
    requires m.Keys == {a, b, c} && forall x | x in m :: m[x] == None
    ensures m == map[a := None, b := None, c := None]
  {
  }

  /** Removing c from h's list and h from c's list. */
  lemma TrioDeleteC(h: Id, a: Id, b: Id, c: Id, s1: State)
    requires a != b && b != c && a != c
    requires s1.rlist == map[a := [h], b := [h], c := [h]] && s1.hlist == map[h := [a, b, c]]
    ensures DeletePair(s1, c, h) == Ok(s1.(rlist := map[a := [h], b := [h], c := []], hlist := map[h := [a, b]]))
  {
    TrioNoDup(a, b, c);
    assert [a, b, c] == [a, b] + [c] + [];
    NoDupMiddle([a, b], c, []);
    assert [a, b] + [] == [a, b];
    assert Remove(s1.hlist[h], c) == Ok([a, b]);
    assert Remove(s1.rlist[c], h) == Ok([]);
    UpdateTwice(map[], h, [a, b, c], [a, b]);
    UpdateTwice(map[a := [h], b := [h]], c, [h], []);
  }

  /** c alone fills h; the cut from c's rank deletes the pair (c, h). */
  lemma TrioCutC(h: Id, a: Id, b: Id, c: Id, s1: State)
    requires a != b && b != c && a != c
    requires s1 == State(map[a := [h], b := [h], c := [h]], map[h := [a, b, c]],
                         map[a := None, b := None, c := Some(h)], map[h := {c}], {a, b})
    ensures Cut(Trio(h, a, b, c), s1, h) == Ok(TrioAfterC(h, a, b, c))
  {
    TrioRanks(h, a, b, c);
    assert Worst({c}, Trio(h, a, b, c).hospitals[h].rank) == Ok(c);
    assert Drop([a, b, c], 2) == [c];
    TrioDeleteC(h, a, b, c, s1);
    var s2 := s1.(rlist := map[a := [h], b := [h], c := []], hlist := map[h := [a, b]]);
    assert DeleteAll(s2, [], h) == Ok(s2);
    assert DeleteAll(s1, [c], h) == Ok(s2);
  }

  lemma TrioPopC(h: Id, a: Id, b: Id, c: Id)
    requires a != b && b != c && a != c
    ensures StepAsWritten(Trio(h, a, b, c), Init(Trio(h, a, b, c)), c) == Ok(TrioAfterC(h, a, b, c))
  {
    TrioInit(h, a, b, c);
    var s0 := Init(Trio(h, a, b, c)).(free := {a, b});
    assert Init(Trio(h, a, b, c)).free - {c} == {a, b};
    var s1 := s0.(rmatch := map[a := None, b := None, c := Some(h)], hmatch := map[h := {c}]);
    assert {} + {c} == {c};
    UpdateTwice(map[a := None, b := None], c, None, Some(h));
    UpdateTwice(map[], h, {}, {c});
    assert Assign(s0, c, h) == Ok(s1);
    TrioCutC(h, a, b, c, s1);
  }

  /** b displaces c, whose list is exhausted, so c is not queued again. */
  lemma TrioEvictC(h: Id, a: Id, b: Id, c: Id, s1: State)
    requires a != b && b != c && a != c
    requires s1 == State(map[a := [h], b := [h], c := []], map[h := [a, b]],
                         map[a := None, b := Some(h), c := Some(h)], map[h := {b, c}], {a})
    ensures Evict(Trio(h, a, b, c), s1, h) == Ok(TrioAfterB(h, a, b, c))
  {
    TrioRanks(h, a, b, c);
    assert Worst({b, c}, Trio(h, a, b, c).hospitals[h].rank) == Ok(c);
    assert {b, c} - {c} == {b};
    UpdateTwice(map[a := None, b := Some(h)], c, Some(h), None);
    UpdateTwice(map[], h, {b, c}, {b});
    assert Break(s1, c, h) == Ok(TrioAfterB(h, a, b, c));
  }

  lemma TrioPopB(h: Id, a: Id, b: Id, c: Id)
    requires a != b && b != c && a != c
    ensures StepAsWritten(Trio(h, a, b, c), TrioAfterC(h, a, b, c), b) == Ok(TrioAfterB(h, a, b, c))
  {
    var s0 := TrioAfterC(h, a, b, c).(free := {a});
    assert {a, b} - {b} == {a};
    var s1 := s0.(rmatch := map[a := None, b := Some(h), c := Some(h)], hmatch := map[h := {b, c}]);
    assert {c} + {b} == {b, c};
    SetMiddle(a, b, c, None, None, Some(h), Some(h));
    UpdateTwice(map[], h, {c}, {b, c});
    assert Assign(s0, b, h) == Ok(s1);
    TrioEvictC(h, a, b, c, s1);
    assert |s1.hmatch[h]| == 2;
  }

  /** With a and b both holding h, b is the worst and is evicted; its list
      still starts with h, so it is queued again. */
  lemma TrioEvictB(h: Id, a: Id, b: Id, c: Id)
    requires a != b && b != c && a != c
    ensures Evict(Trio(h, a, b, c), TrioFull(h, a, b, c), h) == Ok(TrioStuck(h, a, b, c))
  {
    TrioRanks(h, a, b, c);
    assert Worst({a, b}, Trio(h, a, b, c).hospitals[h].rank) == Ok(b);
    assert {a, b} - {b} == {a};
    assert {} + {b} == {b};
    SetMiddle(a, b, c, Some(h), Some(h), None, None);
    UpdateTwice(map[], h, {a, b}, {a});
    assert Break(TrioFull(h, a, b, c), b, h) == Ok(TrioStuck(h, a, b, c));
  }

  lemma TrioPopA(h: Id, a: Id, b: Id, c: Id)
    requires a != b && b != c && a != c
    ensures StepAsWritten(Trio(h, a, b, c), TrioAfterB(h, a, b, c), a) == Ok(TrioStuck(h, a, b, c))
  {
    var s0 := TrioAfterB(h, a, b, c).(free := {});
    assert {a} - {a} == {};
    assert {b} + {a} == {a, b};
    SetFirst(a, b, c, None, Some(h), None, Some(h));
    UpdateTwice(map[], h, {b}, {a, b});
    assert Assign(s0, a, h) == Ok(TrioFull(h, a, b, c));
    TrioEvictB(h, a, b, c);
    assert |TrioFull(h, a, b, c).hmatch[h]| == 2;
  }

  /** From TrioStuck, `b` proposes to h, h overflows and evicts `b` again;
      the occupancy read before the eviction is 2, so nothing is cut, and
      `b` is queued again with h still on its list: the state repeats. */
  lemma TrioRepeats(h: Id, a: Id, b: Id, c: Id)
    requires a != b && b != c && a != c
    ensures StepAsWritten(Trio(h, a, b, c), TrioStuck(h, a, b, c), b) == Ok(TrioStuck(h, a, b, c))
  {
    var s0 := TrioStuck(h, a, b, c).(free := {});
    assert {b} - {b} == {};
    assert {a} + {b} == {a, b};
    SetMiddle(a, b, c, Some(h), None, None, Some(h));
    UpdateTwice(map[], h, {a}, {a, b});
    assert Assign(s0, b, h) == Ok(TrioFull(h, a, b, c));
    TrioEvictB(h, a, b, c);
    assert |TrioFull(h, a, b, c).hmatch[h]| == 2;
  }

  /** The loop as written reaches TrioStuck from the constructor's state
      of Trio when the queue pops c, b, a. */
  lemma TrioReaches(h: Id, a: Id, b: Id, c: Id)
    requires a != b && b != c && a != c
    ensures StepAsWritten(Trio(h, a, b, c), Init(Trio(h, a, b, c)), c) == Ok(TrioAfterC(h, a, b, c))
    ensures StepAsWritten(Trio(h, a, b, c), TrioAfterC(h, a, b, c), b) == Ok(TrioAfterB(h, a, b, c))
    ensures StepAsWritten(Trio(h, a, b, c), TrioAfterB(h, a, b, c), a) == Ok(TrioStuck(h, a, b, c))
  {
    TrioPopC(h, a, b, c);
    TrioPopB(h, a, b, c);
    TrioPopA(h, a, b, c);
  }

  /** Hence on Trio, from TrioStuck, the loop as written never finishes. */
  lemma TrioNeverEnds(h: Id, a: Id, b: Id, c: Id, pop: seq<Id>, fuel: nat)
    requires a != b && b != c && a != c
    ensures !Ends(RunAsWritten(Trio(h, a, b, c), TrioStuck(h, a, b, c), pop, fuel))
  {
    TrioRepeats(h, a, b, c);
    FixpointNeverEnds(Trio(h, a, b, c), TrioStuck(h, a, b, c), b, pop, fuel);
  }

  /** From the state after c's pop, popping a and then anything: the run
      as written does not finish. */
  lemma TrioFromB(h: Id, a: Id, b: Id, c: Id, pop: seq<Id>, fuel: nat)
    requires a != b && b != c && a != c
    ensures !Ends(RunAsWritten(Trio(h, a, b, c), TrioAfterB(h, a, b, c), [a] + pop, fuel))
  {
    var I, s, t := Trio(h, a, b, c), TrioAfterB(h, a, b, c), TrioStuck(h, a, b, c);
    assert a in s.free && StepAsWritten(I, s, a) == Ok(t) by { TrioPopA(h, a, b, c); }
    assert fuel >= 1 ==> !Ends(RunAsWritten(I, t, pop, fuel - 1)) by {
      if fuel >= 1 {
        TrioNeverEnds(h, a, b, c, pop, fuel - 1);
      }
    }
    PopNeverEnds(I, s, a, t, pop, fuel);
  }

  lemma TrioFromC(h: Id, a: Id, b: Id, c: Id, pop: seq<Id>, fuel: nat)
    requires a != b && b != c && a != c
    ensures !Ends(RunAsWritten(Trio(h, a, b, c), TrioAfterC(h, a, b, c), [b] + ([a] + pop), fuel))
  {
    var I, s, t := Trio(h, a, b, c), TrioAfterC(h, a, b, c), TrioAfterB(h, a, b, c);
    assert b in s.free && StepAsWritten(I, s, b) == Ok(t) by { TrioPopB(h, a, b, c); }
    assert fuel >= 1 ==> !Ends(RunAsWritten(I, t, [a] + pop, fuel - 1)) by {
      if fuel >= 1 {
        TrioFromB(h, a, b, c, pop, fuel - 1);
      }
    }
    PopNeverEnds(I, s, b, t, [a] + pop, fuel);
  }

  /** From the constructor's state, a queue that pops c, b and a first and
      anything afterwards never empties: the loop as written does not
      terminate on an instance every reader accepts. */
  lemma TrioNeverEndsFromStart(h: Id, a: Id, b: Id, c: Id, pop: seq<Id>, fuel: nat)
    requires a != b && b != c && a != c
    ensures !Ends(RunAsWritten(Trio(h, a, b, c), Init(Trio(h, a, b, c)), [c] + ([b] + ([a] + pop)), fuel))
  {
    var I, s, t := Trio(h, a, b, c), Init(Trio(h, a, b, c)), TrioAfterC(h, a, b, c);
    assert c in s.free && StepAsWritten(I, s, c) == Ok(t) by { TrioPopC(h, a, b, c); }
    assert fuel >= 1 ==> !Ends(RunAsWritten(I, t, [b] + ([a] + pop), fuel - 1)) by {
      if fuel >= 1 {
        TrioFromC(h, a, b, c, pop, fuel - 1);
      }
    }
    PopNeverEnds(I, s, c, t, [b] + ([a] + pop), fuel);
  }
}
