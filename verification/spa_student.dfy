/** The student-proposing loop of `SPAStudentOptimal`.

    A popped student proposes to the head of its working list and is
    provisionally assigned to that project and its lecturer. A project over
    its quota then gives up its worst student; otherwise a lecturer over
    quota gives up theirs. A project that is exactly full deletes every
    student after its worst one from its projected list; a lecturer who is
    exactly full strips every student after their worst one of all their
    projects. Project and lecturer keep a pointer to their worst assigned
    student, moved on every assignment and rescanned on every removal. */
module SPAStudent {
  import opened Wrappers
  import opened Lists
  import opened SPA

  /** `M[project]` or `M[lecturer]`: the assigned students and the
      `worst_student` pointer. */
  datatype Slot = Slot(members: set<Id>, worst: Option<Id>)

  /** The loop's state: the `delete` lists of students, projects and
      lecturers, `M` split by kind, and the unassigned set. */
  datatype State = State(
    sdel: map<Id, seq<Id>>,
    pdel: map<Id, seq<Id>>,
    ldel: map<Id, seq<Id>>,
    sm: map<Id, Option<Id>>,
    pm: map<Id, Slot>,
    lm: map<Id, Slot>,
    free: set<Id>)

  /** The constructor: every student unassigned and queued, every `delete`
      list a copy of the list as read, every slot empty. */
  function Init(I: Instance): (s: State)
    ensures s.free == I.students.Keys && s.sm.Keys == I.students.Keys
    ensures s.sdel == I.students
    ensures forall x | x in s.sm :: s.sm[x] == None
    ensures s.pdel.Keys == s.pm.Keys == I.projects.Keys && s.ldel.Keys == s.lm.Keys == I.lecturers.Keys
    ensures forall p | p in s.pm :: s.pm[p] == Slot({}, None) && s.pdel[p] == I.projects[p].list
    ensures forall l | l in s.lm :: s.lm[l] == Slot({}, None) && s.ldel[l] == I.lecturers[l].list
  {
    State(I.students,
          map p | p in I.projects :: I.projects[p].list,
          map l | l in I.lecturers :: I.lecturers[l].list,
          map x | x in I.students :: None,
          map p | p in I.projects :: Slot({}, None),
          map l | l in I.lecturers :: Slot({}, None),
          I.students.Keys)
  }

  /** The pointer of a slot designates a member of greatest rank, and is
      `None` exactly when the slot is empty. */
  ghost predicate Tracks(sl: Slot, rank: map<Id, nat>) {
    && (forall y | y in sl.members :: y in rank)
    && (sl.members == {} ==> sl.worst == None)
    && (sl.members != {} ==>
          sl.worst.Some? && sl.worst.value in sl.members &&
          forall y | y in sl.members :: rank[y] <= rank[sl.worst.value])
  }

  /** The pointer half of `_provisionally_assign`: the new student becomes
      the worst when there was none, or when its rank is strictly larger. */
  function Admit(sl: Slot, x: Id, rank: map<Id, nat>): (r: Result<Slot>)
    ensures r.Ok? <==> sl.worst.None? || (sl.worst.value in rank && x in rank)
    ensures r.Ok? ==> r.value.members == sl.members + {x}
    ensures r.Ok? && Tracks(sl, rank) && x in rank ==> Tracks(r.value, rank)
  {
    var members := sl.members + {x};
    if sl.worst.None? then Ok(Slot(members, Some(x)))
    else
      var w := sl.worst.value;
      if w !in rank || x !in rank then Err(KeyError)
      else if rank[x] > rank[w] then Ok(Slot(members, Some(x)))
      else Ok(Slot(members, sl.worst))
  }

  /** The scan of `_update_worst_student`: from position `k` down to 0, the
      first student of `prefs` who is in `S`. */
  function ScanBack(prefs: seq<Id>, k: int, S: set<Id>): (r: Option<Id>)
    requires k < |prefs|
    ensures r.Some? ==> r.value in S && r.value in prefs
    decreases k + 1
  {
    if k < 0 then None
    else if prefs[k] in S then Some(prefs[k])
    else ScanBack(prefs, k - 1, S)
  }

  /** `rank` gives every key a position of `prefs` holding that key, as a
      rank table does. */
  ghost predicate Positions(prefs: seq<Id>, rank: map<Id, nat>) {
    forall y | y in rank :: rank[y] < |prefs| && prefs[rank[y]] == y
  }

  /** When every member of `S` sits at position `k` or before, the scan
      finds the member of greatest rank. */
  lemma {:induction false} ScanBackFindsWorst(prefs: seq<Id>, rank: map<Id, nat>, k: int, S: set<Id>)
    requires NoDup(prefs) && Positions(prefs, rank) && k < |prefs| && S != {}
    requires forall y | y in S :: y in rank && rank[y] <= k
    ensures var r := ScanBack(prefs, k, S);
      r.Some? && r.value in S && forall y | y in S :: rank[y] <= rank[r.value]
    decreases k + 1
  {
    var y0 :| y0 in S;
    assert 0 <= rank[y0] <= k;
    if prefs[k] in S {
      var j := rank[prefs[k]];
      assert prefs[j] == prefs[k];
      assert j == k;
      assert ScanBack(prefs, k, S) == Some(prefs[k]);
    } else {
      forall y | y in S ensures rank[y] <= k - 1 {
        assert prefs[rank[y]] == y;
      }
      ScanBackFindsWorst(prefs, rank, k - 1, S);
      assert ScanBack(prefs, k, S) == ScanBack(prefs, k - 1, S);
    }
  }

  /** The other half of `_update_worst_student`, once `x` has left the
      slot: nothing happens unless `x` was its worst; a project's pointer
      is cleared when the slot is empty (`resetEmpty`), a lecturer's never
      is; otherwise the pointer moves to the nearest better-ranked member.
      A pointer that was right before the removal is right after it. */
  function Refresh(sl: Slot, x: Id, prefs: seq<Id>, rank: map<Id, nat>, resetEmpty: bool): (r: Result<Slot>)
    ensures r.Ok? ==> r.value.members == sl.members
    ensures sl.worst != Some(x) ==> r == Ok(sl)
  {
    if sl.worst != Some(x) then
      Ok(sl)
    else if resetEmpty && sl.members == {} then
      Ok(sl.(worst := None))
    else if x !in rank then
      Err(KeyError)
    else if rank[x] > |prefs| then
      Err(IndexError)
    else
      var found := ScanBack(prefs, rank[x] as int - 1, sl.members);
      if found.None? then Ok(sl) else Ok(sl.(worst := found))
  }

  /** A pointer that was right before the removal of `x` is right after the
      refresh, unless a lecturer's slot has just become empty. */
  lemma RefreshTracks(sl: Slot, x: Id, prefs: seq<Id>, rank: map<Id, nat>, resetEmpty: bool)
    requires Tracks(Slot(sl.members + {x}, sl.worst), rank) && x !in sl.members
    requires NoDup(prefs) && rank == RankTable(prefs) && (resetEmpty || sl.members != {})
    ensures Refresh(sl, x, prefs, rank, resetEmpty).Ok?
    ensures Tracks(Refresh(sl, x, prefs, rank, resetEmpty).value, rank)
  {
    if sl.worst != Some(x) {
      StillTracks(sl, x, rank);
    } else if !(resetEmpty && sl.members == {}) {
      assert Positions(prefs, rank);
      RescanTracks(sl, x, prefs, rank, resetEmpty);
    }
  }

  /** Removing a member other than the worst leaves the pointer right. */
  lemma StillTracks(sl: Slot, x: Id, rank: map<Id, nat>)
    requires Tracks(Slot(sl.members + {x}, sl.worst), rank) && x !in sl.members && sl.worst != Some(x)
    ensures Tracks(sl, rank)
  {
    assert x in sl.members + {x};
    assert sl.worst.value in sl.members + {x};
  }

  /** Removing the worst member of a slot that stays non-empty rescans to
      the new worst. */
  lemma RescanTracks(sl: Slot, x: Id, prefs: seq<Id>, rank: map<Id, nat>, resetEmpty: bool)
    requires Tracks(Slot(sl.members + {x}, sl.worst), rank) && x !in sl.members && sl.worst == Some(x)
    requires NoDup(prefs) && Positions(prefs, rank) && sl.members != {}
    ensures Refresh(sl, x, prefs, rank, resetEmpty).Ok?
    ensures Tracks(Refresh(sl, x, prefs, rank, resetEmpty).value, rank)
  {
    RefreshFinds(sl, x, prefs, rank);
    var found := ScanBack(prefs, rank[x] as int - 1, sl.members);
    assert Refresh(sl, x, prefs, rank, resetEmpty) == Ok(sl.(worst := found));
  }

  /** The rescan after the worst member `x` leaves a non-empty slot finds
      the new worst. */
  lemma {:induction false} RefreshFinds(sl: Slot, x: Id, prefs: seq<Id>, rank: map<Id, nat>)
    requires Tracks(Slot(sl.members + {x}, sl.worst), rank) && x !in sl.members && sl.worst == Some(x)
    requires NoDup(prefs) && Positions(prefs, rank) && sl.members != {}
    ensures x in rank && rank[x] <= |prefs|
    ensures var r := ScanBack(prefs, rank[x] as int - 1, sl.members);
      r.Some? && r.value in sl.members && forall y | y in sl.members :: rank[y] <= rank[r.value]
  {
    var all := sl.members + {x};
    assert x in all;
    var k := rank[x] as int - 1;
    forall y | y in sl.members ensures y in rank && rank[y] <= k {
      assert y in all && y != x;
      assert prefs[rank[y]] == y;
    }
    ScanBackFindsWorst(prefs, rank, k, sl.members);
  }

  /** `_provisionally_assign(x, p, l)`. */
  function Assign(I: Instance, s: State, x: Id, p: Id, l: Id): (r: Result<State>)
    ensures r.Ok? ==> p in s.pm && l in s.lm && p in I.projects && l in I.lecturers
    ensures r.Ok? ==> p in r.value.pm && l in r.value.lm
    ensures r.Ok? ==> r.value == s.(sm := s.sm[x := Some(p)],
                                    pm := s.pm[p := r.value.pm[p]],
                                    lm := s.lm[l := r.value.lm[l]])
    ensures r.Ok? ==> r.value.pm[p].members == s.pm[p].members + {x} && r.value.lm[l].members == s.lm[l].members + {x}
    ensures r.Ok? ==> Admit(s.pm[p], x, I.projects[p].rank) == Ok(r.value.pm[p])
    ensures r.Ok? ==> Admit(s.lm[l], x, I.lecturers[l].rank) == Ok(r.value.lm[l])
  {
    if x !in s.sm || p !in s.pm || l !in s.lm || p !in I.projects || l !in I.lecturers then Err(KeyError)
    else
      var ps :- Admit(s.pm[p], x, I.projects[p].rank);
      var ls :- Admit(s.lm[l], x, I.lecturers[l].rank);
      Ok(s.(sm := s.sm[x := Some(p)], pm := s.pm[p := ps], lm := s.lm[l := ls]))
  }

  /** `_break_assignment(x, p, l)`: `x` leaves both slots (KeyError when it
      is not there), is queued again iff its working list is non-empty, and
      both pointers are refreshed. */
  function Break(I: Instance, s: State, x: Id, p: Id, l: Id): (r: Result<State>)
    ensures r.Ok? ==> x in s.sm && p in s.pm && l in s.lm && x in s.sdel && p in I.projects && l in I.lecturers
    ensures r.Ok? ==> x in s.pm[p].members && x in s.lm[l].members
    ensures r.Ok? ==> p in r.value.pm && l in r.value.lm
    ensures r.Ok? ==> r.value == s.(sm := s.sm[x := None],
                                    pm := s.pm[p := r.value.pm[p]],
                                    lm := s.lm[l := r.value.lm[l]],
                                    free := if |s.sdel[x]| > 0 then s.free + {x} else s.free)
    ensures r.Ok? ==> r.value.pm[p].members == s.pm[p].members - {x} && r.value.lm[l].members == s.lm[l].members - {x}
    ensures r.Ok? ==> Refresh(s.pm[p].(members := s.pm[p].members - {x}), x, I.projects[p].list, I.projects[p].rank, true)
                      == Ok(r.value.pm[p])
    ensures r.Ok? ==> Refresh(s.lm[l].(members := s.lm[l].members - {x}), x, I.lecturers[l].list, I.lecturers[l].rank, false)
                      == Ok(r.value.lm[l])
  {
    if x !in s.sm || p !in s.pm || x !in s.pm[p].members || l !in s.lm || x !in s.lm[l].members then Err(KeyError)
    else if x !in s.sdel || p !in I.projects || l !in I.lecturers then Err(KeyError)
    else
      var free := if |s.sdel[x]| > 0 then s.free + {x} else s.free;
      var ps :- Refresh(s.pm[p].(members := s.pm[p].members - {x}), x, I.projects[p].list, I.projects[p].rank, true);
      var ls :- Refresh(s.lm[l].(members := s.lm[l].members - {x}), x, I.lecturers[l].list, I.lecturers[l].rank, false);
      Ok(s.(sm := s.sm[x := None], pm := s.pm[p := ps], lm := s.lm[l := ls], free := free))
  }

  /** `delete[x].remove(p)` then `delete[p].remove(x)`. */
  function DeletePair(s: State, x: Id, p: Id): (r: Result<State>)
    ensures r.Ok? <==> x in s.sdel && p in s.sdel[x] && p in s.pdel && x in s.pdel[p]
    ensures r.Ok? ==> x in r.value.sdel && p in r.value.pdel
    ensures r.Ok? ==> r.value == s.(sdel := s.sdel[x := r.value.sdel[x]], pdel := s.pdel[p := r.value.pdel[p]])
    ensures r.Ok? ==> Remove(s.sdel[x], p) == Ok(r.value.sdel[x]) && Remove(s.pdel[p], x) == Ok(r.value.pdel[p])
  {
    if x !in s.sdel then Err(KeyError)
    else
      var sl :- Remove(s.sdel[x], p);
      if p !in s.pdel then Err(KeyError)
      else
        var pl :- Remove(s.pdel[p], x);
        Ok(s.(sdel := s.sdel[x := sl], pdel := s.pdel[p := pl]))
  }

  /** The deletion loop of a full project, over its snapshot of successors. */
  function DeleteAll(s: State, xs: seq<Id>, p: Id): (r: Result<State>)
    ensures r.Ok? ==> r.value.sm == s.sm && r.value.pm == s.pm && r.value.lm == s.lm
    ensures r.Ok? ==> r.value.ldel == s.ldel && r.value.free == s.free
    ensures r.Ok? ==> r.value.sdel.Keys == s.sdel.Keys && r.value.pdel.Keys == s.pdel.Keys
    decreases |xs|
  {
    if |xs| == 0 then Ok(s)
    else
      var t :- DeletePair(s, xs[0], p);
      DeleteAll(t, xs[1..], p)
  }

  /** The students after the pointed-to worst in `list`, among those still
      on `working`; a missing pointer or rank is the KeyError of
      `rank[worst_student]`. */
  function Successors(worst: Option<Id>, list: seq<Id>, rank: map<Id, nat>, working: seq<Id>): (r: Result<seq<Id>>)
    ensures r.Ok? <==> worst.Some? && worst.value in rank
    ensures r.Ok? ==> r.value == Filter(Drop(list, rank[worst.value] + 1), Elems(working))
  {
    if worst.None? || worst.value !in rank then Err(KeyError)
    else Ok(Filter(Drop(list, rank[worst.value] + 1), Elems(working)))
  }

  /** A project exactly full: its successors of the worst are deleted. */
  function ProjectCut(I: Instance, s: State, p: Id): (r: Result<State>)
    ensures r.Ok? ==> r.value.sm == s.sm && r.value.pm == s.pm && r.value.lm == s.lm
    ensures r.Ok? ==> r.value.ldel == s.ldel && r.value.free == s.free
    ensures r.Ok? ==> r.value.sdel.Keys == s.sdel.Keys && r.value.pdel.Keys == s.pdel.Keys
  {
    if p !in I.projects || p !in s.pm || p !in s.pdel then Err(KeyError)
    else
      var P := I.projects[p];
      var succ :- Successors(s.pm[p].worst, P.list, P.rank, s.pdel[p]);
      DeleteAll(s, succ, p)
  }

  /** The inner loop of a full lecturer: `x` loses each project of `ps`. */
  function StripProjects(s: State, x: Id, ps: seq<Id>): (r: Result<State>)
    ensures r.Ok? ==> r.value.sm == s.sm && r.value.pm == s.pm && r.value.lm == s.lm
    ensures r.Ok? ==> r.value.ldel == s.ldel && r.value.free == s.free
    ensures r.Ok? ==> r.value.sdel.Keys == s.sdel.Keys && r.value.pdel.Keys == s.pdel.Keys
    decreases |ps|
  {
    if |ps| == 0 then Ok(s)
    else
      var t :- DeletePair(s, x, ps[0]);
      StripProjects(t, x, ps[1..])
  }

  /** The outer loop of a full lecturer `l` offering `Pk`: each successor
      loses the projects of `Pk` still on its working list (taken in that
      list's order), then leaves the lecturer's working list. */
  function StripAll(s: State, xs: seq<Id>, l: Id, Pk: set<Id>): (r: Result<State>)
    ensures r.Ok? ==> r.value.sm == s.sm && r.value.pm == s.pm && r.value.lm == s.lm && r.value.free == s.free
    ensures r.Ok? ==> r.value.sdel.Keys == s.sdel.Keys && r.value.pdel.Keys == s.pdel.Keys
    ensures r.Ok? ==> r.value.ldel.Keys == s.ldel.Keys
    decreases |xs|
  {
    if |xs| == 0 then Ok(s)
    else
      var x := xs[0];
      if x !in s.sdel then Err(KeyError)
      else
        var t :- StripProjects(s, x, Filter(s.sdel[x], Pk));
        if l !in t.ldel then Err(KeyError)
        else
          var ll :- Remove(t.ldel[l], x);
          StripAll(t.(ldel := t.ldel[l := ll]), xs[1..], l, Pk)
  }

  /** A lecturer exactly full: the successors of their worst are stripped. */
  function LecturerCut(I: Instance, s: State, l: Id): (r: Result<State>)
    ensures r.Ok? ==> r.value.sm == s.sm && r.value.pm == s.pm && r.value.lm == s.lm && r.value.free == s.free
    ensures r.Ok? ==> r.value.sdel.Keys == s.sdel.Keys && r.value.pdel.Keys == s.pdel.Keys
    ensures r.Ok? ==> r.value.ldel.Keys == s.ldel.Keys
  {
    if l !in I.lecturers || l !in s.lm || l !in s.ldel then Err(KeyError)
    else
      var L := I.lecturers[l];
      var succ :- Successors(s.lm[l].worst, L.list, L.rank, s.ldel[l]);
      StripAll(s, succ, l, L.projects)
  }

  /** After the assignment: a project over quota gives up its worst
      student; otherwise a lecturer over quota gives up theirs, from the
      project that student holds. */
  function Evict(I: Instance, s: State, p: Id, l: Id): (r: Result<State>)
    requires p in I.projects && l in I.lecturers && p in s.pm && l in s.lm
    ensures r.Ok? ==> r.value.sdel == s.sdel && r.value.pdel == s.pdel && r.value.ldel == s.ldel
    ensures r.Ok? ==> r.value.sm.Keys == s.sm.Keys && r.value.pm.Keys == s.pm.Keys && r.value.lm.Keys == s.lm.Keys
  {
    if |s.pm[p].members| > I.projects[p].quota then
      if s.pm[p].worst.None? then Err(KeyError)
      else Break(I, s, s.pm[p].worst.value, p, l)
    else if |s.lm[l].members| > I.lecturers[l].quota then
      var w := s.lm[l].worst;
      if w.None? || w.value !in s.sm || s.sm[w.value].None? then Err(KeyError)
      else Break(I, s, w.value, s.sm[w.value].value, l)
    else Ok(s)
  }

  /** The body of the `if` for a student with a non-empty working list. */
  function Propose(I: Instance, s: State, x: Id): (r: Result<State>)
    requires x in s.sdel && |s.sdel[x]| > 0
  {
    var p := s.sdel[x][0];
    if p !in I.projects || I.projects[p].lecturer !in I.lecturers then Err(KeyError)
    else
      var l := I.projects[p].lecturer;
      var s1 :- Assign(I, s, x, p, l);
      var s2 :- Evict(I, s1, p, l);
      var s3 :- if |s2.pm[p].members| == I.projects[p].quota then ProjectCut(I, s2, p) else Ok(s2);
      if |s3.lm[l].members| == I.lecturers[l].quota then LecturerCut(I, s3, l) else Ok(s3)
  }

  /** The condition of the final `if` of an iteration, whose body calls
      `append` on the unassigned set and so raises AttributeError. */
  predicate Stranded(s: State, x: Id) {
    x in s.sm && s.sm[x] == None && x !in s.free && x in s.sdel && |s.sdel[x]| > 0
  }

  /** One iteration of `_while_loop` after `unassigned.pop()` returned `x`. */
  function Step(I: Instance, s: State, x: Id): (r: Result<State>)
    ensures r.Ok? ==> !Stranded(r.value, x)
  {
    var s0 := s.(free := s.free - {x});
    if x !in s0.sdel then Err(KeyError)
    else
      var t :- if |s0.sdel[x]| > 0 then Propose(I, s0, x) else Ok(s0);
      if Stranded(t, x) then Err(AttributeError) else Ok(t)
  }

  /** The loop with at most `fuel` iterations, the popped student chosen by
      `pop`; `None` when the fuel or the choices run out first. */
  function Run(I: Instance, s: State, pop: seq<Id>, fuel: nat): (r: Option<Result<State>>)
    ensures s.free == {} ==> r == Some(Ok(s))
    ensures r.Some? && r.value.Ok? ==> r.value.value.free == {}
    decreases fuel
  {
    if s.free == {} then Some(Ok(s))
    else if fuel == 0 || |pop| == 0 then None
    else
      var x := pop[0];
      if x !in s.free then Some(Err(KeyError))
      else
        var t := Step(I, s, x);
        if t.Err? then Some(t) else Run(I, t.value, pop[1..], fuel - 1)
  }
}
