/** The invariant of the student-proposing loop of `SPAStudentOptimal` on
    a well-formed instance, and its preservation by every part of an
    iteration. It says that the working lists only shrink and stay
    symmetric, that the provisional matching is recorded consistently in
    the student, project and lecturer entries of `M`, that no project or
    lecturer is over quota between iterations, that both worst-student
    pointers are right, and that an unassigned student with a non-empty
    working list is queued. The last part makes the final `append` branch
    of an iteration unreachable.

    Each part is stated on the fields it reads, so that a step which leaves
    a field alone keeps the parts about it without further argument. */
module SPAStudentInv {
  import opened Wrappers
  import opened Lists
  import opened SPA
  import opened SPAStudent

  // ---------------------------------------------------------------------
  // The invariant

  /** Every entry of the state is keyed by the agents of the instance. */
  ghost predicate Shape(I: Instance, s: State) {
    && s.sdel.Keys == I.students.Keys && s.sm.Keys == I.students.Keys
    && s.pdel.Keys == I.projects.Keys && s.pm.Keys == I.projects.Keys
    && s.ldel.Keys == I.lecturers.Keys && s.lm.Keys == I.lecturers.Keys
    && s.free <= I.students.Keys
  }

  /** A student's working list has no repetitions and only projects of the
      list as read. */
  ghost predicate StudentsShrunk(I: Instance, sdel: map<Id, seq<Id>>) {
    forall x | x in sdel && x in I.students ::
      NoDup(sdel[x]) && forall q {:trigger q in sdel[x]} | q in sdel[x] :: q in I.students[x]
  }

  /** A project's or lecturer's working list has no repetitions, and only
      students of its list as read. */
  ghost predicate ProjectsShrunk(I: Instance, pdel: map<Id, seq<Id>>) {
    forall p | p in pdel && p in I.projects ::
      NoDup(pdel[p]) && forall y {:trigger y in pdel[p]} | y in pdel[p] :: y in I.projects[p].list && y in I.students
  }

  ghost predicate LecturersShrunk(I: Instance, ldel: map<Id, seq<Id>>) {
    forall l | l in ldel && l in I.lecturers ::
      NoDup(ldel[l]) && forall y {:trigger y in ldel[l]} | y in ldel[l] :: y in I.lecturers[l].list && y in I.students
  }

  /** A pair is on the student's working list iff it is on the project's. */
  ghost predicate Symmetric(sdel: map<Id, seq<Id>>, pdel: map<Id, seq<Id>>) {
    forall x, p {:trigger p in sdel[x]} {:trigger x in pdel[p]} | x in sdel && p in pdel ::
      p in sdel[x] <==> x in pdel[p]
  }

  /** Every student a project holds is assigned to it. */
  ghost predicate ProjectHolds(sm: map<Id, Option<Id>>, pm: map<Id, Slot>) {
    forall p, y {:trigger y in pm[p].members} | p in pm && y in pm[p].members :: y in sm && sm[y] == Some(p)
  }

  /** An assigned student is held by its project, which is still on the
      student's working list. */
  ghost predicate AssignedHeld(sm: map<Id, Option<Id>>, pm: map<Id, Slot>, sdel: map<Id, seq<Id>>) {
    forall y | y in sm && sm[y].Some? ::
      sm[y].value in pm && y in pm[sm[y].value].members && y in sdel && sm[y].value in sdel[y]
  }

  /** Every student a lecturer holds is assigned to one of their projects. */
  ghost predicate LecturerHolds(I: Instance, sm: map<Id, Option<Id>>, lm: map<Id, Slot>) {
    forall l, y {:trigger y in lm[l].members} | l in lm && y in lm[l].members ::
      y in sm && sm[y].Some? && sm[y].value in I.projects && I.projects[sm[y].value].lecturer == l
  }

  /** An assigned student is held by the lecturer of its project. */
  ghost predicate AssignedHeldByLecturer(I: Instance, sm: map<Id, Option<Id>>, lm: map<Id, Slot>) {
    forall y | y in sm && sm[y].Some? && sm[y].value in I.projects ::
      I.projects[sm[y].value].lecturer in lm && y in lm[I.projects[sm[y].value].lecturer].members
  }

  /** A queued student is unassigned. */
  ghost predicate FreeUnassigned(sm: map<Id, Option<Id>>, free: set<Id>) {
    forall y | y in free :: y in sm && sm[y] == None
  }

  /** Every unassigned student other than `x` with a non-empty working list
      is queued. */
  ghost predicate QueuedBut(sm: map<Id, Option<Id>>, sdel: map<Id, seq<Id>>, free: set<Id>, x: Option<Id>) {
    forall y | y in sm && sm[y] == None && y in sdel && |sdel[y]| > 0 && Some(y) != x :: y in free
  }

  /** Every project's pointer designates a member of greatest rank. */
  ghost predicate ProjectPointers(I: Instance, pm: map<Id, Slot>) {
    forall p | p in pm && p in I.projects :: Tracks(pm[p], I.projects[p].rank)
  }

  ghost predicate LecturerPointers(I: Instance, lm: map<Id, Slot>) {
    forall l | l in lm && l in I.lecturers :: Tracks(lm[l], I.lecturers[l].rank)
  }

  /** No project holds more students than its quota. */
  ghost predicate ProjectsWithin(I: Instance, pm: map<Id, Slot>) {
    forall p | p in pm && p in I.projects :: |pm[p].members| <= I.projects[p].quota
  }

  ghost predicate LecturersWithin(I: Instance, lm: map<Id, Slot>) {
    forall l | l in lm && l in I.lecturers :: |lm[l].members| <= I.lecturers[l].quota
  }

  ghost predicate Matched(I: Instance, s: State) {
    && ProjectHolds(s.sm, s.pm) && AssignedHeld(s.sm, s.pm, s.sdel)
    && LecturerHolds(I, s.sm, s.lm) && AssignedHeldByLecturer(I, s.sm, s.lm)
    && FreeUnassigned(s.sm, s.free)
  }

  ghost predicate Core(I: Instance, s: State) {
    && Shape(I, s) && StudentsShrunk(I, s.sdel) && ProjectsShrunk(I, s.pdel) && LecturersShrunk(I, s.ldel)
    && Symmetric(s.sdel, s.pdel) && Matched(I, s)
    && ProjectPointers(I, s.pm) && LecturerPointers(I, s.lm)
  }

  ghost predicate Within(I: Instance, s: State) {
    ProjectsWithin(I, s.pm) && LecturersWithin(I, s.lm)
  }

  ghost predicate Queued(s: State) {
    QueuedBut(s.sm, s.sdel, s.free, None)
  }

  ghost predicate Inv(I: Instance, s: State) {
    WellFormed(I) && Core(I, s) && Within(I, s) && Queued(s)
  }

  // ---------------------------------------------------------------------
  // Facts read off the invariant

  /** The students of a project are students of its lecturer. */
  lemma {:induction false} ProjectInLecturer(I: Instance, s: State, p: Id, y: Id)
    requires Core(I, s) && p in I.projects && y in s.pm[p].members
    ensures LecturerOf(I, p) in s.lm && y in s.lm[LecturerOf(I, p)].members
  {
    assert s.sm[y] == Some(p);
  }

  /** The head of a student's working list is a project whose lecturer is
      known, and both rank the student. */
  ghost predicate HeadKnown(I: Instance, s: State, x: Id)
    requires x in s.sdel && |s.sdel[x]| > 0
  {
    var p := s.sdel[x][0];
    && p in I.projects && p in s.pm && p in s.pdel && x in s.pdel[p]
    && LecturerOf(I, p) in I.lecturers && LecturerOf(I, p) in s.lm
    && x in I.projects[p].rank && x in I.lecturers[LecturerOf(I, p)].rank
  }

  lemma {:induction false} HeadFacts(I: Instance, s: State, x: Id)
    requires WellFormed(I) && Shape(I, s) && StudentsShrunk(I, s.sdel) && Symmetric(s.sdel, s.pdel)
    requires x in s.sdel && |s.sdel[x]| > 0
    ensures HeadKnown(I, s, x)
  {
    var p := s.sdel[x][0];
    assert p in s.sdel[x];
    assert p in I.students[x];
    StudentFacts(I, x, p);
  }

  /** A position after `k` in a list without repetitions is ranked after
      `k`. */
  lemma {:induction false} DropRank(list: seq<Id>, k: nat, y: Id)
    requires NoDup(list) && y in Drop(list, k)
    ensures y in RankTable(list) && RankTable(list)[y] >= k
  {
    var d := Drop(list, k);
    var i :| 0 <= i < |d| && d[i] == y;
    assert list[k + i] == y;
    RankTableNoDup(list);
  }

  // ---------------------------------------------------------------------
  // The constructor

  lemma {:induction false} InitShrunk(I: Instance)
    requires WellFormed(I)
    ensures var s := Init(I);
      StudentsShrunk(I, s.sdel) && ProjectsShrunk(I, s.pdel) && LecturersShrunk(I, s.ldel) && Symmetric(s.sdel, s.pdel)
  {
    var s := Init(I);
    forall p | p in s.pdel && p in I.projects
      ensures NoDup(s.pdel[p]) && forall y | y in s.pdel[p] :: y in I.projects[p].list && y in I.students
    {
      ProjectFacts(I, p);
    }
    forall x, p | x in s.sdel && p in s.pdel ensures p in s.sdel[x] <==> x in s.pdel[p] {
      ProjectFacts(I, p);
    }
  }

  lemma {:induction false} InitSlots(I: Instance)
    requires WellFormed(I)
    ensures var s := Init(I);
      && ProjectPointers(I, s.pm) && LecturerPointers(I, s.lm) && ProjectsWithin(I, s.pm) && LecturersWithin(I, s.lm)
      && ProjectHolds(s.sm, s.pm) && LecturerHolds(I, s.sm, s.lm)
  {
    var s := Init(I);
    forall p | p in s.pm ensures s.pm[p].members == {} && Tracks(s.pm[p], I.projects[p].rank) {
      assert s.pm[p] == Slot({}, None);
    }
    forall l | l in s.lm ensures s.lm[l].members == {} && Tracks(s.lm[l], I.lecturers[l].rank) {
      assert s.lm[l] == Slot({}, None);
    }
  }

  /** The constructor's state satisfies the invariant. */
  lemma {:induction false} InitInv(I: Instance)
    requires WellFormed(I)
    ensures Inv(I, Init(I))
  {
    InitShrunk(I);
    InitSlots(I);
  }

  // ---------------------------------------------------------------------
  // Popping the queue

  lemma {:induction false} PopInv(I: Instance, s: State, x: Id)
    requires Inv(I, s) && x in s.free
    ensures var s0 := s.(free := s.free - {x});
      && Core(I, s0) && Within(I, s0) && QueuedBut(s0.sm, s0.sdel, s0.free, Some(x))
      && x in s0.sm && s0.sm[x] == None && x in s0.sdel && x !in s0.free
  {
  }

  // ---------------------------------------------------------------------
  // The provisional assignment

  lemma {:induction false} AssignHolds(I: Instance, sm: map<Id, Option<Id>>, pm: map<Id, Slot>, lm: map<Id, Slot>,
                                       x: Id, p: Id, l: Id, ps: Slot, ls: Slot)
    requires ProjectHolds(sm, pm) && LecturerHolds(I, sm, lm) && x in sm && sm[x] == None
    requires p in I.projects && LecturerOf(I, p) == l
    requires p in pm && ps.members == pm[p].members + {x} && l in lm && ls.members == lm[l].members + {x}
    ensures ProjectHolds(sm[x := Some(p)], pm[p := ps]) && LecturerHolds(I, sm[x := Some(p)], lm[l := ls])
  {
    var sm', pm', lm' := sm[x := Some(p)], pm[p := ps], lm[l := ls];
    forall q, y | q in pm' && y in pm'[q].members ensures y in sm' && sm'[y] == Some(q) {
      if y != x {
        assert y in pm[q].members;
      }
    }
    forall k, y | k in lm' && y in lm'[k].members
      ensures y in sm' && sm'[y].Some? && sm'[y].value in I.projects && I.projects[sm'[y].value].lecturer == k
    {
      if y != x {
        assert y in lm[k].members;
      }
    }
  }

  lemma {:induction false} AssignHeld(I: Instance, sm: map<Id, Option<Id>>, pm: map<Id, Slot>, lm: map<Id, Slot>,
                                      sdel: map<Id, seq<Id>>, x: Id, p: Id, l: Id, ps: Slot, ls: Slot)
    requires AssignedHeld(sm, pm, sdel) && AssignedHeldByLecturer(I, sm, lm)
    requires p in I.projects && LecturerOf(I, p) == l && x in sdel && p in sdel[x]
    requires p in pm && ps.members == pm[p].members + {x} && l in lm && ls.members == lm[l].members + {x}
    ensures AssignedHeld(sm[x := Some(p)], pm[p := ps], sdel)
    ensures AssignedHeldByLecturer(I, sm[x := Some(p)], lm[l := ls])
  {
  }

  lemma {:induction false} AssignQueued(sm: map<Id, Option<Id>>, sdel: map<Id, seq<Id>>, free: set<Id>, x: Id, p: Id)
    requires QueuedBut(sm, sdel, free, Some(x)) && FreeUnassigned(sm, free) && x !in free
    ensures QueuedBut(sm[x := Some(p)], sdel, free, None) && FreeUnassigned(sm[x := Some(p)], free)
  {
  }

  lemma {:induction false} AssignPointers(I: Instance, pm: map<Id, Slot>, lm: map<Id, Slot>, x: Id, p: Id, l: Id)
    requires ProjectPointers(I, pm) && LecturerPointers(I, lm)
    requires p in pm && l in lm && p in I.projects && l in I.lecturers
    requires x in I.projects[p].rank && x in I.lecturers[l].rank
    ensures Admit(pm[p], x, I.projects[p].rank).Ok? && Admit(lm[l], x, I.lecturers[l].rank).Ok?
    ensures ProjectPointers(I, pm[p := Admit(pm[p], x, I.projects[p].rank).value])
    ensures LecturerPointers(I, lm[l := Admit(lm[l], x, I.lecturers[l].rank).value])
  {
    assert Tracks(pm[p], I.projects[p].rank) && Tracks(lm[l], I.lecturers[l].rank);
  }

  /** Only the given project and lecturer may exceed their quota, by one. */
  ghost predicate OverByOne(I: Instance, s: State, p: Id, l: Id)
    requires p in s.pm && p in I.projects && l in s.lm && l in I.lecturers
  {
    && (forall q | q in s.pm && q in I.projects && q != p :: |s.pm[q].members| <= I.projects[q].quota)
    && (forall k | k in s.lm && k in I.lecturers && k != l :: |s.lm[k].members| <= I.lecturers[k].quota)
    && |s.pm[p].members| <= I.projects[p].quota + 1
    && |s.lm[l].members| <= I.lecturers[l].quota + 1
  }

  lemma {:induction false} AssignOver(I: Instance, s: State, t: State, x: Id, p: Id, l: Id)
    requires Within(I, s) && p in s.pm && p in I.projects && l in s.lm && l in I.lecturers
    requires x !in s.pm[p].members && x !in s.lm[l].members
    requires p in t.pm && l in t.lm && t.pm == s.pm[p := t.pm[p]] && t.lm == s.lm[l := t.lm[l]]
    requires t.pm[p].members == s.pm[p].members + {x} && t.lm[l].members == s.lm[l].members + {x}
    ensures OverByOne(I, t, p, l)
  {
    CardAdd(s.pm[p].members, x);
    CardAdd(s.lm[l].members, x);
  }

  /** The assignment succeeds on the head of the working list, and moves
      both pointers correctly. */
  lemma {:induction false} AssignStep(I: Instance, s: State, x: Id) returns (p: Id, l: Id, s1: State)
    requires Shape(I, s) && ProjectPointers(I, s.pm) && LecturerPointers(I, s.lm)
    requires x in s.sdel && x in s.sm && |s.sdel[x]| > 0 && HeadKnown(I, s, x)
    ensures p == s.sdel[x][0] && p in I.projects && l == LecturerOf(I, p) && l in I.lecturers
    ensures p in s.pm && l in s.lm
    ensures Assign(I, s, x, p, l) == Ok(s1) && p in s1.pm && l in s1.lm
    ensures s1 == s.(sm := s.sm[x := Some(p)], pm := s.pm[p := s1.pm[p]], lm := s.lm[l := s1.lm[l]])
    ensures s1.pm[p].members == s.pm[p].members + {x} && s1.lm[l].members == s.lm[l].members + {x}
    ensures Shape(I, s1) && ProjectPointers(I, s1.pm) && LecturerPointers(I, s1.lm)
  {
    p := s.sdel[x][0];
    l := LecturerOf(I, p);
    AssignPointers(I, s.pm, s.lm, x, p, l);
    s1 := Assign(I, s, x, p, l).value;
    UpdateKeys(s.sm, x, Some(p));
    UpdateKeys(s.pm, p, s1.pm[p]);
    UpdateKeys(s.lm, l, s1.lm[l]);
  }

  /** Assigning a popped, unassigned student to the head of its working
      list keeps the invariant but the quotas of that project and its
      lecturer, which it may exceed by one. */
  lemma {:induction false} AssignInv(I: Instance, s: State, x: Id) returns (p: Id, l: Id, s1: State)
    requires Core(I, s) && Within(I, s) && QueuedBut(s.sm, s.sdel, s.free, Some(x))
    requires x in s.sdel && |s.sdel[x]| > 0 && x in s.sm && s.sm[x] == None && x !in s.free && HeadKnown(I, s, x)
    ensures p == s.sdel[x][0] && p in I.projects && l == LecturerOf(I, p) && l in I.lecturers
    ensures Assign(I, s, x, p, l) == Ok(s1)
    ensures Core(I, s1) && Queued(s1) && p in s1.pm && l in s1.lm && OverByOne(I, s1, p, l)
    ensures s1.sdel == s.sdel && s1.pdel == s.pdel && s1.ldel == s.ldel && s1.free == s.free
  {
    p, l, s1 := AssignStep(I, s, x);
    assert p in s.sdel[x];
    assert x !in s.pm[p].members;
    assert x !in s.lm[l].members;
    AssignHolds(I, s.sm, s.pm, s.lm, x, p, l, s1.pm[p], s1.lm[l]);
    AssignHeld(I, s.sm, s.pm, s.lm, s.sdel, x, p, l, s1.pm[p], s1.lm[l]);
    AssignQueued(s.sm, s.sdel, s.free, x, p);
    AssignOver(I, s, s1, x, p, l);
  }

  // ---------------------------------------------------------------------
  // Breaking an assignment

  lemma {:induction false} BreakHolds(I: Instance, sm: map<Id, Option<Id>>, pm: map<Id, Slot>, lm: map<Id, Slot>,
                                      w: Id, q: Id, l: Id, ps: Slot, ls: Slot)
    requires ProjectHolds(sm, pm) && LecturerHolds(I, sm, lm)
    requires q in pm && w in pm[q].members && ps.members == pm[q].members - {w}
    requires q in I.projects && LecturerOf(I, q) == l && l in lm && ls.members == lm[l].members - {w}
    ensures ProjectHolds(sm[w := None], pm[q := ps]) && LecturerHolds(I, sm[w := None], lm[l := ls])
  {
    assert sm[w] == Some(q);
    var sm', pm', lm' := sm[w := None], pm[q := ps], lm[l := ls];
    forall p, y | p in pm' && y in pm'[p].members ensures y in sm' && sm'[y] == Some(p) {
      assert y in pm[p].members;
    }
    forall k, y | k in lm' && y in lm'[k].members
      ensures y in sm' && sm'[y].Some? && sm'[y].value in I.projects && I.projects[sm'[y].value].lecturer == k
    {
      assert y in lm[k].members;
    }
  }

  lemma {:induction false} BreakHeld(I: Instance, sm: map<Id, Option<Id>>, pm: map<Id, Slot>, lm: map<Id, Slot>,
                                     sdel: map<Id, seq<Id>>, w: Id, q: Id, l: Id, ps: Slot, ls: Slot)
    requires AssignedHeld(sm, pm, sdel) && AssignedHeldByLecturer(I, sm, lm)
    requires q in pm && ps.members == pm[q].members - {w}
    requires q in I.projects && LecturerOf(I, q) == l && l in lm && ls.members == lm[l].members - {w}
    ensures AssignedHeld(sm[w := None], pm[q := ps], sdel)
    ensures AssignedHeldByLecturer(I, sm[w := None], lm[l := ls])
  {
  }

  lemma {:induction false} BreakQueued(sm: map<Id, Option<Id>>, sdel: map<Id, seq<Id>>, free: set<Id>, w: Id)
    requires QueuedBut(sm, sdel, free, None) && FreeUnassigned(sm, free) && w in sm && w in sdel
    ensures var free' := if |sdel[w]| > 0 then free + {w} else free;
      QueuedBut(sm[w := None], sdel, free', None) && FreeUnassigned(sm[w := None], free')
  {
  }

  /** The refresh of a slot that `w` leaves. */
  lemma {:induction false} LeaveTracks(sl: Slot, w: Id, list: seq<Id>, rank: map<Id, nat>, resetEmpty: bool)
    requires Tracks(sl, rank) && w in sl.members && NoDup(list) && rank == RankTable(list)
    requires resetEmpty || sl.members - {w} != {}
    ensures Refresh(sl.(members := sl.members - {w}), w, list, rank, resetEmpty).Ok?
    ensures Tracks(Refresh(sl.(members := sl.members - {w}), w, list, rank, resetEmpty).value, rank)
  {
    var left := sl.(members := sl.members - {w});
    assert left.members + {w} == sl.members;
    assert Slot(left.members + {w}, left.worst) == sl;
    RefreshTracks(left, w, list, rank, resetEmpty);
  }

  /** Breaking a pair whose two refreshes succeed yields the state with
      both slots replaced. */
  lemma BreakResult(I: Instance, s: State, w: Id, q: Id, l: Id, ps: Slot, ls: Slot)
    requires w in s.sm && q in s.pm && w in s.pm[q].members && l in s.lm && w in s.lm[l].members
    requires w in s.sdel && q in I.projects && l in I.lecturers
    requires Refresh(s.pm[q].(members := s.pm[q].members - {w}), w, I.projects[q].list, I.projects[q].rank, true) == Ok(ps)
    requires Refresh(s.lm[l].(members := s.lm[l].members - {w}), w, I.lecturers[l].list, I.lecturers[l].rank, false) == Ok(ls)
    ensures Break(I, s, w, q, l) == Ok(s.(sm := s.sm[w := None], pm := s.pm[q := ps], lm := s.lm[l := ls],
                                          free := if |s.sdel[w]| > 0 then s.free + {w} else s.free))
  {
  }

  /** Replacing one project's slot by a tracking one keeps every pointer. */
  lemma {:induction false} ProjectPointersUpdate(I: Instance, pm: map<Id, Slot>, q: Id, sl: Slot)
    requires ProjectPointers(I, pm) && q in I.projects && Tracks(sl, I.projects[q].rank)
    ensures ProjectPointers(I, pm[q := sl])
  {
    forall p | p in pm[q := sl] && p in I.projects
      ensures Tracks(pm[q := sl][p], I.projects[p].rank)
    {
      if p != q {
        assert pm[q := sl][p] == pm[p];
      }
    }
  }

  /** Replacing one lecturer's slot by a tracking one keeps every pointer. */
  lemma {:induction false} LecturerPointersUpdate(I: Instance, lm: map<Id, Slot>, l: Id, sl: Slot)
    requires LecturerPointers(I, lm) && l in I.lecturers && Tracks(sl, I.lecturers[l].rank)
    ensures LecturerPointers(I, lm[l := sl])
  {
    forall k | k in lm[l := sl] && k in I.lecturers
      ensures Tracks(lm[l := sl][k], I.lecturers[k].rank)
    {
      if k != l {
        assert lm[l := sl][k] == lm[k];
      }
    }
  }

  lemma {:induction false} BreakPointers(I: Instance, s: State, w: Id, q: Id, l: Id) returns (t: State)
    requires ProjectPointers(I, s.pm) && LecturerPointers(I, s.lm)
    requires q in s.pm && l in s.lm && q in I.projects && l in I.lecturers
    requires NoDup(I.projects[q].list) && I.projects[q].rank == RankTable(I.projects[q].list)
    requires NoDup(I.lecturers[l].list) && I.lecturers[l].rank == RankTable(I.lecturers[l].list)
    requires w in s.pm[q].members && w in s.lm[l].members && s.lm[l].members - {w} != {}
    requires w in s.sm && w in s.sdel
    ensures Break(I, s, w, q, l) == Ok(t)
    ensures ProjectPointers(I, t.pm) && LecturerPointers(I, t.lm)
  {
    var P, L := I.projects[q], I.lecturers[l];
    assert Tracks(s.pm[q], P.rank) && Tracks(s.lm[l], L.rank);
    LeaveTracks(s.pm[q], w, P.list, P.rank, true);
    LeaveTracks(s.lm[l], w, L.list, L.rank, false);
    var ps := Refresh(s.pm[q].(members := s.pm[q].members - {w}), w, P.list, P.rank, true).value;
    var ls := Refresh(s.lm[l].(members := s.lm[l].members - {w}), w, L.list, L.rank, false).value;
    BreakResult(I, s, w, q, l, ps, ls);
    ProjectPointersUpdate(I, s.pm, q, ps);
    LecturerPointersUpdate(I, s.lm, l, ls);
    t := s.(sm := s.sm[w := None], pm := s.pm[q := ps], lm := s.lm[l := ls],
            free := if |s.sdel[w]| > 0 then s.free + {w} else s.free);
  }

  lemma {:induction false} BreakInv(I: Instance, s: State, w: Id, q: Id, l: Id) returns (t: State)
    requires Ranked(I) && Core(I, s) && Queued(s)
    requires q in I.projects && l == LecturerOf(I, q) && w in s.pm[q].members
    requires s.lm[l].members - {w} != {}
    ensures Break(I, s, w, q, l) == Ok(t) && Core(I, t) && Queued(t)
    ensures t.pm == s.pm[q := t.pm[q]] && t.lm == s.lm[l := t.lm[l]]
    ensures |t.pm[q].members| == |s.pm[q].members| - 1 && |t.lm[l].members| == |s.lm[l].members| - 1
    ensures t.sdel == s.sdel && t.pdel == s.pdel && t.ldel == s.ldel
  {
    ProjectInLecturer(I, s, q, w);
    assert w in s.sm;
    assert l in s.lm;
    t := BreakPointers(I, s, w, q, l);
    UpdateKeys(s.sm, w, None);
    UpdateKeys(s.pm, q, t.pm[q]);
    UpdateKeys(s.lm, l, t.lm[l]);
    BreakHolds(I, s.sm, s.pm, s.lm, w, q, l, t.pm[q], t.lm[l]);
    BreakHeld(I, s.sm, s.pm, s.lm, s.sdel, w, q, l, t.pm[q], t.lm[l]);
    BreakQueued(s.sm, s.sdel, s.free, w);
    CardRemove(s.pm[q].members, w);
    CardRemove(s.lm[l].members, w);
  }

  // ---------------------------------------------------------------------
  // The eviction after an assignment

  /** A set with at least two elements keeps one after losing any. */
  lemma {:induction false} TwoLeaveOne(a: set<Id>, w: Id)
    requires |a| >= 2
    ensures a - {w} != {}
  {
    if w in a {
      CardRemove(a, w);
    } else {
      assert a - {w} == a;
    }
  }

  /** Quotas after an eviction from `q` and `l`. */
  lemma {:induction false} WithinAfter(I: Instance, s: State, t: State, q: Id, l: Id)
    requires q in s.pm && q in I.projects && l in s.lm && l in I.lecturers && q in t.pm && l in t.lm
    requires t.pm == s.pm[q := t.pm[q]] && t.lm == s.lm[l := t.lm[l]]
    requires |t.pm[q].members| <= I.projects[q].quota && |t.lm[l].members| <= I.lecturers[l].quota
    requires forall p | p in s.pm && p in I.projects && p != q :: |s.pm[p].members| <= I.projects[p].quota
    requires forall k | k in s.lm && k in I.lecturers && k != l :: |s.lm[k].members| <= I.lecturers[k].quota
    ensures Within(I, t)
  {
  }

  /** Which branch of the eviction is taken. */
  lemma {:induction false} EvictBranches(I: Instance, s: State, p: Id, l: Id)
    requires p in I.projects && l in I.lecturers && p in s.pm && l in s.lm
    ensures |s.pm[p].members| > I.projects[p].quota && s.pm[p].worst.Some? ==>
      Evict(I, s, p, l) == Break(I, s, s.pm[p].worst.value, p, l)
    ensures && |s.pm[p].members| <= I.projects[p].quota && |s.lm[l].members| > I.lecturers[l].quota
            && s.lm[l].worst.Some? && s.lm[l].worst.value in s.sm && s.sm[s.lm[l].worst.value].Some? ==>
      Evict(I, s, p, l) == Break(I, s, s.lm[l].worst.value, s.sm[s.lm[l].worst.value].value, l)
    ensures |s.pm[p].members| <= I.projects[p].quota && |s.lm[l].members| <= I.lecturers[l].quota ==>
      Evict(I, s, p, l) == Ok(s)
  {
  }

  /** An over-full project gives up its worst student. */
  lemma {:induction false} EvictProjectInv(I: Instance, s: State, p: Id, l: Id) returns (t: State)
    requires Ranked(I) && Core(I, s) && Queued(s)
    requires p in I.projects && l == LecturerOf(I, p) && l in I.lecturers && p in s.pm && l in s.lm
    requires OverByOne(I, s, p, l) && |s.pm[p].members| > I.projects[p].quota
    ensures s.pm[p].worst.Some? && Break(I, s, s.pm[p].worst.value, p, l) == Ok(t)
    ensures Core(I, t) && Within(I, t) && Queued(t)
    ensures t.sdel == s.sdel && t.pdel == s.pdel && t.ldel == s.ldel
  {
    assert Tracks(s.pm[p], I.projects[p].rank);
    var w := s.pm[p].worst.value;
    TwoLeaveOne(s.pm[p].members, w);
    var y :| y in s.pm[p].members - {w};
    ProjectInLecturer(I, s, p, y);
    assert y in s.lm[l].members - {w};
    t := BreakInv(I, s, w, p, l);
    WithinAfter(I, s, t, p, l);
  }

  /** An over-full lecturer gives up their worst student, from whichever
      project holds them. */
  lemma {:induction false} EvictLecturerInv(I: Instance, s: State, p: Id, l: Id) returns (t: State)
    requires Ranked(I) && Core(I, s) && Queued(s)
    requires p in I.projects && l in I.lecturers && p in s.pm && l in s.lm
    requires OverByOne(I, s, p, l) && |s.pm[p].members| <= I.projects[p].quota
    requires |s.lm[l].members| > I.lecturers[l].quota
    ensures s.lm[l].worst.Some? && s.lm[l].worst.value in s.sm && s.sm[s.lm[l].worst.value].Some?
    ensures Break(I, s, s.lm[l].worst.value, s.sm[s.lm[l].worst.value].value, l) == Ok(t)
    ensures Core(I, t) && Within(I, t) && Queued(t)
    ensures t.sdel == s.sdel && t.pdel == s.pdel && t.ldel == s.ldel
  {
    assert Tracks(s.lm[l], I.lecturers[l].rank);
    var w := s.lm[l].worst.value;
    assert w in s.sm && s.sm[w].Some?;
    var q := s.sm[w].value;
    TwoLeaveOne(s.lm[l].members, w);
    t := BreakInv(I, s, w, q, l);
    WithinAfter(I, s, t, q, l);
  }

  /** The eviction brings every quota back within bounds. */
  lemma {:induction false} EvictInv(I: Instance, s: State, p: Id, l: Id) returns (t: State)
    requires Ranked(I) && Core(I, s) && Queued(s)
    requires p in I.projects && l == LecturerOf(I, p) && l in I.lecturers && p in s.pm && l in s.lm
    requires OverByOne(I, s, p, l)
    ensures Evict(I, s, p, l) == Ok(t) && Core(I, t) && Within(I, t) && Queued(t)
    ensures t.sdel == s.sdel && t.pdel == s.pdel && t.ldel == s.ldel
  {
    EvictBranches(I, s, p, l);
    if |s.pm[p].members| > I.projects[p].quota {
      t := EvictProjectInv(I, s, p, l);
    } else if |s.lm[l].members| > I.lecturers[l].quota {
      t := EvictLecturerInv(I, s, p, l);
    } else {
      t := s;
    }
  }

  // ---------------------------------------------------------------------
  // Deleting pairs

  /** Deleting `(y, q)` from both working lists keeps them shrunk and
      symmetric. */
  lemma {:induction false} DeleteShrunk(I: Instance, sdel: map<Id, seq<Id>>, pdel: map<Id, seq<Id>>, y: Id, q: Id)
    requires StudentsShrunk(I, sdel) && ProjectsShrunk(I, pdel) && Symmetric(sdel, pdel)
    requires y in sdel && q in pdel
    ensures var sdel', pdel' := sdel[y := Without(sdel[y], q)], pdel[q := Without(pdel[q], y)];
      StudentsShrunk(I, sdel') && ProjectsShrunk(I, pdel') && Symmetric(sdel', pdel')
  {
    var sdel', pdel' := sdel[y := Without(sdel[y], q)], pdel[q := Without(pdel[q], y)];
    if y in I.students {
      WithoutKeepsNoDup(sdel[y], q);
    }
    if q in I.projects {
      WithoutKeepsNoDup(pdel[q], y);
    }
    forall x, p | x in sdel' && p in pdel' ensures p in sdel'[x] <==> x in pdel'[p] {
      assert p in sdel[x] <==> x in pdel[p];
    }
  }

  /** An assigned student keeps its project on its working list when the
      deleted pair is not its assignment. */
  lemma {:induction false} DeleteHeld(sm: map<Id, Option<Id>>, pm: map<Id, Slot>, sdel: map<Id, seq<Id>>, y: Id, q: Id)
    requires AssignedHeld(sm, pm, sdel) && y in sdel && (y in sm ==> sm[y] != Some(q))
    ensures AssignedHeld(sm, pm, sdel[y := Without(sdel[y], q)])
  {
  }

  lemma {:induction false} DeleteQueued(sm: map<Id, Option<Id>>, sdel: map<Id, seq<Id>>, free: set<Id>, y: Id, q: Id)
    requires QueuedBut(sm, sdel, free, None) && y in sdel
    ensures QueuedBut(sm, sdel[y := Without(sdel[y], q)], free, None)
  {
  }

  /** `_delete_pair` on a pair of the working lists that is not an
      assignment keeps the invariant, and filters the pair out of both
      lists. */
  lemma {:induction false} DeletePairInv(I: Instance, s: State, y: Id, q: Id) returns (t: State)
    requires Core(I, s) && Queued(s)
    requires y in s.sdel && q in s.pdel && q in s.sdel[y] && s.sm[y] != Some(q)
    ensures DeletePair(s, y, q) == Ok(t) && Core(I, t) && Queued(t)
    ensures t == s.(sdel := s.sdel[y := Without(s.sdel[y], q)], pdel := s.pdel[q := Without(s.pdel[q], y)])
  {
    assert y in s.pdel[q];
    assert NoDup(s.sdel[y]) && NoDup(s.pdel[q]);
    RemoveIsWithout(s.sdel[y], q);
    RemoveIsWithout(s.pdel[q], y);
    t := DeletePair(s, y, q).value;
    UpdateKeys(s.sdel, y, t.sdel[y]);
    UpdateKeys(s.pdel, q, t.pdel[q]);
    DeleteShrunk(I, s.sdel, s.pdel, y, q);
    DeleteHeld(s.sm, s.pm, s.sdel, y, q);
    DeleteQueued(s.sm, s.sdel, s.free, y, q);
  }

  /** The deletion loop of a full project over students of its working
      list, none assigned to it, keeps the invariant. */
  lemma {:induction false} DeleteAllInv(I: Instance, s: State, xs: seq<Id>, p: Id) returns (t: State)
    requires Core(I, s) && Queued(s) && p in s.pdel && NoDup(xs)
    requires forall y | y in xs :: y in s.sdel && y in s.pdel[p] && s.sm[y] != Some(p)
    ensures DeleteAll(s, xs, p) == Ok(t) && Core(I, t) && Queued(t)
    ensures t.sm == s.sm && t.pm == s.pm && t.lm == s.lm && t.ldel == s.ldel && t.free == s.free
    decreases |xs|
  {
    if |xs| == 0 {
      t := s;
    } else {
      var y := xs[0];
      assert p in s.sdel[y];
      var u := DeletePairInv(I, s, y, p);
      NoDupStep(xs);
      forall z | z in xs[1..] ensures z in u.sdel && z in u.pdel[p] && u.sm[z] != Some(p) {
        assert z in xs && z != y;
      }
      t := DeleteAllInv(I, u, xs[1..], p);
    }
  }

  /** The successors of the worst member of a full slot, among the students
      still on a working list: found, without repetitions, on the working
      list and outside the slot. */
  lemma {:induction false} CutCandidates(list: seq<Id>, rank: map<Id, nat>, sl: Slot, working: seq<Id>)
    requires NoDup(list) && rank == RankTable(list) && Tracks(sl, rank) && sl.members != {}
    ensures Successors(sl.worst, list, rank, working).Ok?
    ensures var succ := Successors(sl.worst, list, rank, working).value;
      NoDup(succ) && forall y | y in succ :: y in working && y !in sl.members
  {
    var w := sl.worst.value;
    var d := Drop(list, rank[w] + 1);
    var succ := Filter(d, Elems(working));
    DropNoDup(list, rank[w] + 1);
    FilterNoDup(d, Elems(working));
    forall y | y in succ ensures y in working && y !in sl.members {
      DropRank(list, rank[w] + 1, y);
    }
  }

  /** The successors a full project cuts are students of its working list
      that it does not hold. */
  lemma {:induction false} ProjectTargets(I: Instance, s: State, p: Id) returns (succ: seq<Id>)
    requires Ranked(I) && Shape(I, s) && ProjectsShrunk(I, s.pdel) && ProjectPointers(I, s.pm)
    requires AssignedHeld(s.sm, s.pm, s.sdel)
    requires p in I.projects && |s.pm[p].members| == I.projects[p].quota
    ensures Successors(s.pm[p].worst, I.projects[p].list, I.projects[p].rank, s.pdel[p]) == Ok(succ)
    ensures NoDup(succ) && forall y | y in succ :: y in s.sdel && y in s.pdel[p] && s.sm[y] != Some(p)
  {
    var P := I.projects[p];
    assert Tracks(s.pm[p], P.rank);
    CutCandidates(P.list, P.rank, s.pm[p], s.pdel[p]);
    succ := Successors(s.pm[p].worst, P.list, P.rank, s.pdel[p]).value;
    forall y | y in succ ensures y in s.sdel && y in s.pdel[p] && s.sm[y] != Some(p) {
      assert y in s.pdel[p];
    }
  }

  lemma {:induction false} ProjectCutChain(I: Instance, s: State, p: Id, succ: seq<Id>, t: State)
    requires p in I.projects && p in s.pm && p in s.pdel
    requires Successors(s.pm[p].worst, I.projects[p].list, I.projects[p].rank, s.pdel[p]) == Ok(succ)
    requires DeleteAll(s, succ, p) == Ok(t)
    ensures ProjectCut(I, s, p) == Ok(t)
  {
  }

  /** A full project cuts its successors of the worst, keeping the
      invariant. */
  lemma {:induction false} ProjectCutInv(I: Instance, s: State, p: Id) returns (t: State)
    requires Ranked(I) && Core(I, s) && Queued(s)
    requires p in I.projects && |s.pm[p].members| == I.projects[p].quota
    ensures ProjectCut(I, s, p) == Ok(t) && Core(I, t) && Queued(t)
    ensures t.sm == s.sm && t.pm == s.pm && t.lm == s.lm && t.ldel == s.ldel && t.free == s.free
  {
    var succ := ProjectTargets(I, s, p);
    t := DeleteAllInv(I, s, succ, p);
    ProjectCutChain(I, s, p, succ, t);
  }

  /** The inner loop of a full lecturer: a student loses projects of its
      working list, none its assignment, keeping the invariant. */
  lemma {:induction false} StripProjectsInv(I: Instance, s: State, x: Id, ps: seq<Id>) returns (t: State)
    requires Core(I, s) && Queued(s) && x in s.sdel && NoDup(ps)
    requires forall q | q in ps :: q in s.pdel && q in s.sdel[x] && s.sm[x] != Some(q)
    ensures StripProjects(s, x, ps) == Ok(t) && Core(I, t) && Queued(t)
    ensures t.sm == s.sm && t.pm == s.pm && t.lm == s.lm && t.ldel == s.ldel && t.free == s.free
    decreases |ps|
  {
    if |ps| == 0 {
      t := s;
    } else {
      var q := ps[0];
      var u := DeletePairInv(I, s, x, q);
      NoDupStep(ps);
      forall r | r in ps[1..] ensures r in u.pdel && r in u.sdel[x] && u.sm[x] != Some(r) {
        assert r in ps && r != q;
      }
      t := StripProjectsInv(I, u, x, ps[1..]);
    }
  }

  /** A student leaving a lecturer's working list keeps it shrunk. */
  lemma {:induction false} LeaveLecturerShrunk(I: Instance, ldel: map<Id, seq<Id>>, l: Id, x: Id)
    requires LecturersShrunk(I, ldel) && l in ldel
    ensures LecturersShrunk(I, ldel[l := Without(ldel[l], x)])
  {
    if l in I.lecturers {
      WithoutKeepsNoDup(ldel[l], x);
    }
  }

  /** The projects a student loses to a full lecturer who does not hold
      them are on its working list and none is its assignment. */
  lemma {:induction false} StripTargets(I: Instance, s: State, x: Id, l: Id) returns (ps: seq<Id>)
    requires Offered(I) && Shape(I, s) && StudentsShrunk(I, s.sdel) && AssignedHeldByLecturer(I, s.sm, s.lm)
    requires l in I.lecturers && x in s.sdel && x !in s.lm[l].members
    ensures ps == Filter(s.sdel[x], I.lecturers[l].projects)
    ensures NoDup(ps) && forall q | q in ps :: q in s.pdel && q in s.sdel[x] && s.sm[x] != Some(q)
  {
    var Pk := I.lecturers[l].projects;
    ps := Filter(s.sdel[x], Pk);
    FilterNoDup(s.sdel[x], Pk);
    forall q | q in ps ensures q in s.pdel && q in s.sdel[x] && s.sm[x] != Some(q) {
      assert q in Pk;
      assert s.sm[x] == Some(q) ==> x in s.lm[l].members;
    }
  }

  /** A student leaving a lecturer's working list keeps the invariant. */
  lemma {:induction false} LeaveInv(I: Instance, s: State, l: Id, x: Id) returns (t: State)
    requires Core(I, s) && Queued(s) && l in I.lecturers && x in s.ldel[l]
    ensures l in t.ldel && Remove(s.ldel[l], x) == Ok(t.ldel[l])
    ensures t == s.(ldel := s.ldel[l := Without(s.ldel[l], x)])
    ensures Core(I, t) && Queued(t)
  {
    assert NoDup(s.ldel[l]);
    RemoveIsWithout(s.ldel[l], x);
    t := s.(ldel := s.ldel[l := Without(s.ldel[l], x)]);
    UpdateKeys(s.ldel, l, t.ldel[l]);
    LeaveLecturerShrunk(I, s.ldel, l, x);
  }

  lemma {:induction false} StripAllChain(s: State, xs: seq<Id>, l: Id, Pk: set<Id>, u: State, v: State, t: State)
    requires |xs| > 0 && xs[0] in s.sdel && StripProjects(s, xs[0], Filter(s.sdel[xs[0]], Pk)) == Ok(u)
    requires l in u.ldel && l in v.ldel && Remove(u.ldel[l], xs[0]) == Ok(v.ldel[l]) && v == u.(ldel := u.ldel[l := v.ldel[l]])
    requires StripAll(v, xs[1..], l, Pk) == Ok(t)
    ensures StripAll(s, xs, l, Pk) == Ok(t)
  {
  }

  /** The outer loop of a full lecturer `l` over students of their working
      list that they do not hold keeps the invariant. */
  lemma {:induction false} StripAllInv(I: Instance, s: State, xs: seq<Id>, l: Id) returns (t: State)
    requires Offered(I) && Core(I, s) && Queued(s) && l in I.lecturers && NoDup(xs)
    requires forall x | x in xs :: x in s.ldel[l] && x !in s.lm[l].members
    ensures StripAll(s, xs, l, I.lecturers[l].projects) == Ok(t) && Core(I, t) && Queued(t)
    ensures t.sm == s.sm && t.pm == s.pm && t.lm == s.lm && t.free == s.free
    decreases |xs|
  {
    if |xs| == 0 {
      t := s;
    } else {
      var x := xs[0];
      assert x in s.ldel[l];
      assert x in s.sdel;
      var ps := StripTargets(I, s, x, l);
      var u := StripProjectsInv(I, s, x, ps);
      var v := LeaveInv(I, u, l, x);
      NoDupStep(xs);
      forall z | z in xs[1..] ensures z in v.ldel[l] && z !in v.lm[l].members {
        assert z in xs && z != x;
      }
      t := StripAllInv(I, v, xs[1..], l);
      StripAllChain(s, xs, l, I.lecturers[l].projects, u, v, t);
    }
  }

  /** The successors a full lecturer strips are students of their working
      list whom they do not hold. */
  lemma {:induction false} LecturerTargets(I: Instance, s: State, l: Id) returns (succ: seq<Id>)
    requires Ranked(I) && Shape(I, s) && LecturerPointers(I, s.lm)
    requires l in I.lecturers && |s.lm[l].members| == I.lecturers[l].quota
    ensures Successors(s.lm[l].worst, I.lecturers[l].list, I.lecturers[l].rank, s.ldel[l]) == Ok(succ)
    ensures NoDup(succ) && forall x | x in succ :: x in s.ldel[l] && x !in s.lm[l].members
  {
    var L := I.lecturers[l];
    assert Tracks(s.lm[l], L.rank);
    CutCandidates(L.list, L.rank, s.lm[l], s.ldel[l]);
    succ := Successors(s.lm[l].worst, L.list, L.rank, s.ldel[l]).value;
  }

  lemma {:induction false} LecturerCutChain(I: Instance, s: State, l: Id, succ: seq<Id>, t: State)
    requires l in I.lecturers && l in s.lm && l in s.ldel
    requires Successors(s.lm[l].worst, I.lecturers[l].list, I.lecturers[l].rank, s.ldel[l]) == Ok(succ)
    requires StripAll(s, succ, l, I.lecturers[l].projects) == Ok(t)
    ensures LecturerCut(I, s, l) == Ok(t)
  {
  }

  /** A full lecturer strips the successors of their worst, keeping the
      invariant. */
  lemma {:induction false} LecturerCutInv(I: Instance, s: State, l: Id) returns (t: State)
    requires Ranked(I) && Offered(I) && Core(I, s) && Queued(s)
    requires l in I.lecturers && |s.lm[l].members| == I.lecturers[l].quota
    ensures LecturerCut(I, s, l) == Ok(t) && Core(I, t) && Queued(t)
    ensures t.sm == s.sm && t.pm == s.pm && t.lm == s.lm && t.free == s.free
  {
    var succ := LecturerTargets(I, s, l);
    t := StripAllInv(I, s, succ, l);
    LecturerCutChain(I, s, l, succ, t);
  }

  // ---------------------------------------------------------------------
  // One iteration and the loop

  /** How the body of an iteration chains its parts. */
  lemma {:induction false} ProposeChain(I: Instance, s: State, x: Id, p: Id, l: Id, s1: State, s2: State, s3: State, t: State)
    requires x in s.sdel && |s.sdel[x]| > 0 && p == s.sdel[x][0] && p in I.projects && l == LecturerOf(I, p) && l in I.lecturers
    requires Assign(I, s, x, p, l) == Ok(s1) && p in s1.pm && l in s1.lm && Evict(I, s1, p, l) == Ok(s2)
    requires p in s2.pm && l in s2.lm
    requires if |s2.pm[p].members| == I.projects[p].quota then ProjectCut(I, s2, p) == Ok(s3) else s3 == s2
    requires l in s3.lm
    requires if |s3.lm[l].members| == I.lecturers[l].quota then LecturerCut(I, s3, l) == Ok(t) else t == s3
    ensures Propose(I, s, x) == Ok(t)
  {
  }

  /** The body of an iteration for a popped student with a non-empty
      working list keeps the invariant. */
  lemma {:induction false} ProposeInv(I: Instance, s: State, x: Id) returns (t: State)
    requires Ranked(I) && Offered(I) && Core(I, s) && Within(I, s) && QueuedBut(s.sm, s.sdel, s.free, Some(x))
    requires x in s.sdel && |s.sdel[x]| > 0 && x in s.sm && s.sm[x] == None && x !in s.free && HeadKnown(I, s, x)
    ensures Propose(I, s, x) == Ok(t) && Core(I, t) && Within(I, t) && Queued(t)
  {
    var p, l, s1 := AssignInv(I, s, x);
    var s2 := EvictInv(I, s1, p, l);
    var s3 := s2;
    if |s2.pm[p].members| == I.projects[p].quota {
      s3 := ProjectCutInv(I, s2, p);
    }
    t := s3;
    if |s3.lm[l].members| == I.lecturers[l].quota {
      t := LecturerCutInv(I, s3, l);
    }
    ProposeChain(I, s, x, p, l, s1, s2, s3, t);
  }

  lemma {:induction false} StepChain(I: Instance, s: State, x: Id, t: State)
    requires x in s.sdel && !Stranded(t, x)
    requires if |s.sdel[x]| > 0 then Propose(I, s.(free := s.free - {x}), x) == Ok(t) else t == s.(free := s.free - {x})
    ensures Step(I, s, x) == Ok(t)
  {
  }

  /** An iteration from a state satisfying the invariant succeeds, never
      reaches the `append` branch, and keeps the invariant. */
  lemma {:induction false} StepInv(I: Instance, s: State, x: Id) returns (t: State)
    requires Inv(I, s) && x in s.free
    ensures Step(I, s, x) == Ok(t) && Inv(I, t)
  {
    PopInv(I, s, x);
    var s0 := s.(free := s.free - {x});
    t := s0;
    if |s0.sdel[x]| > 0 {
      HeadFacts(I, s0, x);
      WellFormedRanked(I);
      t := ProposeInv(I, s0, x);
    }
    StepChain(I, s, x, t);
  }

  lemma {:induction false} RunChain(I: Instance, s: State, pop: seq<Id>, fuel: nat, t: State)
    requires s.free != {} && fuel > 0 && |pop| > 0 && pop[0] in s.free && Step(I, s, pop[0]) == Ok(t)
    ensures Run(I, s, pop, fuel) == Run(I, t, pop[1..], fuel - 1)
  {
  }

  lemma {:induction false} RunStops(I: Instance, s: State, pop: seq<Id>, fuel: nat)
    requires !(s.free != {} && fuel > 0 && |pop| > 0 && pop[0] in s.free)
    ensures Run(I, s, pop, fuel) == if s.free == {} then Some(Ok(s)) else if fuel == 0 || |pop| == 0 then None else Some(Err(KeyError))
  {
  }

  /** Any property of states under which an iteration from a queued
      student succeeds and which it keeps holds where the loop ends, with
      every student dequeued; and the loop's only error is then the KeyError
      of popping a student who is not queued. */
  lemma {:induction false} RunPreserves(I: Instance, s: State, pop: seq<Id>, fuel: nat, P: State -> bool)
    requires P(s)
    requires forall u: State, x: Id {:trigger Step(I, u, x)} ::
      P(u) && x in u.free ==> Step(I, u, x).Ok? && P(Step(I, u, x).value)
    ensures var r := Run(I, s, pop, fuel);
      r.Some? ==> (r.value.Ok? && P(r.value.value) && r.value.value.free == {}) || r.value == Err(KeyError)
    decreases fuel
  {
    if s.free != {} && fuel > 0 && |pop| > 0 && pop[0] in s.free {
      var t := Step(I, s, pop[0]).value;
      RunChain(I, s, pop, fuel, t);
      RunPreserves(I, t, pop[1..], fuel - 1, P);
    } else {
      RunStops(I, s, pop, fuel);
    }
  }

  /** From a state satisfying the invariant the loop raises no error but
      the KeyError of popping a student who is not queued (in particular
      never the AttributeError of the `append` branch), and a loop that ends
      ends in a state satisfying the invariant with every student dequeued. */
  lemma {:induction false} RunInv(I: Instance, s: State, pop: seq<Id>, fuel: nat)
    requires Inv(I, s)
    ensures var r := Run(I, s, pop, fuel);
      r.Some? ==> (r.value.Ok? && Inv(I, r.value.value) && r.value.value.free == {}) || r.value == Err(KeyError)
  {
    forall u: State, x: Id | Inv(I, u) && x in u.free
      ensures Step(I, u, x).Ok? && Inv(I, Step(I, u, x).value)
    {
      var t := StepInv(I, u, x);
    }
    RunPreserves(I, s, pop, fuel, u => Inv(I, u));
  }
}
