/** The invariant of the corrected lecturer-proposing loop of
    `SPALecturerOptimal` on a well-formed instance, and its preservation by
    an iteration. It says that an unassigned student's list is as read and
    an assigned student's list ends at its project, that the projects'
    lists mirror the students', that `M` records the matching consistently,
    that nobody is over quota, and that every lecturer on the
    under-subscribed list is under-subscribed. No lookup of an iteration
    fails while it holds. */
module SPALecturerInv {
  import opened Wrappers
  import opened Lists
  import opened SPA
  import opened SPALecturer

  // ---------------------------------------------------------------------
  // The invariant

  /** Every entry of the state is keyed by the agents of the instance. */
  ghost predicate Shape(I: Instance, s: State) {
    && s.sm.Keys == I.students.Keys && s.slists.Keys == I.students.Keys
    && s.pm.Keys == I.projects.Keys && s.plists.Keys == I.projects.Keys
    && s.lm.Keys == I.lecturers.Keys
  }

  /** An unassigned student's list is its list as read; an assigned
      student's list is its list as read up to and including its project. */
  ghost predicate ListAsRead(orig: seq<Id>, m: Option<Id>, list: seq<Id>) {
    if m.None? then list == orig
    else m.value in orig && list == orig[..RankTable(orig)[m.value] + 1]
  }

  ghost predicate StudentLists(I: Instance, sm: map<Id, Option<Id>>, slists: map<Id, seq<Id>>) {
    forall x | x in sm && x in slists && x in I.students :: ListAsRead(I.students[x], sm[x], slists[x])
  }

  /** A project's list has no repetitions and holds exactly the students
      whose current list holds the project. */
  ghost predicate ProjectLists(slists: map<Id, seq<Id>>, plists: map<Id, seq<Id>>) {
    forall p | p in plists ::
      && NoDup(plists[p])
      && forall y {:trigger y in plists[p]} :: y in plists[p] <==> y in slists && p in slists[y]
  }

  /** Every student a project holds is assigned to it. */
  ghost predicate ProjectHolds(sm: map<Id, Option<Id>>, pm: map<Id, set<Id>>) {
    forall p, y {:trigger y in pm[p]} | p in pm && y in pm[p] :: y in sm && sm[y] == Some(p)
  }

  /** An assigned student is held by its project. */
  ghost predicate AssignedHeld(I: Instance, sm: map<Id, Option<Id>>, pm: map<Id, set<Id>>) {
    forall y | y in sm && sm[y].Some? :: sm[y].value in I.projects && sm[y].value in pm && y in pm[sm[y].value]
  }

  /** Every student a lecturer holds is assigned to one of their projects. */
  ghost predicate LecturerHolds(I: Instance, sm: map<Id, Option<Id>>, lm: map<Id, set<Id>>) {
    forall l, y {:trigger y in lm[l]} | l in lm && y in lm[l] ::
      y in sm && sm[y].Some? && sm[y].value in I.projects && I.projects[sm[y].value].lecturer == l
  }

  /** An assigned student is held by the lecturer of its project. */
  ghost predicate AssignedHeldByLecturer(I: Instance, sm: map<Id, Option<Id>>, lm: map<Id, set<Id>>) {
    forall y | y in sm && sm[y].Some? && sm[y].value in I.projects ::
      I.projects[sm[y].value].lecturer in lm && y in lm[I.projects[sm[y].value].lecturer]
  }

  ghost predicate Matched(I: Instance, sm: map<Id, Option<Id>>, pm: map<Id, set<Id>>, lm: map<Id, set<Id>>) {
    && ProjectHolds(sm, pm) && AssignedHeld(I, sm, pm)
    && LecturerHolds(I, sm, lm) && AssignedHeldByLecturer(I, sm, lm)
  }

  /** Nobody is over quota. */
  ghost predicate Within(I: Instance, pm: map<Id, set<Id>>, lm: map<Id, set<Id>>) {
    && (forall p | p in pm && p in I.projects :: |pm[p]| <= I.projects[p].quota)
    && (forall l | l in lm && l in I.lecturers :: |lm[l]| <= I.lecturers[l].quota)
  }

  /** Every lecturer on the under-subscribed list is under-subscribed. */
  ghost predicate UnderList(I: Instance, lm: map<Id, set<Id>>, usl: seq<Id>) {
    forall l | l in usl :: l in lm && l in I.lecturers && |lm[l]| < I.lecturers[l].quota
  }

  ghost predicate Inv(I: Instance, s: State) {
    && WellFormed(I) && Shape(I, s)
    && StudentLists(I, s.sm, s.slists) && ProjectLists(s.slists, s.plists)
    && Matched(I, s.sm, s.pm, s.lm) && Within(I, s.pm, s.lm) && UnderList(I, s.lm, s.usl)
  }

  // ---------------------------------------------------------------------
  // The constructor

  lemma {:induction false} InitLists(I: Instance, lorder: seq<Id>)
    requires WellFormed(I)
    ensures ProjectLists(Init(I, lorder).slists, Init(I, lorder).plists)
  {
    var s := Init(I, lorder);
    forall p | p in s.plists
      ensures NoDup(s.plists[p]) && forall y :: y in s.plists[p] <==> y in s.slists && p in s.slists[y]
    {
      ProjectFacts(I, p);
    }
  }

  lemma {:induction false} InitInv(I: Instance, lorder: seq<Id>)
    requires WellFormed(I) && forall l | l in lorder :: l in I.lecturers
    ensures Inv(I, Init(I, lorder))
  {
    InitLists(I, lorder);
  }

  // ---------------------------------------------------------------------
  // Finding a pair never fails

  lemma {:induction false} FirstProjectOk(I: Instance, s: State, x: Id, l: Id, ps: seq<Id>)
    requires x in s.sm && l in I.lecturers
    requires forall j | 0 <= j < |ps| :: ps[j] in I.lecturers[l].projects ==> ps[j] in s.pm && ps[j] in I.projects
    ensures FirstProject(I, s, x, l, ps).Ok?
  {
    if |ps| > 0 {
      FirstProjectOk(I, s, x, l, ps[1..]);
    }
  }

  lemma {:induction false} FirstPairOk(I: Instance, s: State, l: Id, xs: seq<Id>)
    requires Shape(I, s) && Offered(I) && l in I.lecturers
    requires forall i | 0 <= i < |xs| :: xs[i] in I.students
    ensures FirstPair(I, s, l, xs).Ok?
  {
    if |xs| > 0 {
      var x := xs[0];
      FirstProjectOk(I, s, x, l, s.slists[x]);
      FirstPairOk(I, s, l, xs[1..]);
    }
  }

  lemma FindPairOk(I: Instance, s: State, l: Id)
    requires WellFormed(I) && Shape(I, s) && l in I.lecturers
    ensures FindPair(I, s, l).Ok?
  {
    WellFormedRanked(I);
    FirstPairOk(I, s, l, I.lecturers[l].list);
  }

  // ---------------------------------------------------------------------
  // The matching after a reassignment

  /** Breaking an assignment keeps the matching consistent. */
  lemma {:induction false} BreakMatched(I: Instance, sm: map<Id, Option<Id>>, pm: map<Id, set<Id>>, lm: map<Id, set<Id>>,
                                        x: Id, q: Id, k: Id)
    requires Matched(I, sm, pm, lm) && x in sm && sm[x] == Some(q) && q in I.projects && k == I.projects[q].lecturer
    requires q in pm && k in lm
    ensures Matched(I, sm[x := None], pm[q := pm[q] - {x}], lm[k := lm[k] - {x}])
  {
  }

  /** Assigning an unassigned student keeps the matching consistent. */
  lemma {:induction false} AssignMatched(I: Instance, sm: map<Id, Option<Id>>, pm: map<Id, set<Id>>, lm: map<Id, set<Id>>,
                                         x: Id, p: Id, l: Id)
    requires Matched(I, sm, pm, lm) && x in sm && sm[x] == None && p in I.projects && l == I.projects[p].lecturer
    requires p in pm && l in lm
    ensures Matched(I, sm[x := Some(p)], pm[p := pm[p] + {x}], lm[l := lm[l] + {x}])
    ensures x !in pm[p] && x !in lm[l]
  {
  }

  /** Breaking the assignment of student `x`, who is not assigned to `p`,
      keeps the state consistent and frees no room at `p` or `l` it did
      not already have. */
  lemma {:induction false} BreakStep(I: Instance, s: State, x: Id, p: Id, l: Id) returns (s1: State)
    requires Shape(I, s) && Matched(I, s.sm, s.pm, s.lm) && Within(I, s.pm, s.lm)
    requires x in s.sm && s.sm[x].Some? && s.sm[x] != Some(p) && p in s.pm && l in s.lm
    ensures Break(I, s, x, false) == Ok(s1)
    ensures s1.slists == s.slists && s1.plists == s.plists && s1.usl == s.usl
    ensures s1.sm == s.sm[x := None] && s1.pm[p] == s.pm[p] && |s1.lm[l]| <= |s.lm[l]|
    ensures Shape(I, s1) && Matched(I, s1.sm, s1.pm, s1.lm) && Within(I, s1.pm, s1.lm)
  {
    var q := s.sm[x].value;
    var k := I.projects[q].lecturer;
    assert q in s.pm && x in s.pm[q] && k in s.lm && x in s.lm[k];
    s1 := BreakFields(I, s, x, q, k, p, l);
    assert Matched(I, s1.sm, s1.pm, s1.lm) by {
      BreakMatched(I, s.sm, s.pm, s.lm, x, q, k);
    }
    assert Shape(I, s1) by {
      UpdateKeys(s.sm, x, None);
      UpdateKeys(s.pm, q, s.pm[q] - {x});
      UpdateKeys(s.lm, k, s.lm[k] - {x});
    }
    assert Within(I, s1.pm, s1.lm) by {
      ReleaseWithin(I, s.pm, s.lm, x, q, k);
    }
  }

  /** The state a break leaves: x off project q and lecturer k, nobody
      else moved. */
  lemma BreakFields(I: Instance, s: State, x: Id, q: Id, k: Id, p: Id, l: Id) returns (s1: State)
    requires x in s.sm && s.sm[x] == Some(q) && q in I.projects && k == I.projects[q].lecturer
    requires q in s.pm && x in s.pm[q] && k in s.lm && x in s.lm[k] && q != p && p in s.pm && l in s.lm
    ensures s1 == s.(sm := s.sm[x := None], pm := s.pm[q := s.pm[q] - {x}], lm := s.lm[k := s.lm[k] - {x}])
    ensures Break(I, s, x, false) == Ok(s1)
    ensures s1.pm[p] == s.pm[p] && |s1.lm[l]| <= |s.lm[l]|
  {
    s1 := s.(sm := s.sm[x := None], pm := s.pm[q := s.pm[q] - {x}], lm := s.lm[k := s.lm[k] - {x}]);
    assert s1.lm[l] <= s.lm[l];
  }

  /** Releasing one student keeps everybody within quota. */
  lemma ReleaseWithin(I: Instance, pm: map<Id, set<Id>>, lm: map<Id, set<Id>>, x: Id, q: Id, k: Id)
    requires Within(I, pm, lm) && q in pm && x in pm[q] && k in lm && x in lm[k]
    ensures Within(I, pm[q := pm[q] - {x}], lm[k := lm[k] - {x}])
  {
    CardRemove(pm[q], x);
    CardRemove(lm[k], x);
  }

  /** Assigning the unassigned student `x` to `p`, with room at `p` and at
      its lecturer `l`, keeps the state consistent. */
  lemma {:induction false} AssignStep(I: Instance, s: State, x: Id, p: Id, l: Id) returns (s2: State)
    requires Shape(I, s) && Matched(I, s.sm, s.pm, s.lm) && Within(I, s.pm, s.lm)
    requires x in s.sm && s.sm[x].None? && p in I.projects && l == I.projects[p].lecturer && l in I.lecturers
    requires |s.pm[p]| < I.projects[p].quota && |s.lm[l]| < I.lecturers[l].quota
    ensures Assign(s, x, p, l) == Ok(s2)
    ensures s2.slists == s.slists && s2.plists == s.plists && s2.usl == s.usl && s2.sm == s.sm[x := Some(p)]
    ensures Shape(I, s2) && Matched(I, s2.sm, s2.pm, s2.lm) && Within(I, s2.pm, s2.lm)
  {
    s2 := s.(sm := s.sm[x := Some(p)], pm := s.pm[p := s.pm[p] + {x}], lm := s.lm[l := s.lm[l] + {x}]);
    assert Matched(I, s2.sm, s2.pm, s2.lm) && x !in s.pm[p] && x !in s.lm[l] by {
      AssignMatched(I, s.sm, s.pm, s.lm, x, p, l);
    }
    assert Shape(I, s2) by {
      UpdateKeys(s.sm, x, Some(p));
      UpdateKeys(s.pm, p, s.pm[p] + {x});
      UpdateKeys(s.lm, l, s.lm[l] + {x});
    }
    assert Within(I, s2.pm, s2.lm) by {
      AdmitWithin(I, s.pm, s.lm, x, p, l);
    }
  }

  /** Admitting a student where both project and lecturer have room keeps
      everybody within quota. */
  lemma AdmitWithin(I: Instance, pm: map<Id, set<Id>>, lm: map<Id, set<Id>>, x: Id, p: Id, l: Id)
    requires Within(I, pm, lm) && p in pm && p in I.projects && l in lm && l in I.lecturers
    requires x !in pm[p] && x !in lm[l]
    requires |pm[p]| < I.projects[p].quota && |lm[l]| < I.lecturers[l].quota
    ensures Within(I, pm[p := pm[p] + {x}], lm[l := lm[l] + {x}])
  {
    CardAdd(pm[p], x);
    CardAdd(lm[l], x);
  }

  /** The break, if any, and the assignment of an iteration. */
  lemma {:induction false} Reassign(I: Instance, s: State, x: Id, p: Id, l: Id) returns (s2: State)
    requires Shape(I, s) && Matched(I, s.sm, s.pm, s.lm) && Within(I, s.pm, s.lm)
    requires x in s.sm && s.sm[x] != Some(p) && p in I.projects && l == I.projects[p].lecturer && l in I.lecturers
    requires |s.pm[p]| < I.projects[p].quota && |s.lm[l]| < I.lecturers[l].quota
    ensures (if s.sm[x].Some? then Break(I, s, x, false) else Ok(s)).Ok?
    ensures Assign((if s.sm[x].Some? then Break(I, s, x, false) else Ok(s)).value, x, p, l) == Ok(s2)
    ensures s2.slists == s.slists && s2.plists == s.plists && s2.usl == s.usl
    ensures s2.sm == s.sm[x := Some(p)]
    ensures Shape(I, s2) && Matched(I, s2.sm, s2.pm, s2.lm) && Within(I, s2.pm, s2.lm)
  {
    if s.sm[x].Some? {
      var s1 := BreakStep(I, s, x, p, l);
      s2 := AssignStep(I, s1, x, p, l);
      UpdateTwice(s.sm, x, None, Some(p));
    } else {
      s2 := AssignStep(I, s, x, p, l);
    }
  }

  // ---------------------------------------------------------------------
  // The deletions

  /** One deletion from a repetition-free list. */
  lemma DeleteEffect(s: State, x: Id, pre: seq<Id>, q: Id, rest: seq<Id>) returns (s1: State)
    requires x in s.slists && s.slists[x] == pre + [q] + rest && NoDup(pre + [q] + rest)
    requires q in s.plists && x in s.plists[q] && NoDup(s.plists[q])
    ensures Delete(s, x, q) == Ok(s1) && NoDup(pre + rest) && q !in rest
    ensures s1 == s.(slists := s.slists[x := pre + rest], plists := s.plists[q := Without(s.plists[q], x)])
  {
    NoDupMiddle(pre, q, rest);
    RemoveIsWithout(s.plists[q], x);
    s1 := s.(slists := s.slists[x := pre + rest], plists := s.plists[q := Without(s.plists[q], x)]);
  }

  /** Deleting every successor of a student's project: the student's list
      is cut after the project, and the student leaves each successor's
      list. */
  lemma {:induction false} DeleteAllEffect(s: State, x: Id, pre: seq<Id>, ps: seq<Id>) returns (t: State)
    requires x in s.slists && s.slists[x] == pre + ps && NoDup(pre + ps)
    requires forall q | q in ps :: q in s.plists && x in s.plists[q] && NoDup(s.plists[q])
    ensures DeleteAll(s, x, ps) == Ok(t)
    ensures t == s.(slists := s.slists[x := pre], plists := t.plists)
    ensures t.plists.Keys == s.plists.Keys
    ensures forall q | q in s.plists :: t.plists[q] == if q in ps then Without(s.plists[q], x) else s.plists[q]
    decreases |ps|
  {
    if |ps| == 0 {
      assert pre + ps == pre;
      t := s;
    } else {
      var q, rest := ps[0], ps[1..];
      assert ps == [q] + rest;
      assert pre + ps == pre + [q] + rest;
      var s1 := DeleteEffect(s, x, pre, q, rest);
      t := DeleteAllEffect(s1, x, pre, rest);
      UpdateTwice(s.slists, x, pre + rest, pre);
      UpdateKeys(s.plists, q, Without(s.plists[q], x));
      forall q' | q' in s.plists ensures t.plists[q'] == if q' in ps then Without(s.plists[q'], x) else s.plists[q'] {
        if q' == q {
          assert q' !in rest;
        } else {
          assert q' in ps <==> q' in rest;
        }
      }
    }
  }

  /** The project lists still mirror the student lists after the cut. */
  lemma {:induction false} CutMirrored(s: State, t: State, x: Id, pre: seq<Id>, ps: seq<Id>)
    requires ProjectLists(s.slists, s.plists) && x in s.slists && s.slists[x] == pre + ps && NoDup(pre + ps)
    requires t.slists == s.slists[x := pre] && t.plists.Keys == s.plists.Keys
    requires forall q | q in s.plists :: t.plists[q] == if q in ps then Without(s.plists[q], x) else s.plists[q]
    ensures ProjectLists(t.slists, t.plists)
  {
    forall q | q in t.plists
      ensures NoDup(t.plists[q]) && forall y :: y in t.plists[q] <==> y in t.slists && q in t.slists[y]
    {
      if q in ps {
        WithoutKeepsNoDup(s.plists[q], x);
        NoDupSplit(pre, ps, q);
      }
    }
  }

  /** An element of the second half of a repetition-free list is not in
      the first. */
  lemma NoDupSplit(a: seq<Id>, b: seq<Id>, q: Id)
    requires NoDup(a + b) && q in b
    ensures q !in a
  {
    var j :| 0 <= j < |b| && b[j] == q;
    forall i | 0 <= i < |a| ensures a[i] != q {
      assert (a + b)[i] == a[i] && (a + b)[|a| + j] == q;
    }
  }

  /** A student's list is a prefix of its list as read, and its project's
      position there is its rank. */
  lemma {:induction false} CutAtProject(orig: seq<Id>, k: nat, p: Id)
    requires NoDup(orig) && k <= |orig| && p in orig[..k]
    ensures NoDup(orig[..k]) && IndexOf(orig[..k], p) == RankTable(orig)[p]
    ensures orig[..k][..IndexOf(orig[..k], p) + 1] == orig[..RankTable(orig)[p] + 1]
    ensures orig[..k] == orig[..k][..IndexOf(orig[..k], p) + 1] + Drop(orig[..k], IndexOf(orig[..k], p) + 1)
  {
    var L := orig[..k];
    PrefixNoDup(L, orig);
    var j := IndexOf(L, p);
    assert j == RankTable(orig)[p] by { IndexInPrefix(orig, k, p); }
    assert L[..j + 1] == orig[..j + 1];
    assert L == L[..j + 1] + Drop(L, j + 1);
  }

  /** In a prefix of a list without repetitions, an element's position is
      its rank in the whole list. */
  lemma IndexInPrefix(orig: seq<Id>, k: nat, p: Id)
    requires NoDup(orig) && k <= |orig| && p in orig[..k]
    ensures IndexOf(orig[..k], p) == RankTable(orig)[p]
  {
    var j := IndexOf(orig[..k], p);
    assert orig[j] == p;
    RankTableNoDup(orig);
  }

  /** A list as read, cut or not, is a prefix of the list as read. */
  lemma AsReadPrefix(orig: seq<Id>, m: Option<Id>, list: seq<Id>) returns (k: nat)
    requires ListAsRead(orig, m, list)
    ensures k <= |orig| && list == orig[..k]
  {
    if m.None? {
      k := |orig|;
    } else {
      k := RankTable(orig)[m.value] + 1;
    }
  }

  lemma {:induction false} StudentListsAfter(I: Instance, sm: map<Id, Option<Id>>, slists: map<Id, seq<Id>>, x: Id, p: Id)
        returns (pre: seq<Id>)
    requires StudentLists(I, sm, slists) && x in sm && x in slists && x in I.students && NoDup(I.students[x])
    requires p in slists[x] && sm[x] != Some(p)
    ensures NoDup(slists[x]) && pre == slists[x][..IndexOf(slists[x], p) + 1]
    ensures slists[x] == pre + Drop(slists[x], IndexOf(slists[x], p) + 1)
    ensures StudentLists(I, sm[x := Some(p)], slists[x := pre])
  {
    pre := CutAsRead(I.students[x], sm[x], slists[x], p);
    StudentListsUpdate(I, sm, slists, x, Some(p), pre);
  }

  /** Cutting a list as read just after one of its projects gives the list
      as read for a student assigned to that project. */
  lemma CutAsRead(orig: seq<Id>, m: Option<Id>, L: seq<Id>, p: Id) returns (pre: seq<Id>)
    requires ListAsRead(orig, m, L) && NoDup(orig) && p in L
    ensures NoDup(L) && pre == L[..IndexOf(L, p) + 1]
    ensures L == pre + Drop(L, IndexOf(L, p) + 1)
    ensures ListAsRead(orig, Some(p), pre)
  {
    var k := AsReadPrefix(orig, m, L);
    pre := CutPrefix(orig, k, L, p);
  }

  /** The same cut, stated for a prefix of the list as read. */
  lemma CutPrefix(orig: seq<Id>, k: nat, L: seq<Id>, p: Id) returns (pre: seq<Id>)
    requires NoDup(orig) && k <= |orig| && L == orig[..k] && p in L
    ensures NoDup(L) && pre == L[..IndexOf(L, p) + 1]
    ensures L == pre + Drop(L, IndexOf(L, p) + 1)
    ensures ListAsRead(orig, Some(p), pre)
  {
    CutAtProject(orig, k, p);
    var j := IndexOf(L, p);
    pre := L[..j + 1];
    assert p in orig by { assert orig[j] == p; }
  }

  /** Giving one student a project and a list that agree keeps every list
      as read. */
  lemma StudentListsUpdate(I: Instance, sm: map<Id, Option<Id>>, slists: map<Id, seq<Id>>, x: Id, m: Option<Id>, l: seq<Id>)
    requires StudentLists(I, sm, slists) && x in I.students && ListAsRead(I.students[x], m, l)
    ensures StudentLists(I, sm[x := m], slists[x := l])
  {
    forall y | y in sm[x := m] && y in slists[x := l] && y in I.students
      ensures ListAsRead(I.students[y], sm[x := m][y], slists[x := l][y])
    {
      if y != x {
        assert ListAsRead(I.students[y], sm[y], slists[y]);
      }
    }
  }

  // ---------------------------------------------------------------------
  // One iteration

  /** An iteration whose lecturer finds no pair drops the lecturer. */
  lemma NoPairStep(I: Instance, s: State, lorder: seq<Id>)
    requires |s.usl| > 0 && FindPair(I, s, s.usl[0]) == Ok(None)
    ensures Step(I, s, lorder, false) == Ok(s.(usl := s.usl[1..]))
  {
    assert Remove(s.usl, s.usl[0]) == Ok(s.usl[1..]);
  }

  lemma NoPairInv(I: Instance, s: State)
    requires Inv(I, s) && |s.usl| > 0
    ensures Inv(I, s.(usl := s.usl[1..]))
  {
  }

  /** The tail of an iteration that found the pair (x, p): the cut, and the
      rebuilt list. */
  lemma {:induction false} SettleChain(I: Instance, s2: State, x: Id, p: Id, l: Id, lorder: seq<Id>, s3: State)
        returns (t: State)
    requires x in s2.slists && p in s2.slists[x]
    requires DeleteAll(s2, x, Drop(s2.slists[x], IndexOf(s2.slists[x], p) + 1)) == Ok(s3)
    requires l in s3.lm && l in I.lecturers && l in s3.usl
    requires forall l' | l' in lorder :: l' in s3.lm && l' in I.lecturers
    ensures Rebuild(I, s3.lm, lorder).Ok?
    ensures t == s3.(usl := Rebuild(I, s3.lm, lorder).value)
    ensures Settle(I, s2, x, p, l, lorder) == Ok(t)
  {
    t := s3.(usl := Rebuild(I, s3.lm, lorder).value);
  }

  /** The successors of a student's project on its current list are
      projects whose lists hold the student. */
  lemma SuccessorsListed(I: Instance, sm: map<Id, Option<Id>>, s: State, x: Id, ps: seq<Id>)
    requires WellFormed(I) && s.plists.Keys == I.projects.Keys
    requires StudentLists(I, sm, s.slists) && ProjectLists(s.slists, s.plists)
    requires x in I.students && x in sm && x in s.slists && forall q | q in ps :: q in s.slists[x]
    ensures forall q | q in ps :: q in s.plists && x in s.plists[q] && NoDup(s.plists[q])
  {
    var k := AsReadPrefix(I.students[x], sm[x], s.slists[x]);
    forall q | q in ps ensures q in s.plists && x in s.plists[q] && NoDup(s.plists[q]) {
      assert q in I.students[x];
      StudentFacts(I, x, q);
    }
  }

  /** The iteration as a chain of the steps above. */
  lemma {:induction false} ProposeChain(I: Instance, s: State, x: Id, p: Id, l: Id, lorder: seq<Id>, s2: State, t: State)
    requires x in s.sm
    requires (if s.sm[x].Some? then Break(I, s, x, false) else Ok(s)).Ok?
    requires Assign((if s.sm[x].Some? then Break(I, s, x, false) else Ok(s)).value, x, p, l) == Ok(s2)
    requires Settle(I, s2, x, p, l, lorder) == Ok(t)
    ensures Propose(I, s, x, p, l, lorder, false) == Ok(t)
  {
  }

  /** The deletions of an iteration that assigned `x` to `p` (its
      assignment before being `sm[x]`): the lists are cut, and they stay as
      read and mirrored. */
  lemma {:induction false} CutEffect(I: Instance, sm: map<Id, Option<Id>>, s2: State, x: Id, p: Id) returns (s3: State)
    requires WellFormed(I) && s2.plists.Keys == I.projects.Keys
    requires StudentLists(I, sm, s2.slists) && ProjectLists(s2.slists, s2.plists)
    requires x in I.students && x in sm && x in s2.slists && p in s2.slists[x] && sm[x] != Some(p)
    ensures DeleteAll(s2, x, Drop(s2.slists[x], IndexOf(s2.slists[x], p) + 1)) == Ok(s3)
    ensures s3.sm == s2.sm && s3.pm == s2.pm && s3.lm == s2.lm && s3.usl == s2.usl
    ensures s3.slists.Keys == s2.slists.Keys && s3.plists.Keys == s2.plists.Keys
    ensures StudentLists(I, sm[x := Some(p)], s3.slists) && ProjectLists(s3.slists, s3.plists)
  {
    assert NoDup(I.students[x]);
    var pre := StudentListsAfter(I, sm, s2.slists, x, p);
    var ps := Drop(s2.slists[x], IndexOf(s2.slists[x], p) + 1);
    SuccessorsListed(I, sm, s2, x, ps);
    s3 := DeleteAllEffect(s2, x, pre, ps);
    CutMirrored(s2, s3, x, pre, ps);
    UpdateKeys(s2.slists, x, pre);
  }

  /** What the invariant and a found pair give. */
  lemma PairFacts(I: Instance, s: State, x: Id, p: Id)
    requires Inv(I, s) && |s.usl| > 0 && FindPair(I, s, s.usl[0]) == Ok(Some((x, p)))
    ensures x in I.students && x in s.sm && x in s.slists && p in s.slists[x] && NoDup(I.students[x])
    ensures p in I.projects && I.projects[p].lecturer == s.usl[0] && s.usl[0] in I.lecturers
    ensures s.sm[x] != Some(p) && |s.pm[p]| < I.projects[p].quota && |s.lm[s.usl[0]]| < I.lecturers[s.usl[0]].quota
  {
    var l := s.usl[0];
    FoundValid(I, s, l, x, p);
    assert l in s.usl;
  }

  /** An iteration whose lecturer finds a pair keeps the invariant. */
  lemma {:induction false} PairInv(I: Instance, s: State, lorder: seq<Id>, x: Id, p: Id) returns (t: State)
    requires Inv(I, s) && |s.usl| > 0 && FindPair(I, s, s.usl[0]) == Ok(Some((x, p)))
    requires forall l | l in lorder :: l in I.lecturers
    ensures Propose(I, s, x, p, s.usl[0], lorder, false) == Ok(t) && Inv(I, t)
  {
    var l := s.usl[0];
    PairFacts(I, s, x, p);
    var s2 := Reassign(I, s, x, p, l);
    var s3 := CutEffect(I, s.sm, s2, x, p);
    t := SettleChain(I, s2, x, p, l, lorder, s3);
    ProposeChain(I, s, x, p, l, lorder, s2, t);
  }

  /** Every iteration of the corrected loop succeeds and keeps the
      invariant. */
  lemma StepInv(I: Instance, s: State, lorder: seq<Id>) returns (t: State)
    requires Inv(I, s) && |s.usl| > 0 && forall l | l in lorder :: l in I.lecturers
    ensures Step(I, s, lorder, false) == Ok(t) && Inv(I, t)
  {
    FindPairOk(I, s, s.usl[0]);
    match FindPair(I, s, s.usl[0]).value
    case None =>
      NoPairStep(I, s, lorder);
      NoPairInv(I, s);
      t := s.(usl := s.usl[1..]);
    case Some((x, p)) => t := PairInv(I, s, lorder, x, p);
  }

  lemma {:induction false} RunChain(I: Instance, s: State, lorder: seq<Id>, fuel: nat, t: State)
    requires |s.usl| > 0 && fuel > 0 && Step(I, s, lorder, false) == Ok(t)
    ensures Run(I, s, lorder, fuel, false) == Run(I, t, lorder, fuel - 1, false)
  {
  }

  /** Any property of states under which an iteration succeeds and which
      it keeps holds where the corrected loop ends. */
  lemma {:induction false} RunPreserves(I: Instance, s: State, lorder: seq<Id>, fuel: nat, P: State -> bool)
    requires P(s)
    requires forall u: State {:trigger Step(I, u, lorder, false)} ::
      P(u) && |u.usl| > 0 ==> Step(I, u, lorder, false).Ok? && P(Step(I, u, lorder, false).value)
    ensures var r := Run(I, s, lorder, fuel, false);
      r.Some? ==> r.value.Ok? && P(r.value.value) && r.value.value.usl == []
    decreases fuel
  {
    if |s.usl| > 0 && fuel > 0 {
      var t := Step(I, s, lorder, false).value;
      RunChain(I, s, lorder, fuel, t);
      RunPreserves(I, t, lorder, fuel - 1, P);
    }
  }

  /** The corrected loop never fails: if the fuel suffices it ends in a
      state of the invariant with no lecturer left on the under-subscribed
      list. */
  lemma {:induction false} RunInv(I: Instance, s: State, lorder: seq<Id>, fuel: nat)
    requires Inv(I, s) && forall l | l in lorder :: l in I.lecturers
    ensures var r := Run(I, s, lorder, fuel, false);
      r.Some? ==> r.value.Ok? && Inv(I, r.value.value) && r.value.value.usl == []
  {
    forall u: State | Inv(I, u) && |u.usl| > 0
      ensures Step(I, u, lorder, false).Ok? && Inv(I, Step(I, u, lorder, false).value)
    {
      var t := StepInv(I, u, lorder);
    }
    RunPreserves(I, s, lorder, fuel, u => Inv(I, u));
  }
}
