/** `_check_stability` and `run` of `SPAStudentOptimal`: the three blocking
    conditions read the occupancies and the worst-student pointers of the
    final state, and under the loop's invariant they decide exactly the
    blocking pairs of the matching it holds. */
module SPAStudentCheck {
  import opened Wrappers
  import opened Lists
  import opened SPA
  import opened SPAStudent
  import opened SPAStudentInv
  import opened SPAStable

  // ---------------------------------------------------------------------
  // The three conditions

  /** `_blockingpair_1bi`: project and lecturer are both under-subscribed. */
  function Bi(I: Instance, s: State, p: Id, l: Id): (r: Result<bool>)
    ensures r.Ok? <==> p in I.projects && l in I.lecturers && p in s.pm && l in s.lm
    ensures r.Ok? ==> (r.value <==> |s.pm[p].members| < I.projects[p].quota && |s.lm[l].members| < I.lecturers[l].quota)
  {
    if p !in I.projects || l !in I.lecturers || p !in s.pm || l !in s.lm then Err(KeyError)
    else Ok(|s.pm[p].members| < I.projects[p].quota && |s.lm[l].members| < I.lecturers[l].quota)
  }

  /** `_blockingpair_1bii`: the project is under-subscribed, the lecturer is
      full, and the student is one of the lecturer's or ranked above the
      lecturer's worst student. Looking up a student or a missing pointer in
      the rank table is a KeyError. */
  function Bii(I: Instance, s: State, x: Id, p: Id, l: Id): (r: Result<bool>)
    ensures r.Ok? && r.value ==>
      && p in I.projects && l in I.lecturers && p in s.pm && l in s.lm
      && |s.pm[p].members| < I.projects[p].quota && |s.lm[l].members| == I.lecturers[l].quota
    ensures r.Ok? && r.value && x !in s.lm[l].members ==>
      && s.lm[l].worst.Some? && x in I.lecturers[l].rank && s.lm[l].worst.value in I.lecturers[l].rank
      && I.lecturers[l].rank[x] < I.lecturers[l].rank[s.lm[l].worst.value]
  {
    if p !in I.projects || l !in I.lecturers || p !in s.pm || l !in s.lm then Err(KeyError)
    else if |s.pm[p].members| < I.projects[p].quota && |s.lm[l].members| == I.lecturers[l].quota then
      var rank := I.lecturers[l].rank;
      if x in s.lm[l].members then Ok(true)
      else if x !in rank then Err(KeyError)
      else match s.lm[l].worst
        case None => Err(KeyError)
        case Some(w) => if w !in rank then Err(KeyError) else Ok(rank[x] < rank[w])
    else Ok(false)
  }

  /** `_blockingpair_1biii`: the project is full and ranks the student above
      its worst student. */
  function Biii(I: Instance, s: State, x: Id, p: Id): (r: Result<bool>)
    ensures r.Ok? && r.value ==>
      && p in I.projects && p in s.pm && |s.pm[p].members| == I.projects[p].quota
      && s.pm[p].worst.Some? && x in I.projects[p].rank && s.pm[p].worst.value in I.projects[p].rank
      && I.projects[p].rank[x] < I.projects[p].rank[s.pm[p].worst.value]
  {
    if p !in I.projects || p !in s.pm then Err(KeyError)
    else if |s.pm[p].members| == I.projects[p].quota then
      var rank := I.projects[p].rank;
      if x !in rank then Err(KeyError)
      else match s.pm[p].worst
        case None => Err(KeyError)
        case Some(w) => if w !in rank then Err(KeyError) else Ok(rank[x] < rank[w])
    else Ok(false)
  }

  /** The body of the inner loop: the conditions are tried in order, each
      only while no block has been found. */
  function Conditions(I: Instance, s: State, x: Id, p: Id): (r: Result<bool>)
    ensures r.Ok? && r.value ==>
      p in I.projects && (Bi(I, s, p, I.projects[p].lecturer) == Ok(true) ||
                          Bii(I, s, x, p, I.projects[p].lecturer) == Ok(true) ||
                          Biii(I, s, x, p) == Ok(true))
  {
    if p !in I.projects then Err(KeyError)
    else
      var l := I.projects[p].lecturer;
      var b1 :- Bi(I, s, p, l);
      if b1 then Ok(true)
      else
        var b2 :- Bii(I, s, x, p, l);
        if b2 then Ok(true) else Biii(I, s, x, p)
  }

  /** The projects a student is checked against, from the list and rank
      table as read and its entry of `M`. */
  function StudentCandidates(I: Instance, s: State, x: Id): (r: Result<seq<Id>>)
    ensures r.Ok? ==> x in I.students && x in s.sm && r.value <= I.students[x]
  {
    if x !in I.students || x !in s.sm then Err(KeyError)
    else Candidates(I.students[x], RankTable(I.students[x]), s.sm[x])
  }

  /** `_check_stability` over the students in dictionary order: True when a
      blocking pair was found. */
  function CheckStability(I: Instance, s: State, order: seq<Id>): (r: Result<bool>)
    ensures r == Ok(false) ==> forall i | 0 <= i < |order| :: StudentCandidates(I, s, order[i]).Ok?
  {
    Check(x => StudentCandidates(I, s, x), (x, p) => Conditions(I, s, x, p), order)
  }

  // ---------------------------------------------------------------------
  // The conditions decide the blocking pairs

  /** Under the slot facts the invariant provides, the conditions answer,
      without error, whether the pair blocks. */
  lemma ConditionsDecide(I: Instance, s: State, x: Id, p: Id)
    requires p in I.projects && I.projects[p].lecturer in I.lecturers
    requires p in s.pm && I.projects[p].lecturer in s.lm
    requires I.projects[p].quota >= 1 && I.lecturers[I.projects[p].lecturer].quota >= 1
    requires x in I.projects[p].rank && x in I.lecturers[I.projects[p].lecturer].rank
    requires Tracks(s.pm[p], I.projects[p].rank)
    requires Tracks(s.lm[I.projects[p].lecturer], I.lecturers[I.projects[p].lecturer].rank)
    requires |s.pm[p].members| <= I.projects[p].quota
    requires |s.lm[I.projects[p].lecturer].members| <= I.lecturers[I.projects[p].lecturer].quota
    requires s.pm[p].members == Holders(s.sm, p)
    requires s.lm[I.projects[p].lecturer].members == LecturerHolders(I, s.sm, I.projects[p].lecturer)
    ensures Conditions(I, s, x, p) == Ok(Blocks(I, s.sm, x, p))
  {
    var P := I.projects[p];
    var l := P.lecturer;
    var L := I.lecturers[l];
    var mp, ml := s.pm[p].members, s.lm[l].members;
    if |mp| < P.quota && |ml| == L.quota && x !in ml {
      var w := s.lm[l].worst.value;
      if L.rank[x] < L.rank[w] {
        assert w in ml && w in L.rank;
      }
    }
    if |mp| == P.quota {
      var w := s.pm[p].worst.value;
      if P.rank[x] < P.rank[w] {
        assert w in mp && w in P.rank;
      }
    }
  }

  /** A project's slot holds exactly the students assigned to it. */
  lemma {:induction false} HoldersExact(I: Instance, s: State, p: Id)
    requires ProjectHolds(s.sm, s.pm) && AssignedHeld(s.sm, s.pm, s.sdel) && p in s.pm
    ensures s.pm[p].members == Holders(s.sm, p)
  {
    forall y | y in Holders(s.sm, p) ensures y in s.pm[p].members {
      assert y in s.sm && s.sm[y].Some?;
    }
  }

  /** A lecturer's slot holds exactly the students assigned to one of their
      projects. */
  lemma {:induction false} LecturerHoldersExact(I: Instance, s: State, l: Id)
    requires LecturerHolds(I, s.sm, s.lm) && AssignedHeldByLecturer(I, s.sm, s.lm) && l in s.lm
    ensures s.lm[l].members == LecturerHolders(I, s.sm, l)
  {
    forall y | y in LecturerHolders(I, s.sm, l) ensures y in s.lm[l].members {
      assert y in s.sm && s.sm[y].Some? && s.sm[y].value in I.projects;
    }
  }

  /** In a state of the loop, the conditions on a student and a project on
      its list answer, without error, whether the pair blocks. */
  lemma PairDecided(I: Instance, s: State, x: Id, p: Id)
    requires Inv(I, s) && x in I.students && p in I.students[x]
    ensures Conditions(I, s, x, p) == Ok(Blocks(I, s.sm, x, p))
  {
    StudentFacts(I, x, p);
    WellFormedRanked(I);
    var l := LecturerOf(I, p);
    assert Tracks(s.pm[p], I.projects[p].rank) && Tracks(s.lm[l], I.lecturers[l].rank);
    HoldersExact(I, s, p);
    LecturerHoldersExact(I, s, l);
    ConditionsDecide(I, s, x, p);
  }

  /** In a state of the loop, a student's candidates exist and are the
      projects it prefers to its own. */
  lemma StudentCandidatesPreferred(I: Instance, s: State, x: Id)
    requires Inv(I, s) && x in I.students
    ensures StudentCandidates(I, s, x).Ok?
    ensures forall p :: p in StudentCandidates(I, s, x).value <==> Prefers(I, s.sm, x, p)
  {
    if s.sm[x].Some? {
      assert s.sm[x].value in s.sdel[x];
    }
    CandidatesPreferred(I, s.sm, x);
  }

  /** In a state of the loop, the check answers, without error, whether the
      matching has a blocking pair for one of the students of `order`. */
  lemma {:induction false} CheckStabilityDecides(I: Instance, s: State, order: seq<Id>)
    requires Inv(I, s) && forall i | 0 <= i < |order| :: order[i] in I.students
    ensures CheckStability(I, s, order) == Ok(!Stable(I, s.sm, order))
  {
    var cands := x => StudentCandidates(I, s, x);
    var cond := (x, p) => Conditions(I, s, x, p);
    forall i | 0 <= i < |order|
      ensures && cands(order[i]).Ok?
              && (forall p :: p in cands(order[i]).value <==> Prefers(I, s.sm, order[i], p))
              && (forall p | p in cands(order[i]).value :: cond(order[i], p) == Ok(Blocks(I, s.sm, order[i], p)))
    {
      var x := order[i];
      StudentCandidatesPreferred(I, s, x);
      forall p | p in cands(x).value ensures cond(x, p) == Ok(Blocks(I, s.sm, x, p)) {
        PairDecided(I, s, x, p);
      }
    }
    CheckDecidesStability(I, s.sm, cands, cond, order);
  }

  // ---------------------------------------------------------------------
  // `run`

  /** `run`: the loop, driven by the pop choices with at most `fuel`
      iterations, then the check over the students in `order`, then the
      student view; `None` when the fuel or the choices run out. */
  function RunAll(I: Instance, pop: seq<Id>, fuel: nat, order: seq<Id>): (r: Option<Result<Outcome>>)
    ensures r.Some? && r.value.Ok? ==> Run(I, Init(I), pop, fuel).Some? && Run(I, Init(I), pop, fuel).value.Ok?
  {
    match Run(I, Init(I), pop, fuel)
    case None => None
    case Some(Err(e)) => Some(Err(e))
    case Some(Ok(t)) =>
      Some(
        var found :- CheckStability(I, t, order);
        var m :- Matching(I, t.sm);
        Ok(Outcome(!found, m)))
  }

  /** `run` after a loop ending in `t`. */
  lemma RunAllAfter(I: Instance, pop: seq<Id>, fuel: nat, order: seq<Id>, t: State, found: bool, m: map<Id, Id>)
    requires Run(I, Init(I), pop, fuel) == Some(Ok(t))
    requires CheckStability(I, t, order) == Ok(found) && Matching(I, t.sm) == Ok(m)
    ensures RunAll(I, pop, fuel, order) == Some(Ok(Outcome(!found, m)))
  {
  }

  /** On a well-formed instance, a loop that finishes makes `run` report,
      without error, whether its matching is stable, with every student
      mapped to its project or "". */
  lemma RunReportsStability(I: Instance, pop: seq<Id>, fuel: nat, order: seq<Id>) returns (t: State, o: Outcome)
    requires WellFormed(I) && forall i | 0 <= i < |order| :: order[i] in I.students
    requires Run(I, Init(I), pop, fuel).Some? && Run(I, Init(I), pop, fuel).value.Ok?
    ensures Run(I, Init(I), pop, fuel) == Some(Ok(t)) && RunAll(I, pop, fuel, order) == Some(Ok(o))
    ensures o.stable == Stable(I, t.sm, order)
    ensures o.matching.Keys == I.students.Keys
    ensures forall x | x in I.students :: x in t.sm && (t.sm[x].Some? ==> o.matching[x] == t.sm[x].value)
  {
    InitInv(I);
    RunInv(I, Init(I), pop, fuel);
    t := Run(I, Init(I), pop, fuel).value.value;
    CheckStabilityDecides(I, t, order);
    var m := Matching(I, t.sm).value;
    o := Outcome(Stable(I, t.sm, order), m);
    RunAllAfter(I, pop, fuel, order, t, !Stable(I, t.sm, order), m);
  }
}
