/** `_check_stability` and `run` of `SPALecturerOptimal`: the three blocking
    conditions read the occupancies and the assigned sets of the final
    state, the candidates come from the students' lists as the loop left
    them, and under the loop's invariant the check decides exactly the
    blocking pairs of the matching it holds. */
module SPALecturerCheck {
  import opened Wrappers
  import opened Lists
  import opened SPA
  import opened SPALecturer
  import opened SPALecturerInv
  import opened SPAStable

  // ---------------------------------------------------------------------
  // The three conditions

  /** Some member of `ms` is ranked below a student of rank `rx`; an
      unranked member is a KeyError. Python iterates the set in an order of
      its own, so a KeyError is reported whenever any member is unranked. */
  function RanksAbove(rank: map<Id, nat>, rx: nat, ms: set<Id>): (r: Result<bool>)
    ensures r.Ok? <==> ms <= rank.Keys
    ensures r.Ok? ==> (r.value <==> exists y | y in ms && y in rank :: rx < rank[y])
  {
    if !(ms <= rank.Keys) then Err(KeyError)
    else Ok(exists y | y in ms && y in rank :: rx < rank[y])
  }

  /** `_blockingpair_1bi`: project and lecturer are both under-subscribed. */
  function Bi(I: Instance, s: State, p: Id, l: Id): (r: Result<bool>)
    ensures r.Ok? <==> p in I.projects && l in I.lecturers && p in s.pm && l in s.lm
    ensures r.Ok? ==> (r.value <==> |s.pm[p]| < I.projects[p].quota && |s.lm[l]| < I.lecturers[l].quota)
  {
    if p !in I.projects || l !in I.lecturers || p !in s.pm || l !in s.lm then Err(KeyError)
    else Ok(|s.pm[p]| < I.projects[p].quota && |s.lm[l]| < I.lecturers[l].quota)
  }

  /** `_blockingpair_1bii`: the project is under-subscribed, the lecturer is
      full, and the student is one of the lecturer's or ranked above one of
      them. */
  function Bii(I: Instance, s: State, x: Id, p: Id, l: Id): (r: Result<bool>)
    ensures r.Ok? && r.value ==>
      && p in I.projects && l in I.lecturers && p in s.pm && l in s.lm
      && |s.pm[p]| < I.projects[p].quota && |s.lm[l]| == I.lecturers[l].quota
      && (x in s.lm[l] || (x in I.lecturers[l].rank &&
            exists y | y in s.lm[l] && y in I.lecturers[l].rank :: I.lecturers[l].rank[x] < I.lecturers[l].rank[y]))
  {
    if p !in I.projects || l !in I.lecturers || p !in s.pm || l !in s.lm then Err(KeyError)
    else if |s.pm[p]| < I.projects[p].quota && |s.lm[l]| == I.lecturers[l].quota then
      var rank := I.lecturers[l].rank;
      if x in s.lm[l] then Ok(true)
      else if x !in rank then Err(KeyError)
      else RanksAbove(rank, rank[x], s.lm[l])
    else Ok(false)
  }

  /** `_blockingpair_1biii`: the project is full and ranks the student
      above one of its students. */
  function Biii(I: Instance, s: State, x: Id, p: Id): (r: Result<bool>)
    ensures r.Ok? && r.value ==>
      && p in I.projects && p in s.pm && |s.pm[p]| == I.projects[p].quota && x in I.projects[p].rank
      && exists y | y in s.pm[p] && y in I.projects[p].rank :: I.projects[p].rank[x] < I.projects[p].rank[y]
  {
    if p !in I.projects || p !in s.pm then Err(KeyError)
    else if |s.pm[p]| == I.projects[p].quota then
      var rank := I.projects[p].rank;
      if x !in rank then Err(KeyError)
      else RanksAbove(rank, rank[x], s.pm[p])
    else Ok(false)
  }

  /** The body of the inner loop: the conditions are tried in order, each
      only while no block has been found. */
  function Conditions(I: Instance, s: State, x: Id, p: Id): (r: Result<bool>)
    ensures r.Ok? && r.value ==>
      p in I.projects && (Bi(I, s, p, I.projects[p].lecturer) == Ok(true) ||
                          Bii(I, s, x, p, I.projects[p].lecturer) == Ok(true) ||
                          Biii(I, s, x, p) == Ok(true))
  {
    if p !in I.projects then Err(KeyError)
    else
      var l := I.projects[p].lecturer;
      var b1 :- Bi(I, s, p, l);
      if b1 then Ok(true)
      else
        var b2 :- Bii(I, s, x, p, l);
        if b2 then Ok(true) else Biii(I, s, x, p)
  }

  /** The projects a student is checked against: its list as the loop left
      it, cut at the position its project has in its list as read. */
  function LecturerCandidates(I: Instance, s: State, x: Id): (r: Result<seq<Id>>)
    ensures r.Ok? ==> x in I.students && x in s.sm && x in s.slists && r.value <= s.slists[x]
  {
    if x !in s.slists || x !in s.sm || x !in I.students then Err(KeyError)
    else Candidates(s.slists[x], RankTable(I.students[x]), s.sm[x])
  }

  /** `_check_stability` over the students in dictionary order: True when a
      blocking pair was found. */
  function CheckStability(I: Instance, s: State, order: seq<Id>): (r: Result<bool>)
    ensures r == Ok(false) ==> forall i | 0 <= i < |order| :: LecturerCandidates(I, s, order[i]).Ok?
  {
    Check(x => LecturerCandidates(I, s, x), (x, p) => Conditions(I, s, x, p), order)
  }

  // ---------------------------------------------------------------------
  // The conditions decide the blocking pairs

  /** When the assigned sets are the matching's and every member is ranked,
      the conditions answer, without error, whether the pair blocks. */
  lemma ConditionsDecide(I: Instance, s: State, x: Id, p: Id)
    requires p in I.projects && I.projects[p].lecturer in I.lecturers
    requires p in s.pm && I.projects[p].lecturer in s.lm
    requires x in I.projects[p].rank && x in I.lecturers[I.projects[p].lecturer].rank
    requires s.pm[p] <= I.projects[p].rank.Keys
    requires s.lm[I.projects[p].lecturer] <= I.lecturers[I.projects[p].lecturer].rank.Keys
    requires |s.pm[p]| <= I.projects[p].quota
    requires s.pm[p] == Holders(s.sm, p)
    requires s.lm[I.projects[p].lecturer] == LecturerHolders(I, s.sm, I.projects[p].lecturer)
    ensures Conditions(I, s, x, p) == Ok(Blocks(I, s.sm, x, p))
  {
  }

  /** A project's set holds exactly the students assigned to it. */
  lemma {:induction false} HoldersExact(I: Instance, s: State, p: Id)
    requires ProjectHolds(s.sm, s.pm) && AssignedHeld(I, s.sm, s.pm) && p in s.pm
    ensures s.pm[p] == Holders(s.sm, p)
  {
    forall y | y in Holders(s.sm, p) ensures y in s.pm[p] {
      assert y in s.sm && s.sm[y].Some?;
    }
  }

  /** A lecturer's set holds exactly the students assigned to one of their
      projects. */
  lemma {:induction false} LecturerHoldersExact(I: Instance, s: State, l: Id)
    requires LecturerHolds(I, s.sm, s.lm) && AssignedHeldByLecturer(I, s.sm, s.lm) && l in s.lm
    ensures s.lm[l] == LecturerHolders(I, s.sm, l)
  {
    forall y | y in LecturerHolders(I, s.sm, l) ensures y in s.lm[l] {
      assert y in s.sm && s.sm[y].Some? && s.sm[y].value in I.projects;
    }
  }

  /** Everyone a project or lecturer holds is ranked by them. */
  lemma {:induction false} MembersRanked(I: Instance, s: State, p: Id)
    requires Inv(I, s) && p in I.projects
    ensures s.pm[p] <= I.projects[p].rank.Keys
    ensures s.lm[I.projects[p].lecturer] <= I.lecturers[I.projects[p].lecturer].rank.Keys
  {
    var l := I.projects[p].lecturer;
    forall y | y in s.pm[p] ensures y in I.projects[p].rank {
      assert ListAsRead(I.students[y], s.sm[y], s.slists[y]);
      StudentFacts(I, y, p);
    }
    forall y | y in s.lm[l] ensures y in I.lecturers[l].rank {
      var q := s.sm[y].value;
      assert ListAsRead(I.students[y], s.sm[y], s.slists[y]);
      StudentFacts(I, y, q);
    }
  }

  /** In a state of the loop, the conditions on a student and a project on
      its list answer, without error, whether the pair blocks. */
  lemma PairDecided(I: Instance, s: State, x: Id, p: Id)
    requires Inv(I, s) && x in I.students && p in I.students[x]
    ensures Conditions(I, s, x, p) == Ok(Blocks(I, s.sm, x, p))
  {
    StudentFacts(I, x, p);
    MembersRanked(I, s, p);
    var l := LecturerOf(I, p);
    HoldersExact(I, s, p);
    LecturerHoldersExact(I, s, l);
    ConditionsDecide(I, s, x, p);
  }

  /** Cutting a list as read at the matched project's rank gives the same
      prefix whether or not the list was already cut after that project. */
  lemma CutCandidates(orig: seq<Id>, m: Option<Id>, list: seq<Id>)
    requires ListAsRead(orig, m, list)
    ensures Candidates(list, RankTable(orig), m) == Candidates(orig, RankTable(orig), m)
  {
    if m.Some? {
      var k := RankTable(orig)[m.value];
      assert Take(list, k) == Take(orig, k);
    }
  }

  /** In a state of the loop, a student's candidates, read from its cut
      list, are exactly the projects it prefers to its own. */
  lemma StudentCandidatesPreferred(I: Instance, s: State, x: Id)
    requires Inv(I, s) && x in I.students
    ensures LecturerCandidates(I, s, x).Ok?
    ensures forall p :: p in LecturerCandidates(I, s, x).value <==> Prefers(I, s.sm, x, p)
  {
    assert ListAsRead(I.students[x], s.sm[x], s.slists[x]);
    CutCandidates(I.students[x], s.sm[x], s.slists[x]);
    CandidatesPreferred(I, s.sm, x);
  }

  /** In a state of the loop, the check answers, without error, whether the
      matching has a blocking pair for one of the students of `order`. */
  lemma {:induction false} CheckStabilityDecides(I: Instance, s: State, order: seq<Id>)
    requires Inv(I, s) && forall i | 0 <= i < |order| :: order[i] in I.students
    ensures CheckStability(I, s, order) == Ok(!Stable(I, s.sm, order))
  {
    var cands := x => LecturerCandidates(I, s, x);
    var cond := (x, p) => Conditions(I, s, x, p);
    forall i | 0 <= i < |order|
      ensures && cands(order[i]).Ok?
              && (forall p :: p in cands(order[i]).value <==> Prefers(I, s.sm, order[i], p))
              && (forall p | p in cands(order[i]).value :: cond(order[i], p) == Ok(Blocks(I, s.sm, order[i], p)))
    {
      var x := order[i];
      StudentCandidatesPreferred(I, s, x);
      forall p | p in cands(x).value ensures cond(x, p) == Ok(Blocks(I, s.sm, x, p)) {
        PairDecided(I, s, x, p);
      }
    }
    CheckDecidesStability(I, s.sm, cands, cond, order);
  }

  // ---------------------------------------------------------------------
  // `run`

  /** `run`: the loop over the lecturers in dictionary order `lorder`, with
      at most `fuel` iterations, then the check over the students in
      `order`, then the student view; `None` when the fuel runs out. */
  function RunAll(I: Instance, lorder: seq<Id>, fuel: nat, order: seq<Id>, asWritten: bool): (r: Option<Result<Outcome>>)
    ensures r.Some? && r.value.Ok? ==>
      Run(I, Init(I, lorder), lorder, fuel, asWritten).Some? && Run(I, Init(I, lorder), lorder, fuel, asWritten).value.Ok?
  {
    match Run(I, Init(I, lorder), lorder, fuel, asWritten)
    case None => None
    case Some(Err(e)) => Some(Err(e))
    case Some(Ok(t)) =>
      Some(
        var found :- CheckStability(I, t, order);
        var m :- Matching(I, t.sm);
        Ok(Outcome(!found, m)))
  }

  /** `run` after a loop ending in `t`. */
  lemma RunAllAfter(I: Instance, lorder: seq<Id>, fuel: nat, order: seq<Id>, t: State, found: bool, m: map<Id, Id>)
    requires Run(I, Init(I, lorder), lorder, fuel, false) == Some(Ok(t))
    requires CheckStability(I, t, order) == Ok(found) && Matching(I, t.sm) == Ok(m)
    ensures RunAll(I, lorder, fuel, order, false) == Some(Ok(Outcome(!found, m)))
  {
  }

  /** On a well-formed instance the corrected `run` raises no error: if the
      fuel suffices it reports whether its matching is stable, with every
      student mapped to its project or "". */
  lemma RunReportsStability(I: Instance, lorder: seq<Id>, fuel: nat, order: seq<Id>) returns (t: State, o: Outcome)
    requires WellFormed(I) && forall l | l in lorder :: l in I.lecturers
    requires forall i | 0 <= i < |order| :: order[i] in I.students
    requires Run(I, Init(I, lorder), lorder, fuel, false).Some?
    ensures Run(I, Init(I, lorder), lorder, fuel, false) == Some(Ok(t))
    ensures RunAll(I, lorder, fuel, order, false) == Some(Ok(o))
    ensures o.stable == Stable(I, t.sm, order)
    ensures o.matching.Keys == I.students.Keys
    ensures forall x | x in I.students :: x in t.sm && (t.sm[x].Some? ==> o.matching[x] == t.sm[x].value)
  {
    InitInv(I, lorder);
    RunInv(I, Init(I, lorder), lorder, fuel);
    t := Run(I, Init(I, lorder), lorder, fuel, false).value.value;
    CheckStabilityDecides(I, t, order);
    var m := Matching(I, t.sm).value;
    o := Outcome(Stable(I, t.sm, order), m);
    RunAllAfter(I, lorder, fuel, order, t, !Stable(I, t.sm, order), m);
  }
}
