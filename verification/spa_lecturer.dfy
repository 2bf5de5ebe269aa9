/** The lecturer-proposing loop of `SPALecturerOptimal`.

    The first lecturer on the under-subscribed list looks, in the order of
    their own list, for the first student with a project of theirs that is
    under-subscribed and not already the student's. When there is none the
    lecturer leaves the list. Otherwise the student leaves any project it
    holds, takes the new one, and deletes every later project from its own
    list and itself from those projects' lists; the under-subscribed list is
    then rebuilt from the occupancies. The students' and projects' lists the
    reader built are shortened in place.

    Breaking an assignment reads `lower_quota`, a key no reader stores; the
    parameter `asWritten` selects that behaviour (a KeyError), and the
    corrected loop leaves the lookup out. */
module SPALecturer {
  import opened Wrappers
  import opened Lists
  import opened SPA

  /** The loop's state: `M` split by kind, the students' and projects'
      lists as the loop has shortened them, and the under-subscribed
      lecturers. */
  datatype State = State(
    sm: map<Id, Option<Id>>,
    pm: map<Id, set<Id>>,
    lm: map<Id, set<Id>>,
    slists: map<Id, seq<Id>>,
    plists: map<Id, seq<Id>>,
    usl: seq<Id>)

  /** The constructor: every student unassigned, every project and lecturer
      empty, the lists as read, and every lecturer, in dictionary order,
      under-subscribed. */
  function Init(I: Instance, lorder: seq<Id>): (s: State)
    ensures s.sm.Keys == I.students.Keys && s.slists == I.students
    ensures forall x | x in s.sm :: s.sm[x] == None
    ensures s.pm.Keys == s.plists.Keys == I.projects.Keys && s.lm.Keys == I.lecturers.Keys
    ensures forall p | p in s.pm :: s.pm[p] == {} && s.plists[p] == I.projects[p].list
    ensures forall l | l in s.lm :: s.lm[l] == {}
    ensures s.usl == lorder
  {
    State(map x | x in I.students :: None,
          map p | p in I.projects :: {},
          map l | l in I.lecturers :: {},
          I.students,
          map p | p in I.projects :: I.projects[p].list,
          lorder)
  }

  // ---------------------------------------------------------------------
  // Finding a pair

  /** `_check_pair_conditions`: the student is not on the project already,
      the lecturer offers the project, and the project is under-subscribed.
      The tests short-circuit in that order. */
  function PairValid(I: Instance, s: State, x: Id, p: Id, l: Id): (r: Result<bool>)
    ensures r.Err? <==> x !in s.sm || (s.sm[x] != Some(p) && (l !in I.lecturers ||
                          (p in I.lecturers[l].projects && (p !in s.pm || p !in I.projects))))
    ensures r.Ok? ==> (r.value <==> s.sm[x] != Some(p) && p in I.lecturers[l].projects && |s.pm[p]| < I.projects[p].quota)
  {
    if x !in s.sm then Err(KeyError)
    else if s.sm[x] == Some(p) then Ok(false)
    else if l !in I.lecturers then Err(KeyError)
    else if p !in I.lecturers[l].projects then Ok(false)
    else if p !in s.pm || p !in I.projects then Err(KeyError)
    else Ok(|s.pm[p]| < I.projects[p].quota)
  }

  /** The inner loop of `_find_valid_pair`: the first project of `ps` that
      forms a valid pair with the student. */
  function FirstProject(I: Instance, s: State, x: Id, l: Id, ps: seq<Id>): (r: Result<Option<Id>>)
    ensures r.Ok? && r.value.Some? ==>
      exists j | 0 <= j < |ps| :: ps[j] == r.value.value && PairValid(I, s, x, ps[j], l) == Ok(true)
        && forall k | 0 <= k < j :: PairValid(I, s, x, ps[k], l) == Ok(false)
    ensures r.Ok? && r.value.None? ==> forall j | 0 <= j < |ps| :: PairValid(I, s, x, ps[j], l) == Ok(false)
  {
    if |ps| == 0 then Ok(None)
    else
      var ok :- PairValid(I, s, x, ps[0], l);
      if ok then Ok(Some(ps[0]))
      else
        var r :- FirstProject(I, s, x, l, ps[1..]);
        assert forall j | 1 <= j < |ps| :: ps[j] == ps[1..][j - 1];
        Ok(r)
  }

  /** The outer loop of `_find_valid_pair`: the first student of `xs` with a
      valid project, and that project. */
  function FirstPair(I: Instance, s: State, l: Id, xs: seq<Id>): (r: Result<Option<(Id, Id)>>)
    ensures r.Ok? && r.value.Some? ==>
      exists i | 0 <= i < |xs| :: xs[i] == r.value.value.0 && xs[i] in s.slists
        && FirstProject(I, s, xs[i], l, s.slists[xs[i]]) == Ok(Some(r.value.value.1))
        && forall k | 0 <= k < i :: xs[k] in s.slists && FirstProject(I, s, xs[k], l, s.slists[xs[k]]) == Ok(None)
    ensures r.Ok? && r.value.None? ==>
      forall i | 0 <= i < |xs| :: xs[i] in s.slists && FirstProject(I, s, xs[i], l, s.slists[xs[i]]) == Ok(None)
  {
    if |xs| == 0 then Ok(None)
    else if xs[0] !in s.slists then Err(KeyError)
    else
      var p :- FirstProject(I, s, xs[0], l, s.slists[xs[0]]);
      if p.Some? then Ok(Some((xs[0], p.value)))
      else
        var r :- FirstPair(I, s, l, xs[1..]);
        assert forall i | 1 <= i < |xs| :: xs[i] == xs[1..][i - 1];
        Ok(r)
  }

  /** `_find_valid_pair(l)`: the lecturer's list as read is scanned. */
  function FindPair(I: Instance, s: State, l: Id): (r: Result<Option<(Id, Id)>>)
    ensures r.Ok? ==> l in I.lecturers
  {
    if l !in I.lecturers then Err(KeyError) else FirstPair(I, s, l, I.lecturers[l].list)
  }

  /** A pair found is valid, its student is on the lecturer's list and its
      project on the student's current list. */
  lemma FoundValid(I: Instance, s: State, l: Id, x: Id, p: Id)
    requires FindPair(I, s, l) == Ok(Some((x, p)))
    ensures l in I.lecturers && x in I.lecturers[l].list && x in s.slists && p in s.slists[x]
    ensures PairValid(I, s, x, p, l) == Ok(true)
  {
  }

  /** When no pair is found, no student on the lecturer's list has a valid
      project on its current list. */
  lemma NoneFound(I: Instance, s: State, l: Id, x: Id, p: Id)
    requires FindPair(I, s, l) == Ok(None) && x in I.lecturers[l].list && x in s.slists && p in s.slists[x]
    ensures PairValid(I, s, x, p, l) == Ok(false)
  {
    var xs := I.lecturers[l].list;
    var i :| 0 <= i < |xs| && xs[i] == x;
    var j :| 0 <= j < |s.slists[x]| && s.slists[x][j] == p;
  }

  // ---------------------------------------------------------------------
  // Breaking, assigning, deleting

  /** `_break_assignment`: the student leaves its project and that
      project's lecturer. As written, the comparison with the project's
      `lower_quota` raises KeyError between the two removals. */
  function Break(I: Instance, s: State, x: Id, asWritten: bool): (r: Result<State>)
    ensures r.Ok? ==> !asWritten
    ensures r.Ok? ==> x in s.sm && s.sm[x].Some? && s.sm[x].value in I.projects
    ensures r.Ok? ==> var q := s.sm[x].value; var l := I.projects[q].lecturer;
      && q in s.pm && x in s.pm[q] && l in s.lm && x in s.lm[l]
      && r.value == s.(sm := s.sm[x := None], pm := s.pm[q := s.pm[q] - {x}], lm := s.lm[l := s.lm[l] - {x}])
  {
    if x !in s.sm || s.sm[x].None? then Err(KeyError)
    else
      var q := s.sm[x].value;
      if q !in I.projects then Err(KeyError)
      else
        var l := I.projects[q].lecturer;
        if q !in s.pm || x !in s.pm[q] then Err(KeyError)
        else if asWritten then Err(KeyError)
        else if l !in s.lm || x !in s.lm[l] then Err(KeyError)
        else Ok(s.(sm := s.sm[x := None], pm := s.pm[q := s.pm[q] - {x}], lm := s.lm[l := s.lm[l] - {x}]))
  }

  /** As written, breaking an assignment that exists always fails. */
  lemma BreakAsWrittenFails(I: Instance, s: State, x: Id)
    ensures Break(I, s, x, true) == Err(KeyError)
  {
  }

  /** `_provisionally_assign`. */
  function Assign(s: State, x: Id, p: Id, l: Id): (r: Result<State>)
    ensures r.Ok? <==> x in s.sm && p in s.pm && l in s.lm
    ensures r.Ok? ==> r.value == s.(sm := s.sm[x := Some(p)], pm := s.pm[p := s.pm[p] + {x}], lm := s.lm[l := s.lm[l] + {x}])
  {
    if x !in s.sm || p !in s.pm || l !in s.lm then Err(KeyError)
    else Ok(s.(sm := s.sm[x := Some(p)], pm := s.pm[p := s.pm[p] + {x}], lm := s.lm[l := s.lm[l] + {x}]))
  }

  /** `_delete(x, p)`: the project leaves the student's list and the
      student the project's. */
  function Delete(s: State, x: Id, p: Id): (r: Result<State>)
    ensures r.Ok? <==> x in s.slists && p in s.slists[x] && p in s.plists && x in s.plists[p]
    ensures r.Ok? ==> Remove(s.slists[x], p).Ok? && Remove(s.plists[p], x).Ok?
    ensures r.Ok? ==> r.value == s.(slists := s.slists[x := Remove(s.slists[x], p).value],
                                    plists := s.plists[p := Remove(s.plists[p], x).value])
  {
    if x !in s.slists then Err(KeyError)
    else
      var sl :- Remove(s.slists[x], p);
      if p !in s.plists then Err(KeyError)
      else
        var pl :- Remove(s.plists[p], x);
        Ok(s.(slists := s.slists[x := sl], plists := s.plists[p := pl]))
  }

  /** The deletion loop over a snapshot of the successors. */
  function DeleteAll(s: State, x: Id, ps: seq<Id>): (r: Result<State>)
    ensures r.Ok? ==> r.value.sm == s.sm && r.value.pm == s.pm && r.value.lm == s.lm && r.value.usl == s.usl
    decreases |ps|
  {
    if |ps| == 0 then Ok(s)
    else
      var t :- Delete(s, x, ps[0]);
      DeleteAll(t, x, ps[1..])
  }

  /** The rebuilt under-subscribed list: `[l for l in lecturers if
      len(M[l]) < upper_quota]`, in dictionary order. */
  function Rebuild(I: Instance, lm: map<Id, set<Id>>, lorder: seq<Id>): (r: Result<seq<Id>>)
    ensures r.Ok? <==> forall l | l in lorder :: l in lm && l in I.lecturers
    ensures r.Ok? ==> forall l :: l in r.value <==> l in lorder && |lm[l]| < I.lecturers[l].quota
  {
    if |lorder| == 0 then Ok([])
    else
      var l := lorder[0];
      if l !in lm || l !in I.lecturers then Err(KeyError)
      else
        var rest :- Rebuild(I, lm, lorder[1..]);
        Ok((if |lm[l]| < I.lecturers[l].quota then [l] else []) + rest)
  }

  /** The lecturers a rebuild keeps. */
  ghost function UnderSubscribed(I: Instance, lm: map<Id, set<Id>>): set<Id> {
    set l | l in lm && l in I.lecturers && |lm[l]| < I.lecturers[l].quota
  }

  /** The rebuilt list keeps the dictionary order: it is the order
      filtered to the under-subscribed lecturers. */
  lemma {:induction false} RebuildIsFilter(I: Instance, lm: map<Id, set<Id>>, lorder: seq<Id>)
    requires forall l | l in lorder :: l in lm && l in I.lecturers
    ensures Rebuild(I, lm, lorder) == Ok(Filter(lorder, UnderSubscribed(I, lm)))
  {
    if |lorder| > 0 {
      RebuildIsFilter(I, lm, lorder[1..]);
    }
  }

  // ---------------------------------------------------------------------
  // One iteration and the loop

  /** One iteration of `_while_loop` with the first under-subscribed
      lecturer. */
  function Step(I: Instance, s: State, lorder: seq<Id>, asWritten: bool): (r: Result<State>)
    requires |s.usl| > 0
  {
    var l := s.usl[0];
    var pair :- FindPair(I, s, l);
    match pair
    case None =>
      var usl :- Remove(s.usl, l);
      Ok(s.(usl := usl))
    case Some((x, p)) => Propose(I, s, x, p, l, lorder, asWritten)
  }

  /** Lecturer `l` offers `p` to `x`: any assignment of `x` is broken and
      `x` is assigned to `p`. */
  function Propose(I: Instance, s: State, x: Id, p: Id, l: Id, lorder: seq<Id>, asWritten: bool): Result<State> {
    if x !in s.sm then Err(KeyError)
    else
      var s1 :- if s.sm[x].Some? then Break(I, s, x, asWritten) else Ok(s);
      var s2 :- Assign(s1, x, p, l);
      Settle(I, s2, x, p, l, lorder)
  }

  /** After the assignment: the successors of `p` on the student's list
      are deleted, a full `l` leaves the list, and the list of
      under-subscribed lecturers is rebuilt. */
  function Settle(I: Instance, s2: State, x: Id, p: Id, l: Id, lorder: seq<Id>): Result<State> {
    if x !in s2.slists then Err(KeyError)
    else if p !in s2.slists[x] then Err(ValueError)
    else
      var s3 :- DeleteAll(s2, x, Drop(s2.slists[x], IndexOf(s2.slists[x], p) + 1));
      if l !in s3.lm || l !in I.lecturers then Err(KeyError)
      else
        var kept :- if |s3.lm[l]| == I.lecturers[l].quota then Remove(s3.usl, l) else Ok(s3.usl);
        var usl :- Rebuild(I, s3.lm, lorder);
        Ok(s3.(usl := usl))
  }

  /** The loop with at most `fuel` iterations; `None` when the fuel runs out
      first. */
  function Run(I: Instance, s: State, lorder: seq<Id>, fuel: nat, asWritten: bool): (r: Option<Result<State>>)
    ensures |s.usl| == 0 ==> r == Some(Ok(s))
    ensures r.Some? && r.value.Ok? ==> r.value.value.usl == []
    decreases fuel
  {
    if |s.usl| == 0 then Some(Ok(s))
    else if fuel == 0 then None
    else
      match Step(I, s, lorder, asWritten)
      case Err(e) => Some(Err(e))
      case Ok(t) => Run(I, t, lorder, fuel - 1, asWritten)
  }
}
