/** What the `_check_stability` methods of both strict Student/Project
    allocation engines decide: the blocking pairs of a matching under
    conditions 1(b)(i)-(iii), the projects a student prefers to its own,
    and the scan over students and their preferred projects that stops at
    the first blocking pair. */
module SPAStable {
  import opened Wrappers
  import opened Lists
  import opened SPA

  // ---------------------------------------------------------------------
  // Blocking pairs of a matching

  /** M(p): the students a matching assigns to project `p`. */
  ghost function Holders(sm: map<Id, Option<Id>>, p: Id): set<Id> {
    set y | y in sm && sm[y] == Some(p)
  }

  /** M(l): the students a matching assigns to one of lecturer `l`'s
      projects. */
  ghost function LecturerHolders(I: Instance, sm: map<Id, Option<Id>>, l: Id): set<Id> {
    set y | y in sm && sm[y].Some? && sm[y].value in I.projects && I.projects[sm[y].value].lecturer == l
  }

  /** Student `x` would rather have project `p` than what the matching
      gives it: `p` is on its list, and `x` is unassigned or `p` comes
      before its project. */
  ghost predicate Prefers(I: Instance, sm: map<Id, Option<Id>>, x: Id, p: Id) {
    && x in I.students && p in I.students[x] && x in sm
    && (sm[x].Some? ==>
          sm[x].value in I.students[x] && RankTable(I.students[x])[p] < RankTable(I.students[x])[sm[x].value])
  }

  /** The pair (x, p), with l the lecturer of p, meets one of the three
      conditions: (i) p and l are both under-subscribed; (ii) p is
      under-subscribed, l is full, and x is one of l's students or l ranks x
      above one of them; (iii) p is full and its list ranks x above one of
      its students. */
  ghost predicate Blocks(I: Instance, sm: map<Id, Option<Id>>, x: Id, p: Id) {
    && p in I.projects && I.projects[p].lecturer in I.lecturers
    && var P := I.projects[p];
       var L := I.lecturers[P.lecturer];
       var mp := Holders(sm, p);
       var ml := LecturerHolders(I, sm, P.lecturer);
       && x in P.rank && x in L.rank
       && (|| (|mp| < P.quota && |ml| < L.quota)
           || (&& |mp| < P.quota && |ml| == L.quota
               && (x in ml || exists y | y in ml && y in L.rank :: L.rank[x] < L.rank[y]))
           || (|mp| == P.quota && exists y | y in mp && y in P.rank :: P.rank[x] < P.rank[y]))
  }

  /** No student of `order` forms a blocking pair with a project it
      prefers. */
  ghost predicate Stable(I: Instance, sm: map<Id, Option<Id>>, order: seq<Id>) {
    forall x, p | x in order && Prefers(I, sm, x, p) :: !Blocks(I, sm, x, p)
  }

  // ---------------------------------------------------------------------
  // The projects a student is checked against

  /** `A_si[:rank[matched_project]]` for an assigned student, the whole list
      for an unassigned one; a matched project the rank table does not hold
      is a KeyError. */
  function Candidates(list: seq<Id>, rank: map<Id, nat>, m: Option<Id>): (r: Result<seq<Id>>)
    ensures m.None? ==> r == Ok(list)
    ensures m.Some? ==> (r.Ok? <==> m.value in rank)
    ensures r.Ok? ==> r.value <= list
  {
    match m
    case None => Ok(list)
    case Some(q) => if q !in rank then Err(KeyError) else Ok(Take(list, rank[q]))
  }

  /** On a list as read, the candidates are exactly the projects the
      student prefers to its own. */
  lemma CandidatesPreferred(I: Instance, sm: map<Id, Option<Id>>, x: Id)
    requires x in I.students && x in sm && NoDup(I.students[x])
    requires sm[x].Some? ==> sm[x].value in I.students[x]
    ensures Candidates(I.students[x], RankTable(I.students[x]), sm[x]).Ok?
    ensures forall p :: p in Candidates(I.students[x], RankTable(I.students[x]), sm[x]).value <==> Prefers(I, sm, x, p)
  {
    var list := I.students[x];
    if sm[x].Some? {
      var k := RankTable(list)[sm[x].value];
      forall p ensures p in Take(list, k) <==> Prefers(I, sm, x, p) {
        if p in list {
          PrefixByRank(list, p, k);
        } else {
          assert p !in list[..k];
        }
      }
    }
  }

  // ---------------------------------------------------------------------
  // The scan

  /** The inner loop: each candidate in turn is tested, and the first one
      for which the test holds ends the loop with True. */
  function Scan(cond: Id -> Result<bool>, ws: seq<Id>): (r: Result<bool>)
    ensures r == Ok(true) ==> exists i | 0 <= i < |ws| :: cond(ws[i]) == Ok(true)
    ensures r == Ok(false) ==> forall i | 0 <= i < |ws| :: cond(ws[i]) == Ok(false)
    ensures r.Err? ==> exists i | 0 <= i < |ws| :: cond(ws[i]).Err?
  {
    if |ws| == 0 then Ok(false)
    else
      var b :- cond(ws[0]);
      if b then Ok(true)
      else
        var r := Scan(cond, ws[1..]);
        assert forall i | 1 <= i < |ws| :: ws[i] == ws[1..][i - 1];
        r
  }

  /** When every test answers, the inner loop answers whether some
      candidate passes. */
  lemma {:induction false} ScanDecides(cond: Id -> Result<bool>, ws: seq<Id>)
    requires forall i | 0 <= i < |ws| :: cond(ws[i]).Ok?
    ensures Scan(cond, ws) == Ok(exists i | 0 <= i < |ws| :: cond(ws[i]).value)
  {
    if |ws| > 0 && !cond(ws[0]).value {
      ScanDecides(cond, ws[1..]);
      assert forall i | 1 <= i < |ws| :: ws[i] == ws[1..][i - 1];
    }
  }

  /** The outer loop: each student in turn has its candidates scanned, and
      the first blocking pair ends the check with True. */
  function Check(cands: Id -> Result<seq<Id>>, cond: (Id, Id) -> Result<bool>, order: seq<Id>): (r: Result<bool>)
    ensures r == Ok(true) ==>
      exists i, p | 0 <= i < |order| && cands(order[i]).Ok? && p in cands(order[i]).value :: cond(order[i], p) == Ok(true)
    ensures r == Ok(false) ==>
      forall i | 0 <= i < |order| :: cands(order[i]).Ok? && forall p | p in cands(order[i]).value :: cond(order[i], p) == Ok(false)
  {
    if |order| == 0 then Ok(false)
    else
      var x := order[0];
      var ws :- cands(x);
      var found :- Scan(p => cond(x, p), ws);
      if found then Ok(true)
      else
        var r := Check(cands, cond, order[1..]);
        assert forall i | 1 <= i < |order| :: order[i] == order[1..][i - 1];
        r
  }

  /** When every lookup succeeds, the check answers whether some student
      has a candidate passing the test. */
  lemma {:induction false} CheckDecides(cands: Id -> Result<seq<Id>>, cond: (Id, Id) -> Result<bool>, order: seq<Id>)
    requires forall i | 0 <= i < |order| ::
      cands(order[i]).Ok? && forall p | p in cands(order[i]).value :: cond(order[i], p).Ok?
    ensures Check(cands, cond, order) ==
      Ok(exists i, p | 0 <= i < |order| && cands(order[i]).Ok? && p in cands(order[i]).value :: cond(order[i], p).value)
  {
    if |order| > 0 {
      var x := order[0];
      var ws := cands(x).value;
      ScanDecides(p => cond(x, p), ws);
      CheckDecides(cands, cond, order[1..]);
      assert forall i | 1 <= i < |order| :: order[i] == order[1..][i - 1];
    }
  }

  /** A check whose candidates are the preferred projects and whose test
      decides blocking answers whether the matching is unstable for the
      students of `order`. */
  lemma {:induction false} CheckDecidesStability(I: Instance, sm: map<Id, Option<Id>>,
      cands: Id -> Result<seq<Id>>, cond: (Id, Id) -> Result<bool>, order: seq<Id>)
    requires forall i | 0 <= i < |order| ::
      && cands(order[i]).Ok?
      && (forall p :: p in cands(order[i]).value <==> Prefers(I, sm, order[i], p))
      && (forall p | p in cands(order[i]).value :: cond(order[i], p) == Ok(Blocks(I, sm, order[i], p)))
    ensures Check(cands, cond, order) == Ok(!Stable(I, sm, order))
  {
    CheckDecides(cands, cond, order);
    if !Stable(I, sm, order) {
      var x, p :| x in order && Prefers(I, sm, x, p) && Blocks(I, sm, x, p);
      var i :| 0 <= i < |order| && order[i] == x;
      assert p in cands(order[i]).value && cond(order[i], p).value;
    }
  }

  // ---------------------------------------------------------------------
  // The report of `run`

  /** What `run` reports: whether no blocking pair was found, and every
      student mapped to its project or to "". */
  datatype Outcome = Outcome(stable: bool, matching: map<Id, Id>)

  /** The student view built by `run` of both engines. */
  function Matching(I: Instance, sm: map<Id, Option<Id>>): (r: Result<map<Id, Id>>)
    ensures r.Ok? <==> I.students.Keys <= sm.Keys
    ensures r.Ok? ==> r.value.Keys == I.students.Keys
    ensures r.Ok? ==> forall x | x in r.value :: (r.value[x] == "" <==> sm[x] == None || sm[x] == Some(""))
    ensures r.Ok? ==> forall x | x in r.value && sm[x].Some? :: r.value[x] == sm[x].value
  {
    if !(I.students.Keys <= sm.Keys) then Err(KeyError)
    else Ok(map x | x in I.students :: if sm[x].Some? then sm[x].value else "")
  }
}
