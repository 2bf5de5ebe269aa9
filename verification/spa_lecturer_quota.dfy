/** The break of `SPALecturerOptimal` on a two-lecturer instance: student
    s1 prefers p2 (offered by l2) to p1 (offered by l1), each lecturer
    lists s1, and every quota is 1. Lecturer l1 first assigns s1 to p1;
    lecturer l2 then offers p2, which s1 prefers, and the break of the
    assignment to p1 reads the project's `lower_quota`, which no reader
    stores. As written the run ends in KeyError; with the break corrected
    it ends with s1 on p2, a stable matching. */
module SPALecturerQuota {
  import opened Wrappers
  import opened Lists
  import opened SPA
  import opened SPALecturer
  import opened SPALecturerInv
  import opened SPAStable
  import opened SPALecturerCheck

  function Two(): Instance {
    Instance(
      map["s1" := ["p2", "p1"]],
      map["p1" := Project(1, "l1", ["s1"], map["s1" := 0]), "p2" := Project(1, "l2", ["s1"], map["s1" := 0])],
      map["l1" := Lecturer(1, {"p1"}, ["s1"], map["s1" := 0]), "l2" := Lecturer(1, {"p2"}, ["s1"], map["s1" := 0])])
  }

  /** The lecturers in dictionary order. */
  const Order: seq<Id> := ["l1", "l2"]

  /** The students' and projects' lists as read. */
  const SList: map<Id, seq<Id>> := map["s1" := ["p2", "p1"]]
  const PList: map<Id, seq<Id>> := map["p1" := ["s1"], "p2" := ["s1"]]

  /** The state the constructor builds. */
  const Start: State :=
    State(map["s1" := None], map["p1" := {}, "p2" := {}], map["l1" := {}, "l2" := {}], SList, PList, Order)

  /** The state after the first iteration: s1 on p1. */
  const AfterFirst: State :=
    State(map["s1" := Some("p1")], map["p1" := {"s1"}, "p2" := {}], map["l1" := {"s1"}, "l2" := {}], SList, PList, ["l2"])

  /** The state after the corrected second iteration: s1 on p2, and p1 gone
      from its list. */
  const AfterSecond: State :=
    State(map["s1" := Some("p2")], map["p1" := {}, "p2" := {"s1"}], map["l1" := {}, "l2" := {"s1"}],
          map["s1" := ["p2"]], map["p1" := [], "p2" := ["s1"]], ["l1"])

  lemma Distinct()
    ensures "p1" != "p2" && "l1" != "l2"
  {
    assert "p1"[1] != "p2"[1];
    assert "l1"[1] != "l2"[1];
  }

  /** Updating the first key of a two-key display. */
  lemma UpdateFirst<V>(a: Id, b: Id, va: V, vb: V, v: V)
    requires a != b
    ensures map[a := va, b := vb][a := v] == map[a := v, b := vb]
  {
  }

  /** Updating the second key of a two-key display. */
  lemma UpdateSecond<V>(a: Id, b: Id, va: V, vb: V, v: V)
    ensures map[a := va, b := vb][b := v] == map[a := va, b := v]
  {
    UpdateTwice(map[a := va], b, vb, v);
  }

  lemma RemoveSecond(a: Id, b: Id)
    requires a != b
    ensures Remove([a, b], b) == Ok([a])
  {
    var e: seq<Id> := [];
    assert [a, b][0] == a && [a, b][1..] == [b];
    assert [b][1..] == e;
    assert Remove([b], b) == Ok(e);
    assert [a] + e == [a];
  }

  lemma RemoveFirst(a: Id, b: Id)
    ensures Remove([a, b], a) == Ok([b])
  {
    assert [a, b][1..] == [b];
  }

  lemma RemoveOnly(a: Id)
    ensures Remove([a], a) == Ok([])
  {
  }

  /** A rebuild over two lecturers. */
  lemma RebuildTwo(I: Instance, lm: map<Id, set<Id>>, a: Id, b: Id)
    requires a in lm && a in I.lecturers && b in lm && b in I.lecturers
    ensures Rebuild(I, lm, [a, b]) ==
      Ok((if |lm[a]| < I.lecturers[a].quota then [a] else []) + (if |lm[b]| < I.lecturers[b].quota then [b] else []))
  {
    var e: seq<Id> := [];
    assert [a, b][1..] == [b] && [b][1..] == e;
    assert Rebuild(I, lm, e) == Ok(e);
    var tb := if |lm[b]| < I.lecturers[b].quota then [b] else [];
    assert tb + e == tb;
  }

  lemma StartSm()
    ensures Init(Two(), Order).sm == Start.sm
  {
    var sm: map<Id, Option<Id>> := map x | x in Two().students :: None;
    assert sm.Keys == {"s1"};
    assert sm == Start.sm;
  }

  lemma StartPm()
    ensures Init(Two(), Order).pm == Start.pm
  {
    Distinct();
    var P := Two().projects;
    EmptyOfTwo("p1", "p2", P["p1"], P["p2"], {});
    assert P == map["p1" := P["p1"], "p2" := P["p2"]];
  }

  lemma StartLm()
    ensures Init(Two(), Order).lm == Start.lm
  {
    Distinct();
    var L := Two().lecturers;
    EmptyOfTwo("l1", "l2", L["l1"], L["l2"], {});
    assert L == map["l1" := L["l1"], "l2" := L["l2"]];
  }

  /** An empty set for each key of a two-key display. */
  lemma EmptyOfTwo<V>(a: Id, b: Id, va: V, vb: V, z: set<Id>)
    requires a != b && z == {}
    ensures var P := map[a := va, b := vb];
      (map x | x in P :: z) == map[a := z, b := z]
  {
    var P := map[a := va, b := vb];
    var e := map x | x in P :: z;
    assert e.Keys == {a, b};
  }

  lemma StartPlists()
    ensures Init(Two(), Order).plists == Start.plists
  {
    Distinct();
    var I := Two();
    ListsOfTwo("p1", "p2", I.projects["p1"], I.projects["p2"]);
    assert I.projects == map["p1" := I.projects["p1"], "p2" := I.projects["p2"]];
  }

  /** The projects' lists of a two-project display. */
  lemma ListsOfTwo(a: Id, b: Id, pa: Project, pb: Project)
    requires a != b
    ensures var P := map[a := pa, b := pb];
      (map p | p in P :: P[p].list) == map[a := pa.list, b := pb.list]
  {
    var P := map[a := pa, b := pb];
    var pl: map<Id, seq<Id>> := map p | p in P :: P[p].list;
    assert pl.Keys == {a, b};
  }

  lemma StartIsInit()
    ensures Init(Two(), Order) == Start
  {
    StartSm();
    StartPm();
    StartLm();
    StartPlists();
  }

  lemma RankOne()
    ensures RankTable(["s1"]) == map["s1" := 0]
  {
    var e: seq<Id> := [];
    assert RankTable(e) == map[];
    assert ["s1"][..0] == [];
  }

  lemma ProjectedOne(p: Id)
    requires p == "p1" || p == "p2"
    ensures Projected(["s1"], Two().students, p) == Ok(["s1"])
  {
    Distinct();
    var e: seq<Id> := [];
    assert ["s1"][1..] == e;
    assert Projected(e, Two().students, p) == Ok(e);
    assert p in Two().students["s1"];
    assert ["s1"] + e == ["s1"];
  }

  lemma TwoStudents()
    ensures forall x | x in Two().students ::
      NoDup(Two().students[x]) && forall p | p in Two().students[x] :: p in Two().projects
    ensures forall x, p {:trigger p in Two().students[x]} | x in Two().students && p in Two().students[x] ::
      x in Two().lecturers[Two().projects[p].lecturer].list
  {
    Distinct();
    var I := Two();
    assert I.students.Keys == {"s1"};
    assert NoDup(["p2", "p1"]);
    forall x, p | x in I.students && p in I.students[x]
      ensures p in I.projects && x in I.lecturers[I.projects[p].lecturer].list
    {
      assert p == "p1" || p == "p2";
    }
  }

  lemma TwoProjects()
    ensures forall p | p in Two().projects ::
      && Two().projects[p].quota >= 1
      && Two().projects[p].lecturer in Two().lecturers
      && Projected(Two().lecturers[Two().projects[p].lecturer].list, Two().students, p) == Ok(Two().projects[p].list)
      && Two().projects[p].rank == RankTable(Two().projects[p].list)
  {
    Distinct();
    RankOne();
    var I := Two();
    forall p | p in I.projects
      ensures && I.projects[p].quota >= 1
              && I.projects[p].lecturer in I.lecturers
              && Projected(I.lecturers[I.projects[p].lecturer].list, I.students, p) == Ok(I.projects[p].list)
              && I.projects[p].rank == RankTable(I.projects[p].list)
    {
      assert p == "p1" || p == "p2";
      ProjectedOne(p);
    }
  }

  lemma TwoLecturers()
    ensures forall l | l in Two().lecturers ::
      && Two().lecturers[l].quota >= 1
      && NoDup(Two().lecturers[l].list)
      && Two().lecturers[l].rank == RankTable(Two().lecturers[l].list)
      && (forall x | x in Two().lecturers[l].list :: x in Two().students)
      && (forall p {:trigger p in Two().lecturers[l].projects} ::
            p in Two().lecturers[l].projects <==> p in Two().projects && Two().projects[p].lecturer == l)
  {
    Distinct();
    RankOne();
    var I := Two();
    forall l | l in I.lecturers
      ensures && I.lecturers[l].quota >= 1
              && NoDup(I.lecturers[l].list)
              && I.lecturers[l].rank == RankTable(I.lecturers[l].list)
              && (forall x | x in I.lecturers[l].list :: x in I.students)
              && (forall p {:trigger p in I.lecturers[l].projects} ::
                    p in I.lecturers[l].projects <==> p in I.projects && I.projects[p].lecturer == l)
    {
      assert l == "l1" || l == "l2";
      assert NoDup(["s1"]);
    }
  }

  lemma TwoWellFormed()
    ensures WellFormed(Two())
  {
    TwoStudents();
    TwoProjects();
    TwoLecturers();
  }

  /** Lecturer l1 finds (s1, p1): l1 does not offer p2. */
  lemma FirstPairFound()
    ensures FindPair(Two(), Start, "l1") == Ok(Some(("s1", "p1")))
  {
    Distinct();
    assert PairValid(Two(), Start, "s1", "p2", "l1") == Ok(false);
    assert PairValid(Two(), Start, "s1", "p1", "l1") == Ok(true);
    assert FirstProject(Two(), Start, "s1", "l1", ["p2", "p1"]) == Ok(Some("p1"));
  }

  lemma FirstAssigned()
    ensures Assign(Start, "s1", "p1", "l1") == Ok(AfterFirst.(usl := Order))
  {
    Distinct();
    assert Start.pm["p1"] + {"s1"} == {"s1"};
    var e: map<Id, Option<Id>> := map[];
    UpdateTwice(e, "s1", None, Some("p1"));
    assert Start.sm["s1" := Some("p1")] == AfterFirst.sm;
    UpdateFirst("p1", "p2", {}, {}, {"s1"});
    assert Start.pm["p1" := {"s1"}] == AfterFirst.pm;
    UpdateFirst("l1", "l2", {}, {}, {"s1"});
    assert Start.lm["l1" := {"s1"}] == AfterFirst.lm;
  }

  lemma FirstSettled()
    ensures Settle(Two(), AfterFirst.(usl := Order), "s1", "p1", "l1", Order) == Ok(AfterFirst)
  {
    Distinct();
    var s2 := AfterFirst.(usl := Order);
    var e: seq<Id> := [];
    assert IndexOf(["p2", "p1"], "p1") == 1;
    assert Drop(["p2", "p1"], 2) == e;
    assert DeleteAll(s2, "s1", e) == Ok(s2);
    assert |s2.lm["l1"]| == 1 && |s2.lm["l2"]| == 0;
    RemoveFirst("l1", "l2");
    RebuildTwo(Two(), s2.lm, "l1", "l2");
    assert e + ["l2"] == ["l2"];
    assert Rebuild(Two(), s2.lm, Order) == Ok(["l2"]);
  }

  /** The first iteration, as written or corrected, assigns s1 to p1. */
  lemma FirstStep(asWritten: bool)
    ensures Step(Two(), Start, Order, asWritten) == Ok(AfterFirst)
  {
    Distinct();
    FirstPairFound();
    FirstAssigned();
    FirstSettled();
  }

  /** Lecturer l2 then finds (s1, p2): s1 is on p1 and p2 has room. */
  lemma SecondPairFound()
    ensures FindPair(Two(), AfterFirst, "l2") == Ok(Some(("s1", "p2")))
  {
    Distinct();
    assert PairValid(Two(), AfterFirst, "s1", "p2", "l2") == Ok(true);
    assert FirstProject(Two(), AfterFirst, "s1", "l2", ["p2", "p1"]) == Ok(Some("p2"));
  }

  /** As written, the second iteration fails in the break. */
  lemma SecondStepAsWritten()
    ensures Step(Two(), AfterFirst, Order, true) == Err(KeyError)
  {
    Distinct();
    SecondPairFound();
    BreakAsWrittenFails(Two(), AfterFirst, "s1");
  }

  /** As written, `run` on this instance raises KeyError, whatever the fuel
      beyond two iterations and the order of the students. */
  lemma RunAsWrittenFails(fuel: nat, order: seq<Id>)
    requires fuel >= 2
    ensures RunAll(Two(), Order, fuel, order, true) == Some(Err(KeyError))
  {
    var I := Two();
    assert Init(I, Order) == Start by { StartIsInit(); }
    assert Run(I, Start, Order, fuel, true) == Run(I, AfterFirst, Order, fuel - 1, true) by {
      FirstStep(true);
      RunStep(I, Start, AfterFirst, Order, fuel, true);
    }
    assert Run(I, AfterFirst, Order, fuel - 1, true) == Some(Err(KeyError)) by {
      SecondStepAsWritten();
    }
  }

  /** The state after the corrected break: s1 back on no project. */
  const Broken: State := AfterFirst.(sm := Start.sm, pm := Start.pm, lm := Start.lm)

  /** The state between the corrected break and the deletions. */
  const Reassigned: State := AfterFirst.(sm := AfterSecond.sm, pm := AfterSecond.pm, lm := AfterSecond.lm)

  lemma SecondBroken()
    ensures Break(Two(), AfterFirst, "s1", false) == Ok(Broken)
  {
    Distinct();
    assert {"s1"} - {"s1"} == {};
    var e: map<Id, Option<Id>> := map[];
    UpdateTwice(e, "s1", Some("p1"), None);
    assert AfterFirst.sm["s1" := None] == Start.sm;
    UpdateFirst("p1", "p2", {"s1"}, {}, {});
    assert AfterFirst.pm["p1" := {}] == Start.pm;
    UpdateFirst("l1", "l2", {"s1"}, {}, {});
    assert AfterFirst.lm["l1" := {}] == Start.lm;
  }

  lemma SecondAssigned()
    ensures Assign(Broken, "s1", "p2", "l2") == Ok(Reassigned)
  {
    Distinct();
    assert Start.pm["p2"] + {"s1"} == {"s1"};
    var e: map<Id, Option<Id>> := map[];
    UpdateTwice(e, "s1", None, Some("p2"));
    assert Start.sm["s1" := Some("p2")] == AfterSecond.sm;
    UpdateSecond("p1", "p2", {}, {}, {"s1"});
    assert Start.pm["p2" := {"s1"}] == AfterSecond.pm;
    UpdateSecond("l1", "l2", {}, {}, {"s1"});
    assert Start.lm["l2" := {"s1"}] == AfterSecond.lm;
  }

  lemma SecondDeleted()
    ensures DeleteAll(Reassigned, "s1", ["p1"]) == Ok(AfterSecond.(usl := ["l2"]))
  {
    Distinct();
    RemoveSecond("p2", "p1");
    RemoveOnly("s1");
    var e: seq<Id> := [];
    var t := Reassigned.(slists := SList["s1" := ["p2"]], plists := PList["p1" := e]);
    assert Delete(Reassigned, "s1", "p1") == Ok(t);
    assert ["p1"][1..] == e;
    assert DeleteAll(t, "s1", e) == Ok(t);
    var m: map<Id, seq<Id>> := map[];
    UpdateTwice(m, "s1", ["p2", "p1"], ["p2"]);
    assert t.slists == AfterSecond.slists;
    UpdateFirst("p1", "p2", ["s1"], ["s1"], e);
    assert t.plists == AfterSecond.plists;
  }

  /** `Settle` from the outcomes of its steps, for a project at the head of
      the student's list. */
  lemma SettleFrom(I: Instance, s2: State, x: Id, p: Id, l: Id, lorder: seq<Id>, cut: seq<Id>, s3: State, usl: seq<Id>)
    requires x in s2.slists && s2.slists[x] == [p] + cut
    requires DeleteAll(s2, x, cut) == Ok(s3)
    requires l in s3.lm && l in I.lecturers
    requires |s3.lm[l]| == I.lecturers[l].quota ==> Remove(s3.usl, l).Ok?
    requires Rebuild(I, s3.lm, lorder) == Ok(usl)
    ensures Settle(I, s2, x, p, l, lorder) == Ok(s3.(usl := usl))
  {
    assert s2.slists[x][0] == p;
    assert Drop(s2.slists[x], 1) == cut;
  }

  lemma SecondSettled()
    ensures Settle(Two(), Reassigned, "s1", "p2", "l2", Order) == Ok(AfterSecond)
  {
    SecondDeleted();
    var s3 := AfterSecond.(usl := ["l2"]);
    assert Reassigned.slists["s1"] == ["p2"] + ["p1"];
    assert "l2" in s3.lm && "l2" in Two().lecturers;
    RemoveOnly("l2");
    SecondRebuilt();
    assert s3.(usl := ["l1"]) == AfterSecond;
    SettleFrom(Two(), Reassigned, "s1", "p2", "l2", Order, ["p1"], s3, ["l1"]);
  }

  lemma SecondRebuilt()
    ensures Rebuild(Two(), AfterSecond.lm, Order) == Ok(["l1"])
  {
    Distinct();
    assert |AfterSecond.lm["l1"]| == 0 && |AfterSecond.lm["l2"]| == 1;
    RebuildTwo(Two(), AfterSecond.lm, "l1", "l2");
    var e: seq<Id> := [];
    assert ["l1"] + e == ["l1"];
  }

  /** Corrected, the second iteration moves s1 to p2. */
  lemma SecondStep()
    ensures Step(Two(), AfterFirst, Order, false) == Ok(AfterSecond)
  {
    Distinct();
    SecondPairFound();
    SecondBroken();
    SecondAssigned();
    SecondSettled();
  }

  /** Corrected, the third iteration finds no pair for l1 and empties the
      list. */
  lemma ThirdStep()
    ensures Step(Two(), AfterSecond, Order, false) == Ok(AfterSecond.(usl := []))
  {
    Distinct();
    var e: seq<Id> := [];
    assert PairValid(Two(), AfterSecond, "s1", "p2", "l1") == Ok(false);
    assert ["p2"][1..] == e && ["s1"][1..] == e;
    assert FirstProject(Two(), AfterSecond, "s1", "l1", ["p2"]) == Ok(None);
    assert FindPair(Two(), AfterSecond, "l1") == Ok(None);
    RemoveOnly("l1");
  }

  lemma RunCorrected(fuel: nat)
    requires fuel >= 3
    ensures Run(Two(), Init(Two(), Order), Order, fuel, false) == Some(Ok(AfterSecond.(usl := [])))
  {
    var I := Two();
    assert Init(I, Order) == Start by { StartIsInit(); }
    assert Run(I, Start, Order, fuel, false) == Run(I, AfterFirst, Order, fuel - 1, false) by {
      FirstStep(false);
      RunStep(I, Start, AfterFirst, Order, fuel, false);
    }
    assert Run(I, AfterFirst, Order, fuel - 1, false) == Run(I, AfterSecond, Order, fuel - 2, false) by {
      SecondStep();
      RunStep(I, AfterFirst, AfterSecond, Order, fuel - 1, false);
    }
    assert Run(I, AfterSecond, Order, fuel - 2, false) == Some(Ok(AfterSecond.(usl := []))) by {
      ThirdStep();
      RunStep(I, AfterSecond, AfterSecond.(usl := []), Order, fuel - 2, false);
    }
  }

  /** One step of the outer loop while some lecturer is unassigned. */
  lemma RunStep(I: Instance, s: State, t: State, lorder: seq<Id>, fuel: nat, asWritten: bool)
    requires |s.usl| > 0 && fuel >= 1 && Step(I, s, lorder, asWritten) == Ok(t)
    ensures Run(I, s, lorder, fuel, asWritten) == Run(I, t, lorder, fuel - 1, asWritten)
  {
  }

  /** s1 holds its first choice, so nothing blocks. */
  lemma FinalStable()
    ensures Stable(Two(), map["s1" := Some("p2")], ["s1"])
  {
    Distinct();
    assert RankTable(["p2", "p1"])["p2"] == 0;
  }

  /** The ids the run is given are the instance's. */
  lemma TwoIds()
    ensures Two().students.Keys == {"s1"}
    ensures forall l | l in Order :: l in Two().lecturers
    ensures forall i | 0 <= i < |["s1"]| :: ["s1"][i] in Two().students
  {
  }

  lemma OneEntry(m: map<Id, Id>)
    requires m.Keys == {"s1"} && m["s1"] == "p2"
    ensures m == map["s1" := "p2"]
  {
  }

  /** Corrected, `run` on this instance ends after three iterations with
      s1 on p2 and reports the matching stable. */
  lemma RunCorrectedStable(fuel: nat)
    requires fuel >= 3
    ensures RunAll(Two(), Order, fuel, ["s1"], false) == Some(Ok(Outcome(true, map["s1" := "p2"])))
  {
    RunCorrected(fuel);
    TwoWellFormed();
    TwoIds();
    var t, o := RunReportsStability(Two(), Order, fuel, ["s1"]);
    assert t.sm == map["s1" := Some("p2")];
    FinalStable();
    assert o.stable;
    OneEntry(o.matching);
  }
}
