/** The Student/Project/Lecturer allocation instance (strict preferences)
    as `SPAPreferenceInstance` holds it after reading: students' project
    lists, projects with their quota, lecturer and projected student list,
    and lecturers with their quota, project set and student list. Rank tables
    are the position tables of the lists. */
module SPA {
  import opened Wrappers
  import opened Lists

  type Id = string

  /** A project: `upper_quota`, `lecturer`, the projected list L_k^j and
      its rank table. */
  datatype Project = Project(quota: int, lecturer: Id, list: seq<Id>, rank: map<Id, nat>)

  /** A lecturer: `upper_quota`, the set P_k of projects offered, the
      student list L_k and its rank table. */
  datatype Lecturer = Lecturer(quota: int, projects: set<Id>, list: seq<Id>, rank: map<Id, nat>)

  datatype Instance = Instance(students: map<Id, seq<Id>>, projects: map<Id, Project>, lecturers: map<Id, Lecturer>)

  /** The projected list L_k^j: `[stu for stu in lecturer_list if project in
      students[stu]["list"]]`; a student the lecturer lists but who has no
      entry raises KeyError. */
  function Projected(lecList: seq<Id>, students: map<Id, seq<Id>>, p: Id): (r: Result<seq<Id>>)
    ensures r.Ok? <==> forall x | x in lecList :: x in students
    ensures r.Ok? ==> forall x {:trigger x in r.value} :: x in r.value <==> x in lecList && p in students[x]
    ensures r.Ok? ==> |r.value| <= |lecList|
  {
    if |lecList| == 0 then Ok([])
    else
      var x := lecList[0];
      assert forall y :: y in lecList <==> y == x || y in lecList[1..];
      if x !in students then Err(KeyError)
      else
        var rest :- Projected(lecList[1..], students, p);
        Ok((if p in students[x] then [x] else []) + rest)
  }

  /** The projected list keeps the lecturer's order: it is the lecturer's
      list filtered to the students listing the project. */
  lemma {:induction false} ProjectedIsFilter(lecList: seq<Id>, students: map<Id, seq<Id>>, p: Id)
    requires forall x | x in lecList :: x in students
    ensures Projected(lecList, students, p) == Ok(Filter(lecList, set x | x in students && p in students[x]))
  {
    if |lecList| > 0 {
      ProjectedIsFilter(lecList[1..], students, p);
    }
  }

  /** A projected list has no repetitions when the lecturer's has none. */
  lemma ProjectedNoDup(lecList: seq<Id>, students: map<Id, seq<Id>>, p: Id)
    requires NoDup(lecList) && forall x | x in lecList :: x in students
    ensures NoDup(Projected(lecList, students, p).value)
  {
    ProjectedIsFilter(lecList, students, p);
    FilterNoDup(lecList, set x | x in students && p in students[x]);
  }

  /** What both readers produce on an instance the loops are meant for:
      lists without repetitions and with known ids, position rank tables,
      each project's list projected from its lecturer's, each lecturer's
      project set exactly its projects, every student ranked by the
      lecturer of every project it lists, and positive quotas. */
  ghost predicate WellFormed(I: Instance) {
    && (forall x | x in I.students ::
          NoDup(I.students[x]) && forall p | p in I.students[x] :: p in I.projects)
    && (forall p | p in I.projects ::
          && I.projects[p].quota >= 1
          && I.projects[p].lecturer in I.lecturers
          && Projected(I.lecturers[I.projects[p].lecturer].list, I.students, p) == Ok(I.projects[p].list)
          && I.projects[p].rank == RankTable(I.projects[p].list))
    && (forall l | l in I.lecturers ::
          && I.lecturers[l].quota >= 1
          && NoDup(I.lecturers[l].list)
          && I.lecturers[l].rank == RankTable(I.lecturers[l].list)
          && (forall x | x in I.lecturers[l].list :: x in I.students)
          && (forall p {:trigger p in I.lecturers[l].projects} ::
                p in I.lecturers[l].projects <==> p in I.projects && I.projects[p].lecturer == l))
    && (forall x, p {:trigger p in I.students[x]} | x in I.students && p in I.students[x] ::
          x in I.lecturers[I.projects[p].lecturer].list)
  }

  /** The lecturer offering `p`. */
  function LecturerOf(I: Instance, p: Id): Id
    requires p in I.projects
  {
    I.projects[p].lecturer
  }

  /** On a well-formed instance a project's list holds exactly the students
      who list the project, without repetitions, and they are on its
      lecturer's list. */
  lemma ProjectFacts(I: Instance, p: Id)
    requires WellFormed(I) && p in I.projects
    ensures NoDup(I.projects[p].list)
    ensures forall x :: x in I.projects[p].list <==> x in I.students && p in I.students[x]
    ensures forall x | x in I.projects[p].list :: x in I.lecturers[LecturerOf(I, p)].list
  {
    var L := I.lecturers[LecturerOf(I, p)];
    ProjectedNoDup(L.list, I.students, p);
  }

  /** What a well-formed instance says about a student and a project it
      lists: the project and its lecturer exist and both rank the student. */
  lemma StudentFacts(I: Instance, x: Id, p: Id)
    requires WellFormed(I) && x in I.students && p in I.students[x]
    ensures p in I.projects && LecturerOf(I, p) in I.lecturers
    ensures x in I.projects[p].list && x in I.projects[p].rank
    ensures x in I.lecturers[LecturerOf(I, p)].list && x in I.lecturers[LecturerOf(I, p)].rank
  {
    ProjectFacts(I, p);
  }

  /** What a well-formed instance says about a project. */
  lemma ProjectBasics(I: Instance, p: Id)
    requires WellFormed(I) && p in I.projects
    ensures I.projects[p].quota >= 1 && LecturerOf(I, p) in I.lecturers
    ensures NoDup(I.projects[p].list) && I.projects[p].rank == RankTable(I.projects[p].list)
    ensures p in I.lecturers[LecturerOf(I, p)].projects
  {
    ProjectFacts(I, p);
  }

  /** What a well-formed instance says about a lecturer. */
  lemma LecturerBasics(I: Instance, l: Id)
    requires WellFormed(I) && l in I.lecturers
    ensures I.lecturers[l].quota >= 1
    ensures NoDup(I.lecturers[l].list) && I.lecturers[l].rank == RankTable(I.lecturers[l].list)
    ensures forall x | x in I.lecturers[l].list :: x in I.students
    ensures forall p :: p in I.lecturers[l].projects <==> p in I.projects && LecturerOf(I, p) == l
  {
  }

  /** The part of well-formedness that the worst-pointer and quota arithmetic of
      the loops relies on: positive quotas, and lists without repetitions
      whose rank tables are their position tables. */
  ghost predicate Ranked(I: Instance) {
    && (forall p | p in I.projects ::
          I.projects[p].quota >= 1 && NoDup(I.projects[p].list) && I.projects[p].rank == RankTable(I.projects[p].list))
    && (forall l | l in I.lecturers ::
          I.lecturers[l].quota >= 1 && NoDup(I.lecturers[l].list) && I.lecturers[l].rank == RankTable(I.lecturers[l].list))
  }

  /** Every project a lecturer offers names that lecturer. */
  ghost predicate Offered(I: Instance) {
    forall l, q {:trigger q in I.lecturers[l].projects} | l in I.lecturers && q in I.lecturers[l].projects ::
      q in I.projects && I.projects[q].lecturer == l
  }

  lemma WellFormedRanked(I: Instance)
    requires WellFormed(I)
    ensures Ranked(I) && Offered(I)
  {
    forall p | p in I.projects
      ensures I.projects[p].quota >= 1 && NoDup(I.projects[p].list) && I.projects[p].rank == RankTable(I.projects[p].list)
    {
      ProjectFacts(I, p);
    }
  }
}
