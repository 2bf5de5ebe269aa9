/** The file and dictionary readers of the Student/Project/Lecturer
    allocation problem with strict preferences. Both read students, projects
    and lecturers as they are, then visit every project once: the project is
    added to its lecturer's project set, and its list becomes the
    lecturer's list projected onto the students who list the project, ranked
    by position. */
module SPAReader {
  import opened Wrappers
  import opened Lists
  import opened Text
  import opened Readers
  import SPA

  /** A project as read, before the visit: `upper_quota` and lecturer. */
  datatype PreProject = PreProject(quota: int, lecturer: Id)

  // ---------------------------------------------------------------------
  // The visit of the projects
  // ---------------------------------------------------------------------

  /** Every project names a known lecturer, and every student that lecturer
      lists is a known student: what the visit's lookups need. */
  predicate Resolvable(pre: map<Id, PreProject>, students: map<Id, seq<Id>>, lecs: map<Id, SPA.Lecturer>) {
    forall p | p in pre ::
      pre[p].lecturer in lecs && forall x | x in lecs[pre[p].lecturer].list :: x in students
  }

  /** A visited project: its list projected from its lecturer's. */
  function Visited(q: PreProject, list: seq<Id>): SPA.Project {
    SPA.Project(q.quota, q.lecturer, list, RankTable(list))
  }

  /** The projects `p` among `ps` that name lecturer `l`. */
  function Offered(ps: set<Id>, pre: map<Id, PreProject>, l: Id): set<Id> {
    set p | p in ps && p in pre && pre[p].lecturer == l
  }

  /** The loop `for project in self.projects`, in the dictionary's order:
      `self.lecturers[lec]` raises KeyError for an unknown lecturer (before
      anything of this project is stored), and the projection raises
      KeyError for a listed student without an entry. */
  function VisitProjects(order: seq<Id>, pre: map<Id, PreProject>, students: map<Id, seq<Id>>,
                         lecs: map<Id, SPA.Lecturer>, done: map<Id, SPA.Project>)
    : Result<(map<Id, SPA.Project>, map<Id, SPA.Lecturer>)>
    requires forall i | 0 <= i < |order| :: order[i] in pre
    decreases |order|
  {
    if |order| == 0 then Ok((done, lecs))
    else
      var p := order[0];
      var l := pre[p].lecturer;
      if l !in lecs then Err(KeyError)
      else
        var lecs' := lecs[l := lecs[l].(projects := lecs[l].projects + {p})];
        var list :- SPA.Projected(lecs[l].list, students, p);
        VisitProjects(order[1..], pre, students, lecs', done[p := Visited(pre[p], list)])
  }

  /** The lecturers after visiting `order`: the project sets grow, nothing
      else changes. */
  ghost predicate Grown(lecs: map<Id, SPA.Lecturer>, lecs': map<Id, SPA.Lecturer>, order: seq<Id>, pre: map<Id, PreProject>) {
    && lecs'.Keys == lecs.Keys
    && forall l | l in lecs ::
         lecs'[l] == lecs[l].(projects := lecs[l].projects + Offered(Elems(order), pre, l))
  }

  /** The visit succeeds exactly when the lookups of the visited projects
      succeed. */
  lemma {:induction false} VisitOk(order: seq<Id>, pre: map<Id, PreProject>, students: map<Id, seq<Id>>,
                                   lecs: map<Id, SPA.Lecturer>, done: map<Id, SPA.Project>)
    requires forall i | 0 <= i < |order| :: order[i] in pre
    ensures VisitProjects(order, pre, students, lecs, done).Ok? <==>
      forall i | 0 <= i < |order| :: pre[order[i]].lecturer in lecs &&
        forall x | x in lecs[pre[order[i]].lecturer].list :: x in students
    decreases |order|
  {
    if |order| > 0 {
      var p := order[0];
      var l := pre[p].lecturer;
      if l in lecs {
        var lecs' := lecs[l := lecs[l].(projects := lecs[l].projects + {p})];
        var list := SPA.Projected(lecs[l].list, students, p);
        if list.Ok? {
          VisitOk(order[1..], pre, students, lecs', done[p := Visited(pre[p], list.value)]);
          assert forall i | 1 <= i < |order| :: order[i] == order[1..][i - 1];
          assert forall k | k in lecs :: lecs'[k].list == lecs[k].list;
        }
      }
    }
  }

  /** The lecturers after a successful visit: each project set has grown by
      the visited projects naming the lecturer. */
  lemma {:induction false} VisitLecturers(order: seq<Id>, pre: map<Id, PreProject>, students: map<Id, seq<Id>>,
                                          lecs: map<Id, SPA.Lecturer>, done: map<Id, SPA.Project>)
    requires forall i | 0 <= i < |order| :: order[i] in pre
    requires VisitProjects(order, pre, students, lecs, done).Ok?
    ensures Grown(lecs, VisitProjects(order, pre, students, lecs, done).value.1, order, pre)
    decreases |order|
  {
    if |order| > 0 {
      var p := order[0];
      var l := pre[p].lecturer;
      var lecs' := lecs[l := lecs[l].(projects := lecs[l].projects + {p})];
      var list := SPA.Projected(lecs[l].list, students, p).value;
      VisitLecturers(order[1..], pre, students, lecs', done[p := Visited(pre[p], list)]);
      var r := VisitProjects(order, pre, students, lecs, done).value.1;
      assert Elems(order) == {p} + Elems(order[1..]);
      forall k | k in lecs ensures r[k] == lecs[k].(projects := lecs[k].projects + Offered(Elems(order), pre, k)) {
        assert Offered(Elems(order), pre, k) == (if k == l then {p} else {}) + Offered(Elems(order[1..]), pre, k);
      }
    }
  }

  /** The projects after a successful visit: a visited project gets the
      list projected from its lecturer's list as it was (the visit changes
      only project sets); any other project keeps what it had. */
  lemma {:induction false} VisitProject(order: seq<Id>, pre: map<Id, PreProject>, students: map<Id, seq<Id>>,
                                        lecs: map<Id, SPA.Lecturer>, done: map<Id, SPA.Project>, q: Id)
    requires forall i | 0 <= i < |order| :: order[i] in pre
    requires VisitProjects(order, pre, students, lecs, done).Ok?
    requires q in order || q in done
    ensures var r := VisitProjects(order, pre, students, lecs, done).value.0;
      && q in r
      && (q in order ==> pre[q].lecturer in lecs && SPA.Projected(lecs[pre[q].lecturer].list, students, q).Ok?
                         && r[q] == Visited(pre[q], SPA.Projected(lecs[pre[q].lecturer].list, students, q).value))
      && (q !in order ==> r[q] == done[q])
    decreases |order|
  {
    if |order| > 0 {
      var p := order[0];
      var l := pre[p].lecturer;
      var lecs' := lecs[l := lecs[l].(projects := lecs[l].projects + {p})];
      var list := SPA.Projected(lecs[l].list, students, p).value;
      var done' := done[p := Visited(pre[p], list)];
      assert forall k | k in lecs :: lecs'[k].list == lecs[k].list;
      if q in order[1..] {
        VisitProject(order[1..], pre, students, lecs', done', q);
      } else {
        VisitProject(order[1..], pre, students, lecs', done', q);
        assert q == p || q !in order;
      }
    }
  }

  /** The visit builds no project it was not given. */
  lemma {:induction false} VisitKeys(order: seq<Id>, pre: map<Id, PreProject>, students: map<Id, seq<Id>>,
                                     lecs: map<Id, SPA.Lecturer>, done: map<Id, SPA.Project>)
    requires forall i | 0 <= i < |order| :: order[i] in pre
    requires VisitProjects(order, pre, students, lecs, done).Ok?
    ensures VisitProjects(order, pre, students, lecs, done).value.0.Keys == done.Keys + Elems(order)
    decreases |order|
  {
    if |order| > 0 {
      var p := order[0];
      var l := pre[p].lecturer;
      var lecs' := lecs[l := lecs[l].(projects := lecs[l].projects + {p})];
      var list := SPA.Projected(lecs[l].list, students, p).value;
      VisitKeys(order[1..], pre, students, lecs', done[p := Visited(pre[p], list)]);
      assert Elems(order) == {p} + Elems(order[1..]);
    }
  }

  /** The instance both readers build, stated without the loop: every
      project gets the list projected from its lecturer's, ranked by
      position, and every lecturer's project set is exactly its projects. */
  function Assemble(pre: map<Id, PreProject>, students: map<Id, seq<Id>>, lecs: map<Id, SPA.Lecturer>)
    : (r: Result<SPA.Instance>)
    ensures r.Ok? <==> Resolvable(pre, students, lecs)
    ensures r.Err? ==> r.error == KeyError
  {
    if !Resolvable(pre, students, lecs) then Err(KeyError)
    else
      var projects := map p | p in pre :: Visited(pre[p], SPA.Projected(lecs[pre[p].lecturer].list, students, p).value);
      var lecturers := map l | l in lecs :: lecs[l].(projects := lecs[l].projects + Offered(pre.Keys, pre, l));
      Ok(SPA.Instance(students, projects, lecturers))
  }

  /** The visit in any order of the projects succeeds exactly when the
      lookups `Assemble` describes succeed. */
  lemma VisitAnyOrderOk(order: seq<Id>, pre: map<Id, PreProject>, students: map<Id, seq<Id>>, lecs: map<Id, SPA.Lecturer>)
    requires Enumerates(order, pre.Keys)
    ensures VisitProjects(order, pre, students, lecs, map[]).Ok? <==> Resolvable(pre, students, lecs)
  {
    VisitOk(order, pre, students, lecs, map[]);
    if VisitProjects(order, pre, students, lecs, map[]).Ok? {
      forall p | p in pre ensures pre[p].lecturer in lecs && forall x | x in lecs[pre[p].lecturer].list :: x in students {
        var i :| 0 <= i < |order| && order[i] == p;
      }
    }
  }

  /** The visit in ANY order of the projects builds the instance `Assemble`
      describes: the order of the dictionary does not matter. */
  lemma VisitAnyOrder(order: seq<Id>, pre: map<Id, PreProject>, students: map<Id, seq<Id>>, lecs: map<Id, SPA.Lecturer>)
    requires Enumerates(order, pre.Keys)
    ensures VisitProjects(order, pre, students, lecs, map[]).Ok? == Assemble(pre, students, lecs).Ok?
    ensures var v := VisitProjects(order, pre, students, lecs, map[]);
      v.Ok? ==> SPA.Instance(students, v.value.0, v.value.1) == Assemble(pre, students, lecs).value
  {
    VisitAnyOrderOk(order, pre, students, lecs);
    var v := VisitProjects(order, pre, students, lecs, map[]);
    if v.Ok? {
      VisitBuildsProjects(order, pre, students, lecs);
      VisitLecturers(order, pre, students, lecs, map[]);
      assert Elems(order) == pre.Keys;
      assert v.value.1 == Assemble(pre, students, lecs).value.lecturers;
    }
  }

  /** The projects the visit builds are those `Assemble` describes. */
  lemma VisitBuildsProjects(order: seq<Id>, pre: map<Id, PreProject>, students: map<Id, seq<Id>>, lecs: map<Id, SPA.Lecturer>)
    requires Enumerates(order, pre.Keys)
    requires VisitProjects(order, pre, students, lecs, map[]).Ok?
    requires Resolvable(pre, students, lecs)
    ensures VisitProjects(order, pre, students, lecs, map[]).value.0 == Assemble(pre, students, lecs).value.projects
  {
    var v := VisitProjects(order, pre, students, lecs, map[]).value.0;
    var A := Assemble(pre, students, lecs).value.projects;
    VisitKeys(order, pre, students, lecs, map[]);
    assert Elems(order) == pre.Keys;
    assert A.Keys == pre.Keys;
    assert v.Keys == A.Keys;
    forall p | p in pre ensures v[p] == A[p] {
      VisitBuildsProject(order, pre, students, lecs, p);
    }
  }

  /** One project the visit builds is the one `Assemble` describes. */
  lemma VisitBuildsProject(order: seq<Id>, pre: map<Id, PreProject>, students: map<Id, seq<Id>>, lecs: map<Id, SPA.Lecturer>, p: Id)
    requires Enumerates(order, pre.Keys)
    requires VisitProjects(order, pre, students, lecs, map[]).Ok?
    requires Resolvable(pre, students, lecs)
    requires p in pre
    ensures p in VisitProjects(order, pre, students, lecs, map[]).value.0
    ensures VisitProjects(order, pre, students, lecs, map[]).value.0[p] == Assemble(pre, students, lecs).value.projects[p]
  {
    assert p in Elems(order);
    VisitProject(order, pre, students, lecs, map[], p);
  }

  /** What a successful read holds: every project's list is its lecturer's
      list filtered to the students listing the project, in the lecturer's
      order and ranked by position; every lecturer's project set is exactly
      the projects naming that lecturer (it was empty before the visit). */
  lemma AssembleFacts(pre: map<Id, PreProject>, students: map<Id, seq<Id>>, lecs: map<Id, SPA.Lecturer>, p: Id, l: Id)
    requires Assemble(pre, students, lecs).Ok?
    requires forall k | k in lecs :: lecs[k].projects == {}
    ensures var I := Assemble(pre, students, lecs).value;
      && I.projects.Keys == pre.Keys && I.lecturers.Keys == lecs.Keys
      && (p in pre ==>
            && I.projects[p].quota == pre[p].quota && I.projects[p].lecturer == pre[p].lecturer
            && I.projects[p].list == Filter(lecs[pre[p].lecturer].list, set x | x in students && p in students[x])
            && I.projects[p].rank == RankTable(I.projects[p].list))
      && (l in lecs ==>
            && I.lecturers[l].list == lecs[l].list && I.lecturers[l].quota == lecs[l].quota
            && I.lecturers[l].rank == lecs[l].rank
            && forall q :: q in I.lecturers[l].projects <==> q in pre && pre[q].lecturer == l)
  {
    if p in pre {
      ProjectAsAssembled(pre, students, lecs, p);
    }
    if l in lecs {
      LecturerAsAssembled(pre, students, lecs, l);
    }
  }

  /** A project as the assembly builds it. */
  lemma ProjectAsAssembled(pre: map<Id, PreProject>, students: map<Id, seq<Id>>, lecs: map<Id, SPA.Lecturer>, p: Id)
    requires Assemble(pre, students, lecs).Ok? && p in pre
    ensures var I := Assemble(pre, students, lecs).value;
      && p in I.projects
      && I.projects[p].quota == pre[p].quota && I.projects[p].lecturer == pre[p].lecturer
      && I.projects[p].list == Filter(lecs[pre[p].lecturer].list, set x | x in students && p in students[x])
      && I.projects[p].rank == RankTable(I.projects[p].list)
  {
    SPA.ProjectedIsFilter(lecs[pre[p].lecturer].list, students, p);
  }

  /** A lecturer as the assembly builds it, from an empty project set. */
  lemma LecturerAsAssembled(pre: map<Id, PreProject>, students: map<Id, seq<Id>>, lecs: map<Id, SPA.Lecturer>, l: Id)
    requires Assemble(pre, students, lecs).Ok? && l in lecs && lecs[l].projects == {}
    ensures var I := Assemble(pre, students, lecs).value;
      && l in I.lecturers
      && I.lecturers[l].list == lecs[l].list && I.lecturers[l].quota == lecs[l].quota
      && I.lecturers[l].rank == lecs[l].rank
      && forall q :: q in I.lecturers[l].projects <==> q in pre && pre[q].lecturer == l
  {
  }

  /** What the visit needs to produce a well-formed instance. */
  ghost predicate Valid(pre: map<Id, PreProject>, students: map<Id, seq<Id>>, lecs: map<Id, SPA.Lecturer>) {
    Fresh(lecs) && Sound(pre, students, lecs)
  }

  /** Lecturers as both readers build them: no project yet, and position
      rank tables. */
  ghost predicate Fresh(lecs: map<Id, SPA.Lecturer>) {
    forall l | l in lecs :: lecs[l].projects == {} && lecs[l].rank == RankTable(lecs[l].list)
  }

  /** What the instance's author must get right: positive quotas, lists
      without repetitions, known ids, and every student listed by the
      lecturer of every project it lists. */
  ghost predicate Sound(pre: map<Id, PreProject>, students: map<Id, seq<Id>>, lecs: map<Id, SPA.Lecturer>) {
    && (forall x | x in students :: NoDup(students[x]) && forall p | p in students[x] :: p in pre)
    && (forall p | p in pre :: pre[p].quota >= 1 && pre[p].lecturer in lecs)
    && (forall l | l in lecs ::
          && lecs[l].quota >= 1 && NoDup(lecs[l].list)
          && forall x | x in lecs[l].list :: x in students)
    && (forall x, p {:trigger p in students[x]} | x in students && p in students[x] ::
          x in lecs[pre[p].lecturer].list)
  }

  /** On valid sections the visit cannot fail and builds a well-formed
      instance. */
  lemma AssembleWellFormed(pre: map<Id, PreProject>, students: map<Id, seq<Id>>, lecs: map<Id, SPA.Lecturer>)
    requires Valid(pre, students, lecs)
    ensures Assemble(pre, students, lecs).Ok?
    ensures SPA.WellFormed(Assemble(pre, students, lecs).value)
  {
    var I := Assemble(pre, students, lecs).value;
    forall p | p in I.projects
      ensures && I.projects[p].quota >= 1
              && I.projects[p].lecturer in I.lecturers
              && SPA.Projected(I.lecturers[I.projects[p].lecturer].list, I.students, p) == Ok(I.projects[p].list)
              && I.projects[p].rank == RankTable(I.projects[p].list)
    {
      AssembledProject(pre, students, lecs, p);
    }
    forall l | l in I.lecturers
      ensures && I.lecturers[l].quota >= 1
              && NoDup(I.lecturers[l].list)
              && I.lecturers[l].rank == RankTable(I.lecturers[l].list)
              && (forall x | x in I.lecturers[l].list :: x in I.students)
              && (forall q {:trigger q in I.lecturers[l].projects} ::
                    q in I.lecturers[l].projects <==> q in I.projects && I.projects[q].lecturer == l)
    {
      AssembledLecturer(pre, students, lecs, l);
    }
  }

  /** A project of a valid assembly. */
  lemma AssembledProject(pre: map<Id, PreProject>, students: map<Id, seq<Id>>, lecs: map<Id, SPA.Lecturer>, p: Id)
    requires Valid(pre, students, lecs) && p in pre
    ensures Assemble(pre, students, lecs).Ok?
    ensures var I := Assemble(pre, students, lecs).value;
      && p in I.projects
      && I.projects[p].quota >= 1
      && I.projects[p].lecturer in I.lecturers
      && SPA.Projected(I.lecturers[I.projects[p].lecturer].list, I.students, p) == Ok(I.projects[p].list)
      && I.projects[p].rank == RankTable(I.projects[p].list)
  {
  }

  /** A lecturer of a valid assembly. */
  lemma AssembledLecturer(pre: map<Id, PreProject>, students: map<Id, seq<Id>>, lecs: map<Id, SPA.Lecturer>, l: Id)
    requires Valid(pre, students, lecs) && l in lecs
    ensures Assemble(pre, students, lecs).Ok?
    ensures var I := Assemble(pre, students, lecs).value;
      && l in I.lecturers
      && I.lecturers[l].quota >= 1
      && NoDup(I.lecturers[l].list)
      && I.lecturers[l].rank == RankTable(I.lecturers[l].list)
      && (forall x | x in I.lecturers[l].list :: x in I.students)
      && (forall q {:trigger q in I.lecturers[l].projects} ::
            q in I.lecturers[l].projects <==> q in I.projects && I.projects[q].lecturer == l)
  {
    var I := Assemble(pre, students, lecs).value;
    assert I.lecturers[l].projects == Offered(pre.Keys, pre, l);
  }

  // ---------------------------------------------------------------------
  // The file reader
  // ---------------------------------------------------------------------

  /** A project line `id capacity lecturer`, built before its key as the
      SPA-P reader's project line is. */
  function ProjectLine(line: string): (r: Result<(Id, PreProject)>)
    ensures r.Ok? <==> Readers.ProjectLine(line).Ok?
    ensures r.Err? ==> r.error == Readers.ProjectLine(line).error
  {
    var (p, e) :- Readers.ProjectLine(line);
    Ok((p, PreProject(e.capacity, e.lecturer)))
  }

  /** A lecturer line `id capacity s1 s2 ...`: the key `entry[0]` first,
      then `int(entry[1])`; the project set starts empty. */
  function LecturerLine(line: string): (r: Result<(Id, SPA.Lecturer)>)
    ensures r.Ok? <==> |Words(line)| >= 2 && ParseInt(Words(line)[1]).Some?
    ensures r.Err? ==> r.error == (if |Words(line)| < 2 then IndexError else ValueError)
    ensures r.Ok? ==> r.value.1.projects == {} && r.value.1.rank == RankTable(r.value.1.list)
  {
    var e := Words(line);
    if |e| == 0 then Err(IndexError)
    else if |e| < 2 then Err(IndexError)
    else if ParseInt(e[1]).None? then Err(ValueError)
    else
      var list := Prefixed("s", e[2..]);
      Ok(("l" + e[0], SPA.Lecturer(ParseInt(e[1]).value, {}, list, RankTable(list))))
  }

  /** The three sections of a file whose header gave `ns` students, `np`
      projects and `nl` lecturers. */
  function SPASections(file: seq<string>, ns: int, np: int, nl: int)
    : (r: Result<(map<Id, Agent>, map<Id, PreProject>, map<Id, SPA.Lecturer>)>)
    ensures r.Ok? ==> ReadLines(PySlice(file, ns + np + 1, ns + np + nl + 1), LecturerLine) == Ok(r.value.2)
  {
    var students :- ReadLines(PySlice(file, 1, ns + 1), AgentLine("s", "p"));
    var projects :- ReadLines(PySlice(file, ns + 1, ns + np + 1), ProjectLine);
    var lecturers :- ReadLines(PySlice(file, ns + np + 1, ns + np + nl + 1), LecturerLine);
    Ok((students, projects, lecturers))
  }

  /** `studentProjectAllocation/fileReader.py`: a header of three integers,
      the student, project and lecturer lines, then the visit. */
  function ReadSPAFile(file: seq<string>): (r: Result<SPA.Instance>)
    ensures |file| == 0 ==> r == Err(IndexError)
    ensures |file| > 0 && Header(file[0], 3).Err? ==> r == Err(ValueError)
  {
    if |file| == 0 then Err(IndexError)
    else
      var h :- Header(file[0], 3);
      var sec :- SPASections(file, h[0], h[1], h[2]);
      Assemble(sec.1, ListsOf(sec.0), sec.2)
  }

  // ---------------------------------------------------------------------
  // The dictionary reader
  // ---------------------------------------------------------------------

  /** A project's entry: `capacity` and `lecturer`, either may be missing. */
  datatype ProjectEntry = ProjectEntry(capacity: Option<int>, lecturer: Option<string>)

  /** The `projects` section: `v["capacity"]`, then `v['lecturer']`; a
      missing key raises KeyError. */
  function ProjectsSide(P: map<string, ProjectEntry>): (r: Result<map<Id, PreProject>>)
    ensures r.Ok? <==> forall k | k in P :: P[k].capacity.Some? && P[k].lecturer.Some?
    ensures r.Err? ==> r.error == KeyError
    ensures r.Ok? ==> forall k | k in P :: "p" + k in r.value && r.value["p" + k] == PreProject(P[k].capacity.value, "l" + P[k].lecturer.value)
    ensures r.Ok? ==> forall x | x in r.value :: exists k | k in P :: x == "p" + k
  {
    if forall k | k in P :: P[k].capacity.Some? && P[k].lecturer.Some? then
      PrefixInjective("p");
      Ok(map k | k in P :: "p" + k := PreProject(P[k].capacity.value, "l" + P[k].lecturer.value))
    else Err(KeyError)
  }

  /** The `lecturers` section: `v["capacity"]` and `v["preferences"]`; a
      missing key raises KeyError. */
  function LecturersSide(L: map<string, Entry>): (r: Result<map<Id, SPA.Lecturer>>)
    ensures r.Ok? <==> forall k | k in L :: Complete(L[k])
    ensures r.Err? ==> r.error == KeyError
    ensures r.Ok? ==> forall k | k in L :: "l" + k in r.value && r.value["l" + k] == AsLecturer(L[k])
    ensures r.Ok? ==> forall x | x in r.value :: exists k | k in L :: x == "l" + k
  {
    if forall k | k in L :: Complete(L[k]) then
      PrefixInjective("l");
      Ok(map k | k in L :: "l" + k := AsLecturer(L[k]))
    else Err(KeyError)
  }

  /** The lecturer a complete entry describes, with no project yet. */
  function AsLecturer(e: Entry): SPA.Lecturer
    requires Complete(e)
  {
    var list := Prefixed("s", e.preferences.value);
    SPA.Lecturer(e.capacity.value, {}, list, RankTable(list))
  }

  /** `studentProjectAllocation/dictionaryReader.py`: the three sections
      (an absent one reads as empty), then the visit. */
  function ReadSPADict(S: map<string, seq<string>>, P: map<string, ProjectEntry>, L: map<string, Entry>)
    : (r: Result<SPA.Instance>)
    ensures (exists k | k in P :: P[k].capacity.None? || P[k].lecturer.None?) ==> r == Err(KeyError)
    ensures (exists k | k in L :: !Complete(L[k])) ==> r == Err(KeyError)
  {
    var projects :- ProjectsSide(P);
    var lecturers :- LecturersSide(L);
    Assemble(projects, ListsOf(DictSide(S, "s", "p")), lecturers)
  }

  // ---------------------------------------------------------------------
  // Both readers produce well-formed instances from sound input
  // ---------------------------------------------------------------------

  /** Lecturer lines give lecturers with no project yet. */
  lemma {:induction false} LecturerLinesFresh(lines: seq<string>)
    requires ReadLines(lines, LecturerLine).Ok?
    ensures Fresh(ReadLines(lines, LecturerLine).value)
  {
    var m := ReadLines(lines, LecturerLine).value;
    forall l | l in m ensures m[l].projects == {} && m[l].rank == RankTable(m[l].list) {
      ReadLinesValues(lines, LecturerLine, l);
      var i :| 0 <= i < |lines| && LecturerLine(lines[i]) == Ok((l, m[l]));
    }
  }

  /** A file whose header and sections read, and whose sections are sound,
      reads to a well-formed instance. */
  lemma ReadSPAFileWellFormed(file: seq<string>, h: seq<int>, sec: (map<Id, Agent>, map<Id, PreProject>, map<Id, SPA.Lecturer>))
    requires |file| > 0 && Header(file[0], 3) == Ok(h)
    requires SPASections(file, h[0], h[1], h[2]) == Ok(sec)
    requires Sound(sec.1, ListsOf(sec.0), sec.2)
    ensures ReadSPAFile(file).Ok? && SPA.WellFormed(ReadSPAFile(file).value)
  {
    LecturerLinesFresh(PySlice(file, h[0] + h[1] + 1, h[0] + h[1] + h[2] + 1));
    AssembleWellFormed(sec.1, ListsOf(sec.0), sec.2);
  }

  /** A dictionary whose entries are complete and sound reads to a
      well-formed instance. */
  lemma ReadSPADictWellFormed(S: map<string, seq<string>>, P: map<string, ProjectEntry>, L: map<string, Entry>)
    requires ProjectsSide(P).Ok? && LecturersSide(L).Ok?
    requires Sound(ProjectsSide(P).value, ListsOf(DictSide(S, "s", "p")), LecturersSide(L).value)
    ensures ReadSPADict(S, P, L).Ok? && SPA.WellFormed(ReadSPADict(S, P, L).value)
  {
    var lecs := LecturersSide(L).value;
    forall l | l in lecs ensures lecs[l].projects == {} && lecs[l].rank == RankTable(lecs[l].list) {
      var k :| k in L && l == "l" + k;
    }
    AssembleWellFormed(ProjectsSide(P).value, ListsOf(DictSide(S, "s", "p")), lecs);
  }
}
