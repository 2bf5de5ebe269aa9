/** `SPASTAbstract`: the stability-type argument, the selectors of the worst
    assigned student, the three super-stability blocking conditions, the
    super-stability check, the two saved views and `run`. */
module SpastCheck {
  import opened Wrappers
  import opened Lists
  import opened Ties
  import opened SpastReader

  // ---------------------------------------------------------------------
  // The stability type

  /** The `stability_type` argument: absent, a string, or another value. */
  datatype StabilityArg = NoType | TypeStr(s: string) | OtherType

  function LowerChar(c: char): char {
    if 'A' <= c <= 'Z' then (c as int + 32) as char else c
  }

  /** `str.lower` on ASCII letters. */
  function Lower(s: string): (r: string)
    ensures |r| == |s|
    ensures forall i | 0 <= i < |s| :: r[i] == LowerChar(s[i])
  {
    seq(|s|, i requires 0 <= i < |s| => LowerChar(s[i]))
  }

  /** `_assert_valid_stability_type` followed by `.lower()`: a string whose
      lower case is "super" or "strong" is kept in lower case; anything else
      fails the assertion. */
  function StabilityType(st: StabilityArg): (r: Result<string>)
    ensures r.Ok? <==> st.TypeStr? && Lower(st.s) in ["super", "strong"]
    ensures r.Ok? ==> r.value == Lower(st.s) && r.value in ["super", "strong"]
    ensures r.Err? ==> r.error == AssertionError
  {
    if st.TypeStr? && Lower(st.s) in ["super", "strong"] then Ok(Lower(st.s))
    else Err(AssertionError)
  }

  /** The accepted types are case-insensitive, and accepting is idempotent:
      the stored type is accepted again as itself. */
  lemma {:induction false} StabilityTypeCaseInsensitive(s: string)
    ensures StabilityType(TypeStr(s)) == StabilityType(TypeStr(Lower(s)))
    ensures StabilityType(TypeStr(s)).Ok? ==> StabilityType(TypeStr(StabilityType(TypeStr(s)).value)) == StabilityType(TypeStr(s))
  {
    assert Lower(Lower(s)) == Lower(s);
  }

  lemma StabilityTypeExamples()
    ensures StabilityType(TypeStr("Super")) == Ok("super")
    ensures StabilityType(TypeStr("weak")).Err?
    ensures StabilityType(NoType) == Err(AssertionError)
  {
    assert Lower("Super") == "super";
    assert Lower("weak") == "weak";
  }

  // ---------------------------------------------------------------------
  // The worst assigned student

  /** Every element of `xs` has a rank. */
  predicate Ranked(xs: seq<Id>, rank: map<Id, nat>) {
    forall j | 0 <= j < |xs| :: xs[j] in rank
  }

  /** `xs[i]` has the greatest rank in `xs`, and no earlier element has it. */
  ghost predicate FirstMax(xs: seq<Id>, rank: map<Id, nat>, i: nat)
    requires Ranked(xs, rank)
  {
    && i < |xs|
    && (forall j | 0 <= j < |xs| :: rank[xs[j]] <= rank[xs[i]])
    && (forall j | 0 <= j < i :: rank[xs[j]] < rank[xs[i]])
  }

  /** `min(xs, key=lambda x: -rank[x])`: the scan keeps its candidate
      unless a later element has a strictly greater rank. */
  function MaxFirst(xs: seq<Id>, rank: map<Id, nat>): (i: nat)
    requires |xs| > 0 && Ranked(xs, rank)
    ensures FirstMax(xs, rank, i)
  {
    if |xs| == 1 then 0
    else
      var n := |xs| - 1;
      var j := MaxFirst(xs[..n], rank);
      if rank[xs[j]] < rank[xs[n]] then n else j
  }

  /** `_get_lecturer_worst_existing_student` and
      `_get_project_worst_existing_student` on an assigned set listed in
      iteration order: None when it is empty, KeyError when a member has no
      rank, else the first member of greatest rank. */
  function Worst(xs: seq<Id>, rank: map<Id, nat>): (r: Result<Option<Id>>)
    ensures |xs| == 0 ==> r == Ok(None)
    ensures |xs| > 0 ==> (r.Ok? <==> Ranked(xs, rank))
    ensures |xs| > 0 && r.Ok? ==> r.value.Some? && exists i: nat | i < |xs| :: FirstMax(xs, rank, i) && xs[i] == r.value.value
  {
    if |xs| == 0 then Ok(None)
    else if !Ranked(xs, rank) then Err(KeyError)
    else Ok(Some(xs[MaxFirst(xs, rank)]))
  }

  /** The worst student is ranked at least as high as `s` exactly when
      some assigned student is. */
  lemma WorstDominates(xs: seq<Id>, rank: map<Id, nat>, s: Id)
    requires |xs| > 0 && Ranked(xs, rank) && s in rank
    ensures Worst(xs, rank).Ok? && Worst(xs, rank).value.Some?
    ensures Worst(xs, rank).value.value in rank
    ensures rank[s] <= rank[Worst(xs, rank).value.value] <==> exists x | x in xs :: rank[s] <= rank[x]
  {
    var i := MaxFirst(xs, rank);
    if exists x | x in xs :: rank[s] <= rank[x] {
      var x :| x in xs && rank[s] <= rank[x];
      var j :| 0 <= j < |xs| && xs[j] == x;
    }
  }

  // ---------------------------------------------------------------------
  // The state the check reads

  /** A student's record: `list` and `rank`. */
  datatype Student = Student(list: seq<Entity>, rank: map<Id, nat>)

  /** What the check reads: the original students, the working projects
      and lecturers, the original lecturers, and the provisional matching
      `M`, where each agent's assigned set is listed in iteration order. */
  datatype State = State(
    students: map<Id, Student>,
    projects: map<Id, Project>,
    lecturers: map<Id, Lecturer>,
    original: map<Id, Lecturer>,
    alloc: map<Id, seq<Id>>)

  /** Which key the conditions read a capacity under, and whether a
      matched student's candidates include the tie of their project. */
  datatype Reading = Reading(capacityKey: string, inclusive: bool)

  /** The check as written: `["capacity"]`, and `list[:rank]`. */
  const AsWritten: Reading := Reading("capacity", false)

  /** The check as intended: the key the readers store, and every tie up
      to and including the matched project's. */
  const Intended: Reading := Reading(QuotaKey, true)

  /** `record[key]` on a record whose quota is stored under `storedKey`. */
  function Capacity(storedKey: string, quota: int, key: string): (r: Result<int>)
    ensures r.Ok? <==> storedKey == key
    ensures r.Ok? ==> r.value == quota
    ensures r.Err? ==> r.error == KeyError
  {
    if storedKey == key then Ok(quota) else Err(KeyError)
  }

  // ---------------------------------------------------------------------
  // The blocking conditions

  /** Every lookup a condition makes for `p` and its lecturer `l`
      succeeds. */
  predicate Capacities(rd: Reading, S: State, p: Id, l: Id) {
    && p in S.projects && l in S.original && p in S.alloc && l in S.alloc
    && S.projects[p].quotaKey == rd.capacityKey && S.original[l].quotaKey == rd.capacityKey
  }

  /** `_blocking_pair_bi`: both the project and the lecturer are
      undersubscribed. */
  function Bi(rd: Reading, S: State, p: Id, l: Id): (r: Result<bool>)
    ensures r.Ok? <==> Capacities(rd, S, p, l)
    ensures r.Ok? ==> (r.value <==> |S.alloc[p]| < S.projects[p].quota && |S.alloc[l]| < S.original[l].quota)
  {
    if p !in S.projects || l !in S.original then Err(KeyError)
    else
      var cj :- Capacity(S.projects[p].quotaKey, S.projects[p].quota, rd.capacityKey);
      var dk :- Capacity(S.original[l].quotaKey, S.original[l].quota, rd.capacityKey);
      if p !in S.alloc || l !in S.alloc then Err(KeyError)
      else Ok(|S.alloc[p]| < cj && |S.alloc[l]| < dk)
  }

  /** `_blocking_pair_bii`: the project is undersubscribed, the lecturer
      full, and the student is assigned to the lecturer already or ranked
      by the lecturer at least as high as the worst of their students. */
  function Bii(rd: Reading, S: State, s: Id, p: Id, l: Id): (r: Result<bool>)
    ensures r.Ok? ==> Capacities(rd, S, p, l)
    ensures r.Ok? && r.value ==> |S.alloc[p]| < S.projects[p].quota && |S.alloc[l]| == S.original[l].quota
    ensures r.Ok? && r.value && s !in S.alloc[l] ==>
      s in S.original[l].rank && exists x | x in S.alloc[l] :: x in S.original[l].rank && S.original[l].rank[s] <= S.original[l].rank[x]
  {
    if p !in S.projects || l !in S.original then Err(KeyError)
    else
      var cj :- Capacity(S.projects[p].quotaKey, S.projects[p].quota, rd.capacityKey);
      var dk :- Capacity(S.original[l].quotaKey, S.original[l].quota, rd.capacityKey);
      if p !in S.alloc || l !in S.alloc then Err(KeyError)
      else if !(|S.alloc[p]| < cj && |S.alloc[l]| == dk) then Ok(false)
      else if s in S.alloc[l] then Ok(true)
      else
        var ranks := S.original[l].rank;
        if s !in ranks || l !in S.lecturers then Err(KeyError)
        else
          var w := Worst(S.alloc[l], S.lecturers[l].rank);
          if w.Err? then Err(w.error)
          else if w.value.None? || w.value.value !in ranks then Err(KeyError)
          else
            assert w.value.value in S.alloc[l];
            Ok(ranks[s] <= ranks[w.value.value])
  }

  /** `_blocking_pair_biii`: the project is full and ranks the student at
      least as high as the worst of its students. */
  function Biii(rd: Reading, S: State, s: Id, p: Id): (r: Result<bool>)
    ensures r.Ok? ==> p in S.projects && p in S.alloc && S.projects[p].quotaKey == rd.capacityKey
    ensures r.Ok? && r.value ==> |S.alloc[p]| == S.projects[p].quota && s in S.projects[p].rank
    ensures r.Ok? && r.value ==> exists x | x in S.alloc[p] :: x in S.projects[p].rank && S.projects[p].rank[s] <= S.projects[p].rank[x]
  {
    if p !in S.projects then Err(KeyError)
    else
      var cj :- Capacity(S.projects[p].quotaKey, S.projects[p].quota, rd.capacityKey);
      if p !in S.alloc then Err(KeyError)
      else if |S.alloc[p]| != cj then Ok(false)
      else
        var ranks := S.projects[p].rank;
        if s !in ranks then Err(KeyError)
        else
          var w := Worst(S.alloc[p], ranks);
          if w.Err? then Err(w.error)
          else if w.value.None? || w.value.value !in ranks then Err(KeyError)
          else
            assert w.value.value in S.alloc[p];
            Ok(ranks[s] <= ranks[w.value.value])
  }

  /** The three conditions in order for `p` and its lecturer: true at the
      first that holds. */
  function Conditions(rd: Reading, S: State, s: Id, p: Id): (r: Result<bool>)
    ensures r.Ok? ==> p in S.projects && Bi(rd, S, p, S.projects[p].lecturer).Ok?
    ensures r == Ok(true) ==> (p in S.projects &&
      (|| Bi(rd, S, p, S.projects[p].lecturer) == Ok(true)
       || Bii(rd, S, s, p, S.projects[p].lecturer) == Ok(true)
       || Biii(rd, S, s, p) == Ok(true)))
  {
    if p !in S.projects then Err(KeyError)
    else
      var l := S.projects[p].lecturer;
      var b1 :- Bi(rd, S, p, l);
      if b1 then Ok(true)
      else
        var b2 :- Bii(rd, S, s, p, l);
        if b2 then Ok(true) else Biii(rd, S, s, p)
  }

  // ---------------------------------------------------------------------
  // Super-stability, declared

  /** Every lookup the conditions make for student `s` and project `p`
      succeeds under the intended reading, and capacities are positive. */
  ghost predicate Defined(S: State, s: Id, p: Id) {
    && p in S.projects && p in S.alloc
    && var l := S.projects[p].lecturer;
    && l in S.original && l in S.lecturers && l in S.alloc
    && S.projects[p].quotaKey == QuotaKey && S.original[l].quotaKey == QuotaKey
    && S.projects[p].quota > 0 && S.original[l].quota > 0
    && S.lecturers[l].rank == S.original[l].rank
    && s in S.original[l].rank && s in S.projects[p].rank
    && Ranked(S.alloc[l], S.original[l].rank) && Ranked(S.alloc[p], S.projects[p].rank)
  }

  /** Student `s` and project `p` block the matching: (i) the project and
      its lecturer are undersubscribed; (ii) the project is undersubscribed,
      the lecturer full, and the student is theirs already or not ranked
      below one of their students; (iii) the project is full and does not
      rank the student below one of its students. */
  ghost predicate Blocks(S: State, s: Id, p: Id) {
    && Defined(S, s, p)
    && var l := S.projects[p].lecturer;
    var Mp := S.alloc[p];
    var Ml := S.alloc[l];
    var cj := S.projects[p].quota;
    var dk := S.original[l].quota;
    (|| (|Mp| < cj && |Ml| < dk)
     || (|Mp| < cj && |Ml| == dk &&
         (s in Ml || exists x | x in Ml :: S.original[l].rank[s] <= S.original[l].rank[x]))
     || (|Mp| == cj && exists x | x in Mp :: S.projects[p].rank[s] <= S.projects[p].rank[x]))
  }

  /** Under the intended reading the conditions decide `Blocks`. */
  lemma ConditionsIntended(S: State, s: Id, p: Id)
    requires Defined(S, s, p)
    ensures Conditions(Intended, S, s, p) == Ok(Blocks(S, s, p))
  {
    var l := S.projects[p].lecturer;
    var Mp := S.alloc[p];
    var Ml := S.alloc[l];
    if |Ml| > 0 {
      WorstDominates(Ml, S.original[l].rank, s);
    }
    if |Mp| > 0 {
      WorstDominates(Mp, S.projects[p].rank, s);
    }
  }

  /** `s` lists `x` in some tie. */
  ghost predicate Listed(list: seq<Entity>, x: Id) {
    exists g | 0 <= g < |list| :: x in Ids(list[g])
  }

  lemma ConsideredListed(st: Student, mine: seq<Id>, x: Id)
    requires Considered(st, mine, x)
    ensures Listed(st.list, x)
  {
  }

  /** `s` lists `x` in a tie no later than some tie listing `m`. */
  ghost predicate WeaklyPrefers(list: seq<Entity>, x: Id, m: Id) {
    exists g, h | 0 <= g <= h < |list| :: x in Ids(list[g]) && m in Ids(list[h])
  }

  /** The projects super-stability asks about for a student: every listed
      project when unassigned, else every other project they like at least
      as much as theirs. */
  ghost predicate Considered(st: Student, mine: seq<Id>, x: Id) {
    if |mine| == 0 then Listed(st.list, x)
    else x != mine[0] && WeaklyPrefers(st.list, x, mine[0])
  }

  /** A student the check can judge: known, with a rank table by tie index
      covering their projects, assigned only to listed projects, and with
      every lookup defined for every listed project. */
  ghost predicate StudentDefined(S: State, s: Id) {
    && s in S.students && s in S.alloc
    && TieIndexed(S.students[s].rank, EntryIds(S.students[s].list))
    && (forall x | x in S.alloc[s] :: Listed(S.students[s].list, x))
    && (forall p | Listed(S.students[s].list, p) :: Defined(S, s, p))
  }

  /** The matching is super-stable for the students of `order`: none is
      multiply assigned, and none blocks with a project considered. */
  ghost predicate SuperStable(S: State, order: seq<Id>)
    requires forall s | s in order :: StudentDefined(S, s)
  {
    forall s | s in order ::
      && StudentDefined(S, s)
      && |S.alloc[s]| <= 1
      && forall p | Considered(S.students[s], S.alloc[s], p) :: !Blocks(S, s, p)
  }

  // ---------------------------------------------------------------------
  // The check

  /** `x` is listed in one of the first `b` ties. */
  ghost predicate ListedBefore(list: seq<Entity>, x: Id, b: nat) {
    exists g | 0 <= g < |list| && g < b :: x in Ids(list[g])
  }

  lemma FlattenTake(list: seq<Entity>, b: nat, x: Id)
    ensures x in Flatten(EntryIds(Take(list, b))) <==> ListedBefore(list, x, b)
  {
    var t := Take(list, b);
    var es := EntryIds(t);
    if x in Flatten(es) {
      var e :| e in es && x in e;
      var g :| 0 <= g < |es| && es[g] == e;
      assert t[g] == list[g];
    }
    if ListedBefore(list, x, b) {
      var g :| 0 <= g < |list| && g < b && x in Ids(list[g]);
      assert t[g] == list[g];
      assert es[g] in es;
    }
  }

  /** The candidate projects of a student: the projects in every tie when
      unassigned, else the projects in the ties before the matched
      project's rank (up to and including it when `inclusive`) other than
      the matched project. */
  function Candidates(rd: Reading, st: Student, mine: seq<Id>): (r: Result<seq<Id>>)
    requires |mine| <= 1
    ensures |mine| == 0 ==> r.Ok? && forall x :: x in r.value <==> Listed(st.list, x)
    ensures |mine| == 1 ==> (r.Ok? <==> mine[0] in st.rank)
    ensures |mine| == 1 && r.Ok? ==> forall x :: x in r.value <==>
      x != mine[0] && ListedBefore(st.list, x, st.rank[mine[0]] + (if rd.inclusive then 1 else 0))
  {
    if |mine| == 0 then
      assert forall x :: ListedBefore(st.list, x, |st.list|) <==> Listed(st.list, x);
      assert Take(st.list, |st.list|) == st.list;
      assert forall x :: x in Flatten(EntryIds(st.list)) <==> Listed(st.list, x) by {
        forall x ensures x in Flatten(EntryIds(st.list)) <==> Listed(st.list, x) {
          FlattenTake(st.list, |st.list|, x);
        }
      }
      Ok(Flatten(EntryIds(st.list)))
    else if mine[0] !in st.rank then Err(KeyError)
    else
      var b := st.rank[mine[0]] + (if rd.inclusive then 1 else 0);
      assert forall x :: x in Flatten(EntryIds(Take(st.list, b))) <==> ListedBefore(st.list, x, b) by {
        forall x ensures x in Flatten(EntryIds(Take(st.list, b))) <==> ListedBefore(st.list, x, b) {
          FlattenTake(st.list, b, x);
        }
      }
      Ok(Without(Flatten(EntryIds(Take(st.list, b))), mine[0]))
  }

  /** Under the intended reading and a rank table by tie index, the
      candidates are exactly the projects super-stability considers. */
  lemma CandidatesIntended(st: Student, mine: seq<Id>, x: Id)
    requires |mine| <= 1
    requires TieIndexed(st.rank, EntryIds(st.list))
    requires |mine| == 1 ==> Listed(st.list, mine[0])
    ensures Candidates(Intended, st, mine).Ok?
    ensures x in Candidates(Intended, st, mine).value <==> Considered(st, mine, x)
  {
    if |mine| == 1 {
      ListedUpToRank(st, mine[0], x);
    }
  }

  /** With a rank table by tie index, the ties up to and including a
      listed project's rank are those no later than some tie listing it. */
  lemma ListedUpToRank(st: Student, m: Id, x: Id)
    requires TieIndexed(st.rank, EntryIds(st.list)) && Listed(st.list, m)
    ensures m in st.rank
    ensures ListedBefore(st.list, x, st.rank[m] + 1) <==> WeaklyPrefers(st.list, x, m)
  {
    var es := EntryIds(st.list);
    var h :| 0 <= h < |st.list| && m in Ids(st.list[h]);
    assert m in es[h];
    var k := st.rank[m];
    assert k < |st.list| && m in es[k];
    if ListedBefore(st.list, x, k + 1) {
      var g :| 0 <= g < |st.list| && g < k + 1 && x in Ids(st.list[g]);
      assert m in Ids(st.list[k]);
    }
    if WeaklyPrefers(st.list, x, m) {
      var g, h' :| 0 <= g <= h' < |st.list| && x in Ids(st.list[g]) && m in Ids(st.list[h']);
      assert m in es[h'];
    }
  }

  /** The inner loops for one student: true at the first candidate for
      which a condition holds. */
  function Scan(rd: Reading, S: State, s: Id, ws: seq<Id>): (r: Result<bool>)
    ensures r == Ok(true) ==> exists i | 0 <= i < |ws| :: Conditions(rd, S, s, ws[i]) == Ok(true)
    ensures r == Ok(false) ==> forall i | 0 <= i < |ws| :: Conditions(rd, S, s, ws[i]) == Ok(false)
  {
    if |ws| == 0 then Ok(false)
    else
      var b := Conditions(rd, S, s, ws[0]);
      if b.Err? then Err(b.error)
      else if b.value then Ok(true)
      else
        var r := Scan(rd, S, s, ws[1..]);
        assert forall i | 0 <= i < |ws[1..]| :: ws[1..][i] == ws[i + 1];
        r
  }

  /** When every candidate is defined, the inner loops find a blocking
      project exactly when one of the candidates blocks. */
  lemma {:induction false} ScanIntended(S: State, s: Id, ws: seq<Id>)
    requires forall i | 0 <= i < |ws| :: Defined(S, s, ws[i])
    ensures Scan(Intended, S, s, ws) == Ok(exists i | 0 <= i < |ws| :: Blocks(S, s, ws[i]))
  {
    if |ws| > 0 {
      assert Conditions(Intended, S, s, ws[0]) == Ok(Blocks(S, s, ws[0])) by {
        ConditionsIntended(S, s, ws[0]);
      }
      var rest := ws[1..];
      assert Scan(Intended, S, s, rest) == Ok(exists i | 0 <= i < |rest| :: Blocks(S, s, rest[i])) by {
        ScanIntended(S, s, rest);
      }
      ScanCons(S, s, ws);
    }
  }

  /** The scan of a non-empty list, given its head's condition and the scan
      of its tail. */
  lemma ScanCons(S: State, s: Id, ws: seq<Id>)
    requires |ws| > 0 && Conditions(Intended, S, s, ws[0]) == Ok(Blocks(S, s, ws[0]))
    requires Scan(Intended, S, s, ws[1..]) == Ok(exists i | 0 <= i < |ws[1..]| :: Blocks(S, s, ws[1..][i]))
    ensures Scan(Intended, S, s, ws) == Ok(exists i | 0 <= i < |ws| :: Blocks(S, s, ws[i]))
  {
    assert forall i | 0 <= i < |ws[1..]| :: ws[1..][i] == ws[i + 1];
    if !Blocks(S, s, ws[0]) {
      assert (exists i | 0 <= i < |ws| :: Blocks(S, s, ws[i])) ==> exists i | 0 <= i < |ws[1..]| :: Blocks(S, s, ws[1..][i]);
    }
  }

  /** The check stops at `s` with False: `s` is multiply assigned, or a
      condition holds for one of their candidates. */
  predicate Rejects(rd: Reading, S: State, s: Id) {
    && s in S.alloc
    && (|| |S.alloc[s]| > 1
        || (&& s in S.students
            && Candidates(rd, S.students[s], S.alloc[s]).Ok?
            && Scan(rd, S, s, Candidates(rd, S.students[s], S.alloc[s]).value) == Ok(true)))
  }

  /** `_check_super_stability` over the students in dictionary order: False
      at a multiply assigned student or a blocking candidate, else True. */
  function CheckFrom(rd: Reading, S: State, order: seq<Id>): (r: Result<bool>)
    ensures r == Ok(true) ==> forall s | s in order :: s in S.alloc && |S.alloc[s]| <= 1
    ensures r == Ok(false) ==> exists s | s in order :: Rejects(rd, S, s)
  {
    if |order| == 0 then Ok(true)
    else
      var s := order[0];
      if s !in S.students || s !in S.alloc then Err(KeyError)
      else if |S.alloc[s]| > 1 then
        assert Rejects(rd, S, s);
        Ok(false)
      else
        var cands := Candidates(rd, S.students[s], S.alloc[s]);
        if cands.Err? then Err(cands.error)
        else
          var found := Scan(rd, S, s, cands.value);
          if found.Err? then Err(found.error)
          else if found.value then
            assert Rejects(rd, S, s);
            Ok(false)
          else
            var r := CheckFrom(rd, S, order[1..]);
            assert forall t | t in order[1..] :: t in order;
            r
  }

  /** The intended check answers, without error, exactly whether the
      matching is super-stable. */
  lemma {:induction false} CheckIntended(S: State, order: seq<Id>)
    requires forall s | s in order :: StudentDefined(S, s)
    ensures CheckFrom(Intended, S, order) == Ok(SuperStable(S, order))
  {
    if |order| > 0 {
      var s := order[0];
      assert StudentDefined(S, s);
      assert forall t | t in order[1..] :: t in order;
      CheckIntended(S, order[1..]);
      if |S.alloc[s]| <= 1 {
        StudentIntended(S, s);
        assert forall t | t in order :: t == s || t in order[1..];
      }
    }
  }

  /** For one student the intended candidates exist, are exactly the
      considered projects, and have every lookup defined. */
  lemma StudentCandidates(S: State, s: Id)
    requires StudentDefined(S, s) && |S.alloc[s]| <= 1
    ensures Candidates(Intended, S.students[s], S.alloc[s]).Ok?
    ensures var ws := Candidates(Intended, S.students[s], S.alloc[s]).value;
      && (forall x :: x in ws <==> Considered(S.students[s], S.alloc[s], x))
      && (forall i | 0 <= i < |ws| :: Defined(S, s, ws[i]))
  {
    var st := S.students[s];
    var mine := S.alloc[s];
    if |mine| == 1 {
      assert mine[0] in mine;
    }
    CandidatesIntended(st, mine, "");
    var ws := Candidates(Intended, st, mine).value;
    forall x ensures x in ws <==> Considered(st, mine, x) {
      CandidatesIntended(st, mine, x);
    }
    forall i | 0 <= i < |ws| ensures Defined(S, s, ws[i]) {
      ConsideredListed(st, mine, ws[i]);
    }
  }

  /** For one student, the inner loops decide whether some considered
      project blocks. */
  lemma StudentIntended(S: State, s: Id)
    requires StudentDefined(S, s) && |S.alloc[s]| <= 1
    ensures Candidates(Intended, S.students[s], S.alloc[s]).Ok?
    ensures Scan(Intended, S, s, Candidates(Intended, S.students[s], S.alloc[s]).value) ==
      Ok(exists p | Considered(S.students[s], S.alloc[s], p) :: Blocks(S, s, p))
  {
    StudentCandidates(S, s);
    var st := S.students[s];
    var mine := S.alloc[s];
    var ws := Candidates(Intended, st, mine).value;
    ScanIntended(S, s, ws);
    var B := iset x | Blocks(S, s, x);
    SomeInSeq(ws, (iset x | Considered(st, mine, x)), B);
    assert (exists i | 0 <= i < |ws| :: Blocks(S, s, ws[i])) <==> exists i | 0 <= i < |ws| :: ws[i] in B;
  }

  // ---------------------------------------------------------------------
  // The reading of the check as written

  /** Records built by the readers store the quota under "upper_quota",
      so the check as written raises KeyError at the first candidate it
      examines. */
  lemma CapacityKeyAsWritten(S: State, s: Id, p: Id)
    requires p in S.projects && S.projects[p].quotaKey == QuotaKey
    ensures Conditions(AsWritten, S, s, p) == Err(KeyError)
  {
  }

  /** Student s1 ties p1 and p2 and holds p1; lecturer l1 offers both,
      with room for two, and holds only s1. */
  function TiedInstance(): State {
    var lec := Lecturer(QuotaKey, 2, {"p1", "p2"}, [Single("s1")], map["s1" := 0]);
    State(
      map["s1" := Student([Tie(["p1", "p2"])], map["p1" := 0, "p2" := 0])],
      map["p1" := Project(QuotaKey, 1, "l1", ["s1"], map["s1" := 0]),
          "p2" := Project(QuotaKey, 1, "l1", ["s1"], map["s1" := 0])],
      map["l1" := lec],
      map["l1" := lec],
      map["s1" := ["p1"], "p1" := ["s1"], "p2" := [], "l1" := ["s1"]])
  }

  /** The same instance before anyone is assigned. */
  function UnassignedInstance(): State {
    TiedInstance().(alloc := map["s1" := [], "p1" := [], "p2" := [], "l1" := []])
  }

  /** As written the check raises KeyError on the unassigned instance,
      where the corrected check finds s1 blocking with p1. */
  lemma CapacityKeyInstance()
    ensures CheckFrom(AsWritten, UnassignedInstance(), ["s1"]) == Err(KeyError)
    ensures CheckFrom(Intended, UnassignedInstance(), ["s1"]) == Ok(false)
  {
    var S := UnassignedInstance();
    var st := S.students["s1"];
    assert Flatten(EntryIds(st.list)) == ["p1", "p2"] by {
      assert EntryIds(st.list) == [["p1", "p2"]];
      assert Flatten([["p1", "p2"]]) == ["p1", "p2"] + Flatten([["p1", "p2"]][1..]);
    }
    assert Candidates(AsWritten, st, []) == Ok(["p1", "p2"]);
    assert Candidates(Intended, st, []) == Ok(["p1", "p2"]);
    assert Bi(Intended, S, "p1", "l1") == Ok(true);
  }

  /** With s1 holding p1, the window `list[:rank]` is empty, so the check
      as written (and even with the quota key corrected) answers True ... */
  lemma MatchedTieSkipped()
    ensures CheckFrom(AsWritten, TiedInstance(), ["s1"]) == Ok(true)
    ensures CheckFrom(Reading(QuotaKey, false), TiedInstance(), ["s1"]) == Ok(true)
  {
    var S := TiedInstance();
    var st := S.students["s1"];
    assert Take(st.list, 0) == [];
    assert EntryIds([]) == [];
    assert Candidates(AsWritten, st, ["p1"]) == Ok([]);
    assert Candidates(Reading(QuotaKey, false), st, ["p1"]) == Ok([]);
  }

  /** ... though p2, tied with p1, blocks by condition (i). */
  lemma TiedBlocks()
    ensures Considered(TiedInstance().students["s1"], ["p1"], "p2")
    ensures Blocks(TiedInstance(), "s1", "p2")
  {
    var st := TiedInstance().students["s1"];
    assert "p2" in Ids(st.list[0]) && "p1" in Ids(st.list[0]);
  }

  /** The corrected check answers False on the same instance. */
  lemma MatchedTieIntended()
    ensures CheckFrom(Intended, TiedInstance(), ["s1"]) == Ok(false)
  {
    var S := TiedInstance();
    var st := S.students["s1"];
    assert Take(st.list, 1) == st.list;
    assert Flatten(EntryIds(st.list)) == ["p1", "p2"] by {
      assert EntryIds(st.list) == [["p1", "p2"]];
      assert Flatten([["p1", "p2"]]) == ["p1", "p2"] + Flatten([["p1", "p2"]][1..]);
    }
    assert Without(["p1", "p2"], "p1") == ["p2"] by {
      assert Without(["p2"], "p1") == ["p2"] + Without(["p2"][1..], "p1");
    }
    assert Candidates(Intended, st, ["p1"]) == Ok(["p2"]);
    assert Bi(Intended, S, "p2", "l1") == Ok(true);
  }

  // ---------------------------------------------------------------------
  // The saved views and `run`

  /** `stable_matching` as initialised: every student mapped to "", every
      lecturer to no students. */
  datatype Views = Views(studentSided: map<Id, Id>, lecturerSided: map<Id, seq<Id>>)

  function InitialViews(S: State): (v: Views)
    ensures v.studentSided.Keys == S.students.Keys && forall s | s in S.students :: v.studentSided[s] == ""
    ensures v.lecturerSided.Keys == S.lecturers.Keys && forall l | l in S.lecturers :: v.lecturerSided[l] == []
  {
    Views(map s | s in S.students :: "", map l | l in S.lecturers :: [])
  }

  /** No student of `order` holds more than one project. */
  predicate AtMostOne(alloc: map<Id, seq<Id>>, order: seq<Id>) {
    forall s | s in order :: s in alloc && |alloc[s]| <= 1
  }

  /** `_save_student_sided`: each student in turn with a non-empty
      assigned set has it unpacked into their entry; an unpacking of more
      than one project is a ValueError. */
  function SaveStudentSided(order: seq<Id>, alloc: map<Id, seq<Id>>, view: map<Id, Id>): (r: Result<map<Id, Id>>)
    ensures r.Ok? <==> AtMostOne(alloc, order)
    ensures r.Err? ==> r.error == KeyError || r.error == ValueError
    ensures r.Ok? ==> forall s | s in order && |alloc[s]| == 1 :: s in r.value && r.value[s] == alloc[s][0]
    ensures r.Ok? ==> forall s | s in view && !(s in order && |alloc[s]| == 1) :: s in r.value && r.value[s] == view[s]
    ensures r.Ok? ==> forall s | s in r.value :: s in view || s in order
  {
    if |order| == 0 then Ok(view)
    else
      var s := order[0];
      if s !in alloc then Err(KeyError)
      else if |alloc[s]| > 1 then Err(ValueError)
      else
        var view' := if |alloc[s]| == 1 then view[s := alloc[s][0]] else view;
        var r := SaveStudentSided(order[1..], alloc, view');
        assert forall t | t in order :: t == s || t in order[1..];
        r
  }

  /** `_save_lecturer_sided` iterating the lecturers (the code names an
      attribute `self.lecturer` that does not exist): each lecturer in turn
      with a non-empty assigned set gets it as their entry. */
  function SaveLecturerSided(order: seq<Id>, alloc: map<Id, seq<Id>>, view: map<Id, seq<Id>>): (r: Result<map<Id, seq<Id>>>)
    ensures r.Ok? <==> forall l | l in order :: l in alloc
    ensures r.Ok? ==> forall l | l in order && |alloc[l]| > 0 :: l in r.value && r.value[l] == alloc[l]
    ensures r.Ok? ==> forall l | l in view && !(l in order && |alloc[l]| > 0) :: l in r.value && r.value[l] == view[l]
    ensures r.Ok? ==> forall l | l in r.value :: l in view || l in order
  {
    if |order| == 0 then Ok(view)
    else
      var l := order[0];
      if l !in alloc then Err(KeyError)
      else
        var view' := if |alloc[l]| > 0 then view[l := alloc[l]] else view;
        var r := SaveLecturerSided(order[1..], alloc, view');
        assert forall t | t in order :: t == l || t in order[1..];
        r
  }

  /** What `run` reports: a super-stable matching with its views, or
      none. */
  datatype Outcome = Found(views: Views) | NoneFound

  /** `run`, given the outcome of the subclass's `_while_loop`: on success
      both views are saved, then the check for the stability type decides
      the report. `fixedLecturerSave` selects the lecturer view saved over
      the lecturers instead of the missing attribute. */
  function Run(rd: Reading, fixedLecturerSave: bool, stabilityType: string, loopFound: bool,
               S: State, studentOrder: seq<Id>, lecturerOrder: seq<Id>): (r: Result<Outcome>)
    ensures !loopFound ==> r == Ok(NoneFound)
    ensures loopFound && stabilityType != "super" ==> r.Err?
    ensures r.Ok? && r.value.Found? ==> CheckFrom(rd, S, studentOrder) == Ok(true)
    ensures r.Ok? && r.value.Found? ==> forall s | s in studentOrder && s in S.students && s in S.alloc ::
      s in r.value.views.studentSided &&
      r.value.views.studentSided[s] == if |S.alloc[s]| == 1 then S.alloc[s][0] else ""
    ensures r.Ok? && r.value.Found? ==> forall l | l in lecturerOrder && l in S.lecturers && l in S.alloc ::
      l in r.value.views.lecturerSided && r.value.views.lecturerSided[l] == S.alloc[l]
  {
    if !loopFound then Ok(NoneFound)
    else
      var init := InitialViews(S);
      var sv :- SaveStudentSided(studentOrder, S.alloc, init.studentSided);
      var lv :- if fixedLecturerSave then SaveLecturerSided(lecturerOrder, S.alloc, init.lecturerSided)
                else Err(AttributeError);
      if stabilityType == "super" then
        var stable :- CheckFrom(rd, S, studentOrder);
        if stable then Ok(Found(Views(sv, lv))) else Ok(NoneFound)
      else Err(NotImplementedError)
  }

  /** As written `run` never reports a matching: when the loop succeeds,
      saving the lecturer view raises AttributeError (unless saving the
      student view failed first). */
  lemma RunAsWritten(stabilityType: string, loopFound: bool, S: State, studentOrder: seq<Id>, lecturerOrder: seq<Id>)
    ensures var r := Run(AsWritten, false, stabilityType, loopFound, S, studentOrder, lecturerOrder);
      && (!loopFound ==> r == Ok(NoneFound))
      && (loopFound ==> r.Err? && r.error in {AttributeError, KeyError, ValueError})
      && (loopFound && (forall s | s in studentOrder :: s in S.alloc && |S.alloc[s]| <= 1) ==> r == Err(AttributeError))
  {
  }

  /** The corrected `run` on a super-stability instance where every lookup
      is defined reports a matching exactly when the loop succeeds and the
      matching is super-stable. */
  lemma RunIntended(loopFound: bool, S: State, studentOrder: seq<Id>, lecturerOrder: seq<Id>)
    requires forall s | s in studentOrder :: StudentDefined(S, s)
    requires forall l | l in lecturerOrder :: l in S.alloc
    ensures var r := Run(Intended, true, "super", loopFound, S, studentOrder, lecturerOrder);
      && (r.Ok? <==> !loopFound || AtMostOne(S.alloc, studentOrder))
      && (r.Ok? ==> (r.value.Found? <==> loopFound && SuperStable(S, studentOrder)))
  {
    if loopFound {
      CheckIntended(S, studentOrder);
    }
  }
}
