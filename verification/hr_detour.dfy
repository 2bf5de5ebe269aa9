/** An instance on which `HRAbstract`'s check, reading the working lists
    the resident-proposing loop leaves behind, calls a stable matching
    unstable.

    Residents r: [h1, h2, h3] and q: [h1]; hospitals of capacity 1, h1
    ranking q before r, h2 and h3 listing only r. Popping r, q, r: r takes
    h1 and the cut strikes (r, h1); q displaces r; r takes h2 and the cut
    strikes (r, h2). The matching r–h2, q–h1 is stable, but r's working
    list is now [h3], and the check takes its first rank(h2) = 1 entries
    as the hospitals r would rather have: h3, which has a free place. */
module HRDetour {
  import opened Wrappers
  import opened Lists
  import opened HREngine
  import opened HRCheck

  lemma SetFirst2<K, V>(a: K, b: K, x: V, y: V, w: V)
    requires a != b
    ensures map[a := x, b := y][a := w] == map[a := w, b := y]
  {
  }

  predicate Distinct(h1: Id, h2: Id, h3: Id, r: Id, q: Id) {
    h1 != h2 && h2 != h3 && h1 != h3 && r != q
  }

  function Detour(h1: Id, h2: Id, h3: Id, r: Id, q: Id): Instance {
    Instance(map[r := [h1, h2, h3], q := [h1]],
             map[h1 := Hospital(1, [q, r], RankTable([q, r])),
                 h2 := Hospital(1, [r], RankTable([r])),
                 h3 := Hospital(1, [r], RankTable([r]))])
  }

  /** The states after each pop. */
  function AfterFirst(h1: Id, h2: Id, h3: Id, r: Id, q: Id): State {
    State(map[r := [h2, h3], q := [h1]], map[h1 := [q], h2 := [r], h3 := [r]],
          map[r := Some(h1), q := None], map[h1 := {r}, h2 := {}, h3 := {}], {q})
  }

  function AfterSecond(h1: Id, h2: Id, h3: Id, r: Id, q: Id): State {
    State(map[r := [h2, h3], q := [h1]], map[h1 := [q], h2 := [r], h3 := [r]],
          map[r := None, q := Some(h1)], map[h1 := {q}, h2 := {}, h3 := {}], {r})
  }

  function Final(h1: Id, h2: Id, h3: Id, r: Id, q: Id): State {
    State(map[r := [h3], q := [h1]], map[h1 := [q], h2 := [], h3 := [r]],
          map[r := Some(h2), q := Some(h1)], map[h1 := {q}, h2 := {r}, h3 := {}], {})
  }

  lemma DetourRanks(h1: Id, h2: Id, h3: Id, r: Id, q: Id)
    requires Distinct(h1, h2, h3, r, q)
    ensures var H := Detour(h1, h2, h3, r, q).hospitals;
      && q in H[h1].rank && r in H[h1].rank && H[h1].rank[q] == 0 && H[h1].rank[r] == 1
      && r in H[h2].rank && H[h2].rank[r] == 0
    ensures var l: seq<Id> := [h1, h2, h3];
      NoDup(l) && h1 in RankTable(l) && h2 in RankTable(l) && RankTable(l)[h1] == 0 && RankTable(l)[h2] == 1
  {
    var l1: seq<Id> := [q, r];
    assert NoDup(l1);
    RankTableNoDup(l1);
    assert l1[0] == q && l1[1] == r;
    var l2: seq<Id> := [r];
    RankTableNoDup(l2);
    assert l2[0] == r;
    var l: seq<Id> := [h1, h2, h3];
    forall i, j | 0 <= i < j < |l| ensures l[i] != l[j] {
    }
    RankTableNoDup(l);
    assert l[0] == h1 && l[1] == h2;
  }

  lemma InitLists(h1: Id, h2: Id, h3: Id, r: Id, q: Id)
    requires Distinct(h1, h2, h3, r, q)
    ensures Init(Detour(h1, h2, h3, r, q)).hlist == map[h1 := [q, r], h2 := [r], h3 := [r]]
  {
  }

  lemma InitResidents(h1: Id, h2: Id, h3: Id, r: Id, q: Id)
    requires Distinct(h1, h2, h3, r, q)
    ensures Init(Detour(h1, h2, h3, r, q)).rmatch == map[r := None, q := None]
  {
  }

  lemma InitHospitals(h1: Id, h2: Id, h3: Id, r: Id, q: Id)
    requires Distinct(h1, h2, h3, r, q)
    ensures Init(Detour(h1, h2, h3, r, q)).hmatch == map[h1 := {}, h2 := {}, h3 := {}]
  {
  }

  lemma DetourInit(h1: Id, h2: Id, h3: Id, r: Id, q: Id)
    requires Distinct(h1, h2, h3, r, q)
    ensures Init(Detour(h1, h2, h3, r, q)) ==
      State(map[r := [h1, h2, h3], q := [h1]], map[h1 := [q, r], h2 := [r], h3 := [r]],
            map[r := None, q := None], map[h1 := {}, h2 := {}, h3 := {}], {r, q})
  {
    InitLists(h1, h2, h3, r, q);
    InitResidents(h1, h2, h3, r, q);
    InitHospitals(h1, h2, h3, r, q);
  }

  /** Deleting the pair (r, h1) once r holds h1. */
  lemma DeleteFirst(h1: Id, h2: Id, h3: Id, r: Id, q: Id, s1: State)
    requires Distinct(h1, h2, h3, r, q)
    requires s1.rlist == map[r := [h1, h2, h3], q := [h1]] && s1.hlist == map[h1 := [q, r], h2 := [r], h3 := [r]]
    ensures DeletePair(s1, r, h1) == Ok(s1.(rlist := map[r := [h2, h3], q := [h1]], hlist := map[h1 := [q], h2 := [r], h3 := [r]]))
  {
    assert Remove([h1, h2, h3], h1) == Ok([h2, h3]);
    assert [q, r] == [q] + [r] + [];
    NoDupMiddle([q], r, []);
    assert [q] + [] == [q];
    SetFirst2(r, q, [h1, h2, h3], [h1], [h2, h3]);
    SetFirst(h1, h2, h3, [q, r], [r], [r], [q]);
  }

  /** r alone fills h1; the cut from r's rank deletes the pair (r, h1). */
  lemma CutFirst(h1: Id, h2: Id, h3: Id, r: Id, q: Id, s1: State)
    requires Distinct(h1, h2, h3, r, q)
    requires s1 == State(map[r := [h1, h2, h3], q := [h1]], map[h1 := [q, r], h2 := [r], h3 := [r]],
                         map[r := Some(h1), q := None], map[h1 := {r}, h2 := {}, h3 := {}], {q})
    ensures Cut(Detour(h1, h2, h3, r, q), s1, h1) == Ok(AfterFirst(h1, h2, h3, r, q))
  {
    var I := Detour(h1, h2, h3, r, q);
    assert Worst({r}, I.hospitals[h1].rank) == Ok(r) && I.hospitals[h1].rank[r] == 1 by {
      DetourRanks(h1, h2, h3, r, q);
    }
    CutFrom(I, s1, h1, r);
    assert Drop([q, r], 1) == [r];
    assert DeletePair(s1, r, h1) == Ok(AfterFirst(h1, h2, h3, r, q)) by {
      DeleteFirst(h1, h2, h3, r, q, s1);
    }
    DeleteOne(s1, r, h1);
  }

  /** A cut deletes the hospital's list from just after its worst resident. */
  lemma CutFrom(I: Instance, s: State, h: Id, y: Id)
    requires h in I.hospitals && h in s.hmatch && h in s.hlist
    requires Worst(s.hmatch[h], I.hospitals[h].rank) == Ok(y)
    ensures Cut(I, s, h) == DeleteAll(s, Drop(s.hlist[h], I.hospitals[h].rank[y]), h)
  {
  }

  /** Deleting a single pair. */
  lemma DeleteOne(s: State, x: Id, h: Id)
    requires DeletePair(s, x, h).Ok?
    ensures DeleteAll(s, [x], h) == DeletePair(s, x, h)
  {
    assert [x][1..] == [];
  }

  lemma PopFirst(h1: Id, h2: Id, h3: Id, r: Id, q: Id)
    requires Distinct(h1, h2, h3, r, q)
    ensures StepAsWritten(Detour(h1, h2, h3, r, q), Init(Detour(h1, h2, h3, r, q)), r) ==
            Ok(AfterFirst(h1, h2, h3, r, q))
  {
    DetourInit(h1, h2, h3, r, q);
    var s0 := Init(Detour(h1, h2, h3, r, q)).(free := {q});
    assert Init(Detour(h1, h2, h3, r, q)).free - {r} == {q};
    var s1 := s0.(rmatch := map[r := Some(h1), q := None], hmatch := map[h1 := {r}, h2 := {}, h3 := {}]);
    assert {} + {r} == {r};
    SetFirst2(r, q, None, None, Some(h1));
    SetFirst<Id, set<Id>>(h1, h2, h3, {}, {}, {}, {r});
    assert Assign(s0, r, h1) == Ok(s1);
    CutFirst(h1, h2, h3, r, q, s1);
    assert |s1.hmatch[h1]| == 1;
  }

  /** Of r and q, h1 ranks r last. */
  lemma WorstSecond(h1: Id, h2: Id, h3: Id, r: Id, q: Id)
    requires Distinct(h1, h2, h3, r, q)
    ensures Worst({r, q}, Detour(h1, h2, h3, r, q).hospitals[h1].rank) == Ok(r)
  {
    DetourRanks(h1, h2, h3, r, q);
  }

  /** q joins r at h1; r is the worst and is evicted, and is queued again
      since h2 and h3 are left on its list. */
  lemma EvictSecond(h1: Id, h2: Id, h3: Id, r: Id, q: Id, s1: State)
    requires Distinct(h1, h2, h3, r, q)
    requires s1 == State(map[r := [h2, h3], q := [h1]], map[h1 := [q], h2 := [r], h3 := [r]],
                         map[r := Some(h1), q := Some(h1)], map[h1 := {r, q}, h2 := {}, h3 := {}], {})
    ensures Evict(Detour(h1, h2, h3, r, q), s1, h1) == Ok(AfterSecond(h1, h2, h3, r, q))
  {
    WorstSecond(h1, h2, h3, r, q);
    assert {r, q} - {r} == {q};
    assert {} + {r} == {r};
    SetFirst2(r, q, Some(h1), Some(h1), None);
    SetFirst<Id, set<Id>>(h1, h2, h3, {r, q}, {}, {}, {q});
    assert Break(s1, r, h1) == Ok(AfterSecond(h1, h2, h3, r, q));
  }

  lemma PopSecond(h1: Id, h2: Id, h3: Id, r: Id, q: Id)
    requires Distinct(h1, h2, h3, r, q)
    ensures StepAsWritten(Detour(h1, h2, h3, r, q), AfterFirst(h1, h2, h3, r, q), q) ==
            Ok(AfterSecond(h1, h2, h3, r, q))
  {
    var s0 := AfterFirst(h1, h2, h3, r, q).(free := {});
    assert {q} - {q} == {};
    var s1 := s0.(rmatch := map[r := Some(h1), q := Some(h1)], hmatch := map[h1 := {r, q}, h2 := {}, h3 := {}]);
    assert {r} + {q} == {r, q};
    UpdateTwice(map[r := Some(h1)], q, None, Some(h1));
    SetFirst<Id, set<Id>>(h1, h2, h3, {r}, {}, {}, {r, q});
    assert Assign(s0, q, h1) == Ok(s1);
    EvictSecond(h1, h2, h3, r, q, s1);
    assert |s1.hmatch[h1]| == 2;
  }

  /** r alone fills h2; the cut from r's rank deletes the pair (r, h2). */
  lemma CutThird(h1: Id, h2: Id, h3: Id, r: Id, q: Id, s1: State)
    requires Distinct(h1, h2, h3, r, q)
    requires s1 == State(map[r := [h2, h3], q := [h1]], map[h1 := [q], h2 := [r], h3 := [r]],
                         map[r := Some(h2), q := Some(h1)], map[h1 := {q}, h2 := {r}, h3 := {}], {})
    ensures Cut(Detour(h1, h2, h3, r, q), s1, h2) == Ok(Final(h1, h2, h3, r, q))
  {
    var I := Detour(h1, h2, h3, r, q);
    assert Worst({r}, I.hospitals[h2].rank) == Ok(r) && I.hospitals[h2].rank[r] == 0 by {
      DetourRanks(h1, h2, h3, r, q);
    }
    CutFrom(I, s1, h2, r);
    assert Drop([r], 0) == [r];
    assert DeletePair(s1, r, h2) == Ok(Final(h1, h2, h3, r, q)) by {
      DeleteThird(h1, h2, h3, r, q, s1);
    }
    DeleteOne(s1, r, h2);
  }

  lemma DeleteThird(h1: Id, h2: Id, h3: Id, r: Id, q: Id, s1: State)
    requires Distinct(h1, h2, h3, r, q)
    requires s1 == State(map[r := [h2, h3], q := [h1]], map[h1 := [q], h2 := [r], h3 := [r]],
                         map[r := Some(h2), q := Some(h1)], map[h1 := {q}, h2 := {r}, h3 := {}], {})
    ensures DeletePair(s1, r, h2) == Ok(Final(h1, h2, h3, r, q))
  {
    assert Remove([h2, h3], h2) == Ok([h3]);
    assert Remove([r], r) == Ok([]);
    SetFirst2(r, q, [h2, h3], [h1], [h3]);
    SetMiddle(h1, h2, h3, [q], [r], [r], []);
  }

  lemma PopThird(h1: Id, h2: Id, h3: Id, r: Id, q: Id)
    requires Distinct(h1, h2, h3, r, q)
    ensures StepAsWritten(Detour(h1, h2, h3, r, q), AfterSecond(h1, h2, h3, r, q), r) ==
            Ok(Final(h1, h2, h3, r, q))
  {
    var s0 := AfterSecond(h1, h2, h3, r, q).(free := {});
    assert {r} - {r} == {};
    var s1 := s0.(rmatch := map[r := Some(h2), q := Some(h1)], hmatch := map[h1 := {q}, h2 := {r}, h3 := {}]);
    assert {} + {r} == {r};
    SetFirst2(r, q, None, Some(h1), Some(h2));
    SetMiddle<Id, set<Id>>(h1, h2, h3, {q}, {}, {}, {r});
    assert Assign(s0, r, h2) == Ok(s1);
    CutThird(h1, h2, h3, r, q, s1);
    assert |s1.hmatch[h2]| == 1;
  }

  /** A successful pop in front of the rest of a run. */
  lemma PopRun(I: Instance, s: State, x: Id, t: State, pop: seq<Id>, fuel: nat)
    requires x in s.free && StepAsWritten(I, s, x) == Ok(t)
    ensures RunAsWritten(I, s, [x] + pop, fuel + 1) == RunAsWritten(I, t, pop, fuel)
  {
    assert ([x] + pop)[0] == x && ([x] + pop)[1..] == pop;
  }

  /** The loop as written, popping r, q, r, ends with Final. */
  lemma DetourRuns(h1: Id, h2: Id, h3: Id, r: Id, q: Id)
    requires Distinct(h1, h2, h3, r, q)
    ensures RunAsWritten(Detour(h1, h2, h3, r, q), Init(Detour(h1, h2, h3, r, q)), [r] + ([q] + ([r] + [])), 3) ==
            Some(Ok(Final(h1, h2, h3, r, q)))
  {
    var I := Detour(h1, h2, h3, r, q);
    DetourInit(h1, h2, h3, r, q);
    PopFirst(h1, h2, h3, r, q);
    PopSecond(h1, h2, h3, r, q);
    PopThird(h1, h2, h3, r, q);
    PopRun(I, AfterSecond(h1, h2, h3, r, q), r, Final(h1, h2, h3, r, q), [], 0);
    PopRun(I, AfterFirst(h1, h2, h3, r, q), q, AfterSecond(h1, h2, h3, r, q), [r] + [], 1);
    PopRun(I, Init(I), r, AfterFirst(h1, h2, h3, r, q), [q] + ([r] + []), 2);
  }

  /** On Final, r's working list is [h3] and h2 had rank 1 in its list as
      read, so the check takes h3 as a hospital r would rather have. */
  lemma FinalCandidates(h1: Id, h2: Id, h3: Id, r: Id, q: Id)
    requires Distinct(h1, h2, h3, r, q)
    ensures var I := Detour(h1, h2, h3, r, q);
      Candidates(Final(h1, h2, h3, r, q), Ranks(I.residents), r) == Ok([h3])
  {
    var rr := Ranks(Detour(h1, h2, h3, r, q).residents);
    ResidentRank(h1, h2, h3, r, q);
    MatchedCandidates(Final(h1, h2, h3, r, q), rr, r, h2);
    assert Take([h3], 1) == [h3];
  }

  /** On the lists as read, r ranks h2 second. */
  lemma ResidentRank(h1: Id, h2: Id, h3: Id, r: Id, q: Id)
    requires Distinct(h1, h2, h3, r, q)
    ensures var rr := Ranks(Detour(h1, h2, h3, r, q).residents);
      r in rr && h2 in rr[r] && rr[r][h2] == 1
  {
    var l: seq<Id> := [h1, h2, h3];
    assert Ranks(Detour(h1, h2, h3, r, q).residents)[r] == RankTable(l);
    assert h2 in RankTable(l) && RankTable(l)[h2] == 1 by {
      DetourRanks(h1, h2, h3, r, q);
    }
  }

  /** On Final, the check as written finds h3 among r's candidates, with a
      free place: it answers False, and `run` reports the matching
      unstable. */
  lemma DetourMisreported(h1: Id, h2: Id, h3: Id, r: Id, q: Id)
    requires Distinct(h1, h2, h3, r, q)
    ensures var I := Detour(h1, h2, h3, r, q);
      CheckStability(I, Final(h1, h2, h3, r, q), Ranks(I.residents), [r, q]) == Ok(false)
  {
    var I := Detour(h1, h2, h3, r, q);
    var s := Final(h1, h2, h3, r, q);
    FinalCandidates(h1, h2, h3, r, q);
    assert Condition(I, s, r, h3) == Ok(true);
    assert Scan(I, s, r, [h3]) == Ok(true);
  }

  lemma DetourHospitals(h1: Id, h2: Id, h3: Id, r: Id, q: Id)
    requires Distinct(h1, h2, h3, r, q)
    ensures var I := Detour(h1, h2, h3, r, q);
      forall h | h in I.hospitals ::
        && NoDup(I.hospitals[h].list)
        && I.hospitals[h].rank == RankTable(I.hospitals[h].list)
        && I.hospitals[h].capacity >= 1
  {
    var H := Detour(h1, h2, h3, r, q).hospitals;
    assert NoDup([q, r]) && NoDup([r]);
    forall h | h in H
      ensures NoDup(H[h].list) && H[h].rank == RankTable(H[h].list) && H[h].capacity >= 1
    {
      if h == h1 {
        assert H[h] == Hospital(1, [q, r], RankTable([q, r]));
      } else {
        assert H[h] == Hospital(1, [r], RankTable([r]));
      }
    }
  }

  lemma DetourResidents(h1: Id, h2: Id, h3: Id, r: Id, q: Id)
    requires Distinct(h1, h2, h3, r, q)
    ensures var I := Detour(h1, h2, h3, r, q);
      && (forall x | x in I.residents :: NoDup(I.residents[x]))
      && (forall x, h | x in I.residents && h in I.residents[x] :: h in I.hospitals && x in I.hospitals[h].list)
  {
    var I := Detour(h1, h2, h3, r, q);
    DetourRanks(h1, h2, h3, r, q);
    assert NoDup([h1]);
    forall x | x in I.residents ensures NoDup(I.residents[x]) {
      assert x == r || x == q;
    }
    forall x, h | x in I.residents && h in I.residents[x] ensures h in I.hospitals && x in I.hospitals[h].list {
      if x == r {
        assert h == h1 || h == h2 || h == h3;
      } else {
        assert x == q && h == h1;
      }
    }
  }

  lemma DetourLists(h1: Id, h2: Id, h3: Id, r: Id, q: Id)
    requires Distinct(h1, h2, h3, r, q)
    ensures var I := Detour(h1, h2, h3, r, q);
      forall h, x | h in I.hospitals && x in I.hospitals[h].list :: x in I.residents && h in I.residents[x]
  {
    var I := Detour(h1, h2, h3, r, q);
    forall h, x | h in I.hospitals && x in I.hospitals[h].list ensures x in I.residents && h in I.residents[x] {
      if h == h1 {
        assert x == q || x == r;
      } else {
        assert x == r;
      }
    }
  }

  /** Detour is an instance a cleaning reader can produce. */
  lemma DetourWellFormed(h1: Id, h2: Id, h3: Id, r: Id, q: Id)
    requires Distinct(h1, h2, h3, r, q)
    ensures WellFormed(Detour(h1, h2, h3, r, q))
  {
    DetourHospitals(h1, h2, h3, r, q);
    DetourResidents(h1, h2, h3, r, q);
    DetourLists(h1, h2, h3, r, q);
  }

  lemma FinalMatching(h1: Id, h2: Id, h3: Id, r: Id, q: Id)
    requires Distinct(h1, h2, h3, r, q)
    ensures Matching(Detour(h1, h2, h3, r, q), Final(h1, h2, h3, r, q))
  {
    FinalKeys(h1, h2, h3, r, q);
    FinalResidents(h1, h2, h3, r, q);
    FinalHospitals(h1, h2, h3, r, q);
  }

  lemma FinalKeys(h1: Id, h2: Id, h3: Id, r: Id, q: Id)
    requires Distinct(h1, h2, h3, r, q)
    ensures Final(h1, h2, h3, r, q).rmatch.Keys == Detour(h1, h2, h3, r, q).residents.Keys
    ensures Final(h1, h2, h3, r, q).hmatch.Keys == Detour(h1, h2, h3, r, q).hospitals.Keys
  {
  }

  lemma FinalResidents(h1: Id, h2: Id, h3: Id, r: Id, q: Id)
    requires Distinct(h1, h2, h3, r, q)
    ensures var I, s := Detour(h1, h2, h3, r, q), Final(h1, h2, h3, r, q);
      forall x | x in s.rmatch && s.rmatch[x].Some? :: x in I.residents && s.rmatch[x].value in I.residents[x]
  {
  }

  lemma FinalHospitals(h1: Id, h2: Id, h3: Id, r: Id, q: Id)
    requires Distinct(h1, h2, h3, r, q)
    ensures var I, s := Detour(h1, h2, h3, r, q), Final(h1, h2, h3, r, q);
      forall h, y | h in s.hmatch && y in s.hmatch[h] :: h in I.hospitals && y in I.hospitals[h].list
  {
    var I, s := Detour(h1, h2, h3, r, q), Final(h1, h2, h3, r, q);
    forall h, y | h in s.hmatch && y in s.hmatch[h] ensures h in I.hospitals && y in I.hospitals[h].list {
      assert h == h1 || h == h2;
    }
  }

  /** On the lists as read, r would rather have only h1, which is full with
      q, whom it ranks first; q holds its first choice. */
  lemma IntendedCandidates(h1: Id, h2: Id, h3: Id, r: Id, q: Id)
    requires Distinct(h1, h2, h3, r, q)
    ensures var I := Detour(h1, h2, h3, r, q);
      var s := Final(h1, h2, h3, r, q).(rlist := I.residents);
      && Candidates(s, Ranks(I.residents), r) == Ok([h1])
      && Candidates(s, Ranks(I.residents), q) == Ok([])
  {
    IntendedCandidatesR(h1, h2, h3, r, q);
    IntendedCandidatesQ(h1, h2, h3, r, q);
  }

  /** The candidates of a matched resident are the prefix of their list above
      their hospital. */
  lemma MatchedCandidates(s: State, rrank: map<Id, map<Id, nat>>, x: Id, y: Id)
    requires x in s.rlist && x in s.rmatch && s.rmatch[x] == Some(y) && x in rrank && y in rrank[x]
    ensures Candidates(s, rrank, x) == Ok(Take(s.rlist[x], rrank[x][y]))
  {
  }

  lemma IntendedCandidatesR(h1: Id, h2: Id, h3: Id, r: Id, q: Id)
    requires Distinct(h1, h2, h3, r, q)
    ensures var I := Detour(h1, h2, h3, r, q);
      Candidates(Final(h1, h2, h3, r, q).(rlist := I.residents), Ranks(I.residents), r) == Ok([h1])
  {
    var I := Detour(h1, h2, h3, r, q);
    var s := Final(h1, h2, h3, r, q).(rlist := I.residents);
    var rr := Ranks(I.residents);
    var l: seq<Id> := [h1, h2, h3];
    assert r in s.rlist && s.rlist[r] == l;
    ResidentRank(h1, h2, h3, r, q);
    MatchedCandidates(s, rr, r, h2);
    assert Take(l, 1) == [h1];
  }

  lemma IntendedCandidatesQ(h1: Id, h2: Id, h3: Id, r: Id, q: Id)
    requires Distinct(h1, h2, h3, r, q)
    ensures var I := Detour(h1, h2, h3, r, q);
      Candidates(Final(h1, h2, h3, r, q).(rlist := I.residents), Ranks(I.residents), q) == Ok([])
  {
    var I := Detour(h1, h2, h3, r, q);
    var rr := Ranks(I.residents);
    var l1: seq<Id> := [h1];
    RankTableNoDup(l1);
    assert l1[0] == h1;
    assert rr[q] == RankTable(l1);
  }

  /** h1 is full with q, whom it ranks before r. */
  lemma IntendedCondition(h1: Id, h2: Id, h3: Id, r: Id, q: Id)
    requires Distinct(h1, h2, h3, r, q)
    ensures var I := Detour(h1, h2, h3, r, q);
      Scan(I, Final(h1, h2, h3, r, q).(rlist := I.residents), r, [h1]) == Ok(false)
  {
    var I := Detour(h1, h2, h3, r, q);
    var s' := Final(h1, h2, h3, r, q).(rlist := I.residents);
    var hp := I.hospitals[h1];
    assert h1 in I.hospitals && h1 in s'.hmatch && s'.hmatch[h1] == {q} && hp.capacity == 1;
    assert r in hp.rank && q in hp.rank && hp.rank[q] == 0 && hp.rank[r] == 1 by {
      DetourRanks(h1, h2, h3, r, q);
    }
    assert Condition(I, s', r, h1) == Ok(false) by {
      ConditionFull(I, s', r, h1);
    }
    ScanOne(I, s', r, h1);
  }

  /** A scan of one hospital answers its condition. */
  lemma ScanOne(I: Instance, s: State, x: Id, h: Id)
    requires Condition(I, s, x, h).Ok?
    ensures Scan(I, s, x, [h]) == Condition(I, s, x, h)
  {
    assert [h][1..] == [];
  }

  lemma IntendedAnswer(h1: Id, h2: Id, h3: Id, r: Id, q: Id)
    requires Distinct(h1, h2, h3, r, q)
    ensures CheckIntended(Detour(h1, h2, h3, r, q), Final(h1, h2, h3, r, q), [r, q]) == Ok(true)
  {
    var I := Detour(h1, h2, h3, r, q);
    var s' := Final(h1, h2, h3, r, q).(rlist := I.residents);
    var rr := Ranks(I.residents);
    IntendedCandidates(h1, h2, h3, r, q);
    IntendedCondition(h1, h2, h3, r, q);
    assert CheckStability(I, s', rr, [q]) == Ok(true) by {
      assert [q][1..] == [];
    }
    assert [r, q][1..] == [q];
  }

  /** No pair blocks Final, and the check read against the lists as read
      says so. */
  lemma DetourStable(h1: Id, h2: Id, h3: Id, r: Id, q: Id)
    requires Distinct(h1, h2, h3, r, q)
    ensures var I := Detour(h1, h2, h3, r, q);
      && CheckIntended(I, Final(h1, h2, h3, r, q), [r, q]) == Ok(true)
      && forall x, h :: !Blocks(I, Final(h1, h2, h3, r, q), x, h)
  {
    IntendedAnswer(h1, h2, h3, r, q);
    FinalUnblocked(h1, h2, h3, r, q);
  }

  lemma FinalUnblocked(h1: Id, h2: Id, h3: Id, r: Id, q: Id)
    requires Distinct(h1, h2, h3, r, q)
    ensures forall x, h :: !Blocks(Detour(h1, h2, h3, r, q), Final(h1, h2, h3, r, q), x, h)
  {
    var I := Detour(h1, h2, h3, r, q);
    var s := Final(h1, h2, h3, r, q);
    var order := [r, q];
    OrderUnblocked(h1, h2, h3, r, q);
    forall x, h ensures !Blocks(I, s, x, h) {
      if x in I.residents {
        assert x == order[0] || x == order[1];
      }
    }
  }

  /** The intended check's answer, read as the stability it reports. */
  lemma OrderUnblocked(h1: Id, h2: Id, h3: Id, r: Id, q: Id)
    requires Distinct(h1, h2, h3, r, q)
    ensures var order := [r, q];
      forall i, h | 0 <= i < |order| :: !Blocks(Detour(h1, h2, h3, r, q), Final(h1, h2, h3, r, q), order[i], h)
  {
    DetourWellFormed(h1, h2, h3, r, q);
    FinalMatching(h1, h2, h3, r, q);
    IntendedAnswer(h1, h2, h3, r, q);
    CheckIntendedIsStability(Detour(h1, h2, h3, r, q), Final(h1, h2, h3, r, q), [r, q]);
  }
}
