/** `run` of `SMManOptimal` and `SMWomanOptimal`: the proposal loop, the
    man-sided and woman-sided views, and the stability verdict. */
module SMRun {
  import opened Wrappers
  import opened Lists
  import opened SMEngine
  import opened SMCheck

  /** The instance the woman-optimal class hands to the engine: women
      propose, men receive. */
  function Swap(I: Instance): (J: Instance)
    ensures J.proposers == I.receivers && J.receivers == I.proposers
  {
    Instance(I.receivers, I.proposers)
  }

  // ---------------------------------------------------------------------
  // The views

  /** `stable_matching`: `man_sided` and `woman_sided`. */
  datatype Views = Views(manSided: map<Id, Id>, womanSided: map<Id, Id>)

  /** A partner's id, or "" for an agent left single. */
  function PartnerOrEmpty(o: Option<Id>): (r: Id)
    ensures o.Some? ==> r == o.value
    ensures o.None? ==> r == ""
  {
    if o.Some? then o.value else ""
  }

  /** The constructor's views: every agent mapped to "". */
  function EmptyViews(men: set<Id>, women: set<Id>): (v: Views)
    ensures v.manSided.Keys == men && v.womanSided.Keys == women
    ensures forall m | m in men :: v.manSided[m] == ""
    ensures forall w | w in women :: v.womanSided[w] == ""
  {
    Views(map m | m in men :: "", map w | w in women :: "")
  }

  /** The loop of `run` over the men: a matched man writes his partner into
      his entry and himself into hers; `M[man]` fails on an unknown man. */
  function FillViews(order: seq<Id>, mm: map<Id, Option<Id>>, v: Views): (r: Result<Views>)
    ensures r.Ok? <==> forall i | 0 <= i < |order| :: order[i] in mm
    decreases |order|
  {
    if |order| == 0 then Ok(v)
    else if order[0] !in mm then Err(KeyError)
    else
      var o := mm[order[0]];
      var v' := if o.Some? then Views(v.manSided[order[0] := o.value], v.womanSided[o.value := order[0]]) else v;
      FillViews(order[1..], mm, v')
  }

  /** The views once the men in `done` have been visited. */
  function ViewsAfter(men: set<Id>, women: set<Id>, done: set<Id>, mm: map<Id, Option<Id>>, wm: map<Id, Option<Id>>): Views
    requires men <= mm.Keys && women <= wm.Keys
  {
    Views(map m | m in men :: if m in done then PartnerOrEmpty(mm[m]) else "",
          map w | w in women :: if wm[w].Some? && wm[w].value in done then wm[w].value else "")
  }

  lemma ViewsAfterStep(men: set<Id>, women: set<Id>, done: set<Id>, m: Id, mm: map<Id, Option<Id>>, wm: map<Id, Option<Id>>)
    requires mm.Keys == men && wm.Keys == women && Consistent(mm, wm) && m in men
    ensures var v := ViewsAfter(men, women, done, mm, wm);
      ViewsAfter(men, women, done + {m}, mm, wm)
        == if mm[m].Some? then Views(v.manSided[m := mm[m].value], v.womanSided[mm[m].value := m]) else v
  {
    var v := ViewsAfter(men, women, done, mm, wm);
    var v' := ViewsAfter(men, women, done + {m}, mm, wm);
    if mm[m].Some? {
      var w := mm[m].value;
      assert v'.womanSided == v.womanSided[w := m];
    } else {
      assert v'.womanSided == v.womanSided;
    }
  }

  lemma {:induction false} FillViewsFrom(order: seq<Id>, i: nat, men: set<Id>, women: set<Id>, mm: map<Id, Option<Id>>, wm: map<Id, Option<Id>>)
    requires NoDup(order) && (forall j | 0 <= j < |order| :: order[j] in men)
    requires mm.Keys == men && wm.Keys == women && Consistent(mm, wm) && i <= |order|
    ensures FillViews(order[i..], mm, ViewsAfter(men, women, Elems(order[..i]), mm, wm))
         == Ok(ViewsAfter(men, women, Elems(order), mm, wm))
    decreases |order| - i
  {
    if i == |order| {
      assert order[..i] == order;
    } else {
      var m := order[i];
      var done := Elems(order[..i]);
      assert Elems(order[..i + 1]) == done + {m} by {
        assert order[..i + 1] == order[..i] + [m];
      }
      ViewsAfterStep(men, women, done, m, mm, wm);
      FillViewsFrom(order, i + 1, men, women, mm, wm);
      assert order[i..][1..] == order[i + 1..];
    }
  }

  lemma ViewsAfterNone(men: set<Id>, women: set<Id>, mm: map<Id, Option<Id>>, wm: map<Id, Option<Id>>)
    requires men <= mm.Keys && women <= wm.Keys
    ensures ViewsAfter(men, women, {}, mm, wm) == EmptyViews(men, women)
  {
  }

  lemma ViewsAfterAll(men: set<Id>, women: set<Id>, mm: map<Id, Option<Id>>, wm: map<Id, Option<Id>>)
    requires mm.Keys == men && wm.Keys == women && Consistent(mm, wm)
    ensures ViewsAfter(men, women, men, mm, wm)
         == Views(map m | m in men :: PartnerOrEmpty(mm[m]), map w | w in women :: PartnerOrEmpty(wm[w]))
  {
  }

  /** After the loop every man's entry is his partner or "", and every
      woman's entry is hers or "". */
  lemma ViewsExact(order: seq<Id>, men: set<Id>, women: set<Id>, mm: map<Id, Option<Id>>, wm: map<Id, Option<Id>>)
    requires Enumerates(order, men) && mm.Keys == men && wm.Keys == women && Consistent(mm, wm)
    ensures FillViews(order, mm, EmptyViews(men, women))
         == Ok(Views(map m | m in men :: PartnerOrEmpty(mm[m]), map w | w in women :: PartnerOrEmpty(wm[w])))
  {
    assert Elems(order[..0]) == {};
    assert order[0..] == order;
    ViewsAfterNone(men, women, mm, wm);
    FillViewsFrom(order, 0, men, women, mm, wm);
    assert Elems(order) == men;
    ViewsAfterAll(men, women, mm, wm);
  }

  /** The two views describe the same matching: w is m's entry iff m is
      w's entry, and a single agent's entry is "". */
  lemma ViewsAgree(men: set<Id>, women: set<Id>, mm: map<Id, Option<Id>>, wm: map<Id, Option<Id>>, m: Id, w: Id)
    requires mm.Keys == men && wm.Keys == women && Consistent(mm, wm)
    requires m in men && w in women && "" !in men && "" !in women
    ensures var v := Views(map m | m in men :: PartnerOrEmpty(mm[m]), map w | w in women :: PartnerOrEmpty(wm[w]));
      && (v.manSided[m] == w <==> v.womanSided[w] == m)
      && (mm[m].None? <==> v.manSided[m] == "")
      && (wm[w].None? <==> v.womanSided[w] == "")
  {
  }

  // ---------------------------------------------------------------------
  // The report

  /** What `run` returns: "stable matching: …" or "unstable matching: …". */
  datatype Outcome = Outcome(stable: bool, views: Views)

  /** The part of `run` after the loop: the views, then the check. */
  function Report(order: seq<Id>, men: Side, women: Side, mm: map<Id, Option<Id>>, wm: map<Id, Option<Id>>): (r: Result<Outcome>)
    ensures r.Ok? ==> CheckStability(order, men, women, mm, wm) == Ok(r.value.stable)
    ensures r.Ok? <==> FillViews(order, mm, EmptyViews(men.list.Keys, women.list.Keys)).Ok? && CheckStability(order, men, women, mm, wm).Ok?
  {
    var v :- FillViews(order, mm, EmptyViews(men.list.Keys, women.list.Keys));
    var stable :- CheckStability(order, men, women, mm, wm);
    Ok(Outcome(stable, v))
  }

  /** A stable matching in the two views. */
  ghost predicate ViewsOf(v: Views, men: set<Id>, women: set<Id>, mm: map<Id, Option<Id>>, wm: map<Id, Option<Id>>)
    requires mm.Keys == men && wm.Keys == women
  {
    v == Views(map m | m in men :: PartnerOrEmpty(mm[m]), map w | w in women :: PartnerOrEmpty(wm[w]))
  }

  /** The matching an engine leaves is a matching of the instance seen
      from either side. */
  lemma FinalMatching(I: Instance, s: State)
    requires Inv(I, s) && s.free == {}
    ensures Matching(I, s.pmatch, s.rmatch)
    ensures Matching(Swap(I), s.rmatch, s.pmatch)
    ensures WellFormed(Swap(I))
    ensures Stable(I, s.pmatch, s.rmatch)
  {
    Finish(I, s);
    SwapWellFormed(I);
    MatchingSwap(I, s.pmatch, s.rmatch);
  }

  lemma SwapWellFormed(I: Instance)
    requires WellFormed(I)
    ensures WellFormed(Swap(I))
  {
  }

  /** A matching read from the other side is still a matching. */
  lemma MatchingSwap(I: Instance, pm: map<Id, Option<Id>>, rm: map<Id, Option<Id>>)
    requires WellFormed(I) && Matching(I, pm, rm)
    ensures Matching(Swap(I), rm, pm)
  {
    forall w | w in rm && rm[w].Some?
      ensures w in I.receivers && rm[w].value in I.receivers[w]
    {
      assert pm[rm[w].value] == Some(w);
    }
  }

  /** Stability does not depend on which side is called the proposers. */
  lemma BlocksSwap(I: Instance, pm: map<Id, Option<Id>>, rm: map<Id, Option<Id>>, m: Id, w: Id)
    requires WellFormed(I)
    ensures Blocks(Swap(I), rm, pm, w, m) <==> Blocks(I, pm, rm, m, w)
  {
  }

  lemma StableSwap(I: Instance, pm: map<Id, Option<Id>>, rm: map<Id, Option<Id>>)
    requires WellFormed(I)
    ensures Stable(Swap(I), rm, pm) <==> Stable(I, pm, rm)
  {
    forall m, w ensures Blocks(Swap(I), rm, pm, w, m) <==> Blocks(I, pm, rm, m, w) {
      BlocksSwap(I, pm, rm, m, w);
    }
  }

  /** On the lists as read, the check of `_check_stability` answers True
      exactly when the matching is stable. */
  lemma CheckIsStable(I: Instance, order: seq<Id>, pm: map<Id, Option<Id>>, rm: map<Id, Option<Id>>)
    requires WellFormed(I) && Matching(I, pm, rm) && Enumerates(order, I.proposers.Keys)
    ensures CheckStability(order, AsRead(I.proposers), AsRead(I.receivers), pm, rm) == Ok(Stable(I, pm, rm))
  {
    CheckAsRead(I, order, pm, rm);
    if !Stable(I, pm, rm) {
      var m, w :| Blocks(I, pm, rm, m, w);
      var i :| 0 <= i < |order| && order[i] == m;
    }
  }

  // ---------------------------------------------------------------------
  // `run` of the two classes

  /** `SMManOptimal.run` as written: the check reads the working lists
      (`self.men[man]["list"]` after the loop) with the rank tables as read. */
  method ManOptimalAsWritten(men: Prefs, women: Prefs, order: seq<Id>) returns (s: Result<State>, r: Result<Outcome>)
    requires WellFormed(Instance(men, women)) && Enumerates(order, men.Keys)
    ensures s.Err? ==> s.error == IndexError && r == Err(IndexError)
    ensures s.Err? ==> exists t: State, m: Id :: Inv(Instance(men, women), t) && m in t.free && m in t.plist && t.plist[m] == []
    ensures s.Ok? ==> Stable(Instance(men, women), s.value.pmatch, s.value.rmatch)
    ensures s.Ok? ==> Inv(Instance(men, women), s.value) && s.value.free == {}
    ensures s.Ok? ==> r == Report(order, Side(s.value.plist, Ranks(men)), Side(s.value.rlist, s.value.rrank), s.value.pmatch, s.value.rmatch)
    ensures s.Ok? && r.Ok? ==> ViewsOf(r.value.views, men.Keys, women.Keys, s.value.pmatch, s.value.rmatch)
  {
    var I := Instance(men, women);
    s := RunAsWritten(I);
    if s.Err? {
      return s, Err(IndexError);
    }
    var t := s.value;
    ViewsExact(order, men.Keys, women.Keys, t.pmatch, t.rmatch);
    r := Report(order, Side(t.plist, Ranks(men)), Side(t.rlist, t.rrank), t.pmatch, t.rmatch);
  }

  /** `SMManOptimal.run` with the guard in the loop and the check reading
      the lists as read: it reports "stable" with the stable matching. */
  method ManOptimal(men: Prefs, women: Prefs, order: seq<Id>) returns (s: State, r: Outcome)
    requires WellFormed(Instance(men, women)) && Enumerates(order, men.Keys)
    ensures Stable(Instance(men, women), s.pmatch, s.rmatch) && Matching(Instance(men, women), s.pmatch, s.rmatch)
    ensures r.stable
    ensures ViewsOf(r.views, men.Keys, women.Keys, s.pmatch, s.rmatch)
  {
    var I := Instance(men, women);
    s := Run(I);
    FinalMatching(I, s);
    ViewsExact(order, men.Keys, women.Keys, s.pmatch, s.rmatch);
    CheckIsStable(I, order, s.pmatch, s.rmatch);
    r := Report(order, AsRead(men), AsRead(women), s.pmatch, s.rmatch).value;
  }

  /** `SMWomanOptimal.run` as written: women propose; the check still walks
      the men, reading the men's and women's working lists. */
  method WomanOptimalAsWritten(men: Prefs, women: Prefs, order: seq<Id>) returns (s: Result<State>, r: Result<Outcome>)
    requires WellFormed(Instance(women, men)) && Enumerates(order, men.Keys)
    ensures s.Err? ==> s.error == IndexError && r == Err(IndexError)
    ensures s.Err? ==> exists t: State, m: Id :: Inv(Instance(women, men), t) && m in t.free && m in t.plist && t.plist[m] == []
    ensures s.Ok? ==> Stable(Instance(women, men), s.value.pmatch, s.value.rmatch)
    ensures s.Ok? ==> Inv(Instance(women, men), s.value) && s.value.free == {}
    ensures s.Ok? ==> r == Report(order, Side(s.value.rlist, s.value.rrank), Side(s.value.plist, Ranks(women)), s.value.rmatch, s.value.pmatch)
    ensures s.Ok? && r.Ok? ==> ViewsOf(r.value.views, men.Keys, women.Keys, s.value.rmatch, s.value.pmatch)
  {
    var I := Instance(women, men);
    s := RunAsWritten(I);
    if s.Err? {
      return s, Err(IndexError);
    }
    var t := s.value;
    assert Consistent(t.rmatch, t.pmatch);
    ViewsExact(order, men.Keys, women.Keys, t.rmatch, t.pmatch);
    r := Report(order, Side(t.rlist, t.rrank), Side(t.plist, Ranks(women)), t.rmatch, t.pmatch);
  }

  /** `SMWomanOptimal.run` with the guard and the check on the lists as
      read: the woman-proposing matching is stable for the men too. */
  method WomanOptimal(men: Prefs, women: Prefs, order: seq<Id>) returns (s: State, r: Outcome)
    requires WellFormed(Instance(women, men)) && Enumerates(order, men.Keys)
    ensures Stable(Instance(men, women), s.rmatch, s.pmatch) && Matching(Instance(men, women), s.rmatch, s.pmatch)
    ensures r.stable
    ensures ViewsOf(r.views, men.Keys, women.Keys, s.rmatch, s.pmatch)
  {
    var I := Instance(women, men);
    s := Run(I);
    FinalMatching(I, s);
    StableSwap(I, s.pmatch, s.rmatch);
    ViewsExact(order, men.Keys, women.Keys, s.rmatch, s.pmatch);
    CheckIsStable(Swap(I), order, s.rmatch, s.pmatch);
    r := Report(order, AsRead(men), AsRead(women), s.rmatch, s.pmatch).value;
  }

  // ---------------------------------------------------------------------
  // `run` of the FixesSMHR tree

  /** The FixesSMHR `stable_matching`: each man in key order mapped to his
      partner, or "" when single. */
  function FlagViews(order: seq<Id>, mm: map<Id, Option<Id>>): (r: Result<map<Id, Id>>)
    ensures r.Ok? <==> forall i | 0 <= i < |order| :: order[i] in mm
    ensures r.Ok? ==> r.value.Keys == set m | m in order
    ensures r.Ok? ==> forall m | m in order :: r.value[m] == PartnerOrEmpty(mm[m])
  {
    if forall i | 0 <= i < |order| :: order[i] in mm then
      Ok(map m | m in order :: PartnerOrEmpty(mm[m]))
    else Err(KeyError)
  }

  /** `run` of the FixesSMHR tree: the loop, the flag-setting check, then
      the views; "stable matching" iff the flag stayed False. */
  function FlagReport(order: seq<Id>, men: Side, women: Side, mm: map<Id, Option<Id>>, wm: map<Id, Option<Id>>): (r: Result<(bool, map<Id, Id>)>)
    ensures r.Ok? ==> CheckStability(order, men, women, mm, wm) == Ok(r.value.0)
  {
    var flag :- CheckFlag(order, men, women, mm, wm, false);
    var views :- FlagViews(order, mm);
    CheckFlagIsNegation(order, men, women, mm, wm);
    Ok((!flag, views))
  }

  // ---------------------------------------------------------------------
  // Finding: the check misreports a stable matching

  /** Five agents with distinct ids. */
  datatype Names = Names(m1: Id, m2: Id, w1: Id, w2: Id, w3: Id)

  ghost predicate Distinct(n: Names) {
    && n.m1 != n.m2 && n.w1 != n.w2 && n.w1 != n.w3 && n.w2 != n.w3
  }

  /** Two men, three women: m2 and m1 both want w1, who prefers m2, so m1
      ends with w2, his second choice; his working list is then [w3]. */
  function CrossMen(n: Names): Prefs {
    map[n.m1 := [n.w1, n.w2, n.w3], n.m2 := [n.w1]]
  }

  function CrossWomen(n: Names): Prefs {
    map[n.w1 := [n.m2, n.m1], n.w2 := [n.m1], n.w3 := [n.m1]]
  }

  function Cross(n: Names): Instance {
    Instance(CrossMen(n), CrossWomen(n))
  }

  /** The ids the readers give these agents. */
  function CrossNames(): Names {
    Names("m1", "m2", "w1", "w2", "w3")
  }

  lemma CrossNamesDistinct()
    ensures Distinct(CrossNames())
  {
  }

  lemma CrossRankM1(n: Names)
    requires Distinct(n)
    ensures PRank(Cross(n), n.m1) == map[n.w1 := 0, n.w2 := 1, n.w3 := 2]
  {
    assert Cross(n).proposers[n.m1] == [n.w1, n.w2, n.w3];
    RankTableThree(n.w1, n.w2, n.w3);
  }

  lemma CrossRanksRest(n: Names)
    requires Distinct(n)
    ensures PRank(Cross(n), n.m2) == map[n.w1 := 0]
    ensures RRank(Cross(n), n.w1) == map[n.m2 := 0, n.m1 := 1]
    ensures RRank(Cross(n), n.w2) == map[n.m1 := 0]
    ensures RRank(Cross(n), n.w3) == map[n.m1 := 0]
  {
    assert [n.m2, n.m1][..1] == [n.m2];
  }

  lemma CrossWellFormed(n: Names)
    requires Distinct(n)
    ensures WellFormed(Cross(n))
  {
    CrossNoDup(n);
    CrossMenListed(n);
    CrossWomenListed(n);
  }

  lemma CrossNoDup(n: Names)
    requires Distinct(n)
    ensures forall m | m in CrossMen(n) :: NoDup(CrossMen(n)[m])
    ensures forall w | w in CrossWomen(n) :: NoDup(CrossWomen(n)[w])
  {
  }

  /** Every woman a man lists lists him back. */
  lemma CrossMenListed(n: Names)
    requires Distinct(n)
    ensures forall m, w | m in CrossMen(n) && w in CrossMen(n)[m] :: w in CrossWomen(n) && m in CrossWomen(n)[w]
  {
  }

  /** Every man a woman lists lists her back. */
  lemma CrossWomenListed(n: Names)
    requires Distinct(n)
    ensures forall w, m | w in CrossWomen(n) && m in CrossWomen(n)[w] :: m in CrossMen(n) && w in CrossMen(n)[m]
  {
  }

  /** In every final state w3 is single: were she matched to m1, he and w2
      would block. */
  lemma CrossW3Single(n: Names, s: State)
    requires Distinct(n) && Stable(Cross(n), s.pmatch, s.rmatch) && Consistent(s.pmatch, s.rmatch) && CutOk(Cross(n), s)
    requires s.pmatch.Keys == CrossMen(n).Keys && s.rmatch.Keys == CrossWomen(n).Keys
    ensures s.rmatch[n.w3] == None
  {
    CrossRankM1(n);
    CrossRanksRest(n);
    assert s.rmatch[n.w3].Some? ==> s.pmatch[n.m1] == Some(n.w3);
    assert s.rmatch[n.w3].Some? ==> Blocks(Cross(n), s.pmatch, s.rmatch, n.m1, n.w2);
  }

  /** m2 holds w1: single, he would have an exhausted list, and only he
      can sit at w1's first rank. */
  lemma CrossM2(n: Names, s: State)
    requires Distinct(n) && s.free == {}
    requires RejectedOk(Cross(n), s) && QueueOk(s) && PassedOk(Cross(n), s) && Consistent(s.pmatch, s.rmatch)
    requires s.plist.Keys == CrossMen(n).Keys && s.pmatch.Keys == CrossMen(n).Keys && s.rmatch.Keys == CrossWomen(n).Keys
    ensures s.pmatch[n.m2] == Some(n.w1)
  {
    CrossRanksRest(n);
    assert n.w1 in CrossMen(n)[n.m2];
    assert n.w1 in s.plist[n.m2] || s.rmatch[n.w1] == Some(n.m2);
  }

  /** In every final state m1 holds w2, with w3 still on his list. */
  lemma CrossM1Partner(n: Names, s: State)
    requires Distinct(n) && s.free == {} && n.w3 in s.rmatch && s.rmatch[n.w3] == None
    requires s.plist.Keys == CrossMen(n).Keys && s.pmatch.Keys == CrossMen(n).Keys
    requires s.pmatch[n.m2] == Some(n.w1)
    requires RejectedOk(Cross(n), s) && QueueOk(s) && PassedOk(Cross(n), s) && Consistent(s.pmatch, s.rmatch)
    ensures s.pmatch[n.m1] == Some(n.w2) && n.w3 in s.plist[n.m1]
  {
    CrossRankM1(n);
    assert n.w3 in CrossMen(n)[n.m1];
    assert n.w3 in s.plist[n.m1];
  }

  /** A list ranked increasingly whose every entry ranks after m1's
      partner w2 is [w3]. */
  lemma CrossM1List(n: Names, l: seq<Id>)
    requires Distinct(n) && n.w3 in l && Increasing(l, PRank(Cross(n), n.m1))
    requires forall x | x in l :: x in PRank(Cross(n), n.m1) && PRank(Cross(n), n.m1)[x] > PRank(Cross(n), n.m1)[n.w2]
    ensures l == [n.w3]
  {
    CrossRankM1(n);
    IncreasingNoDup(l, PRank(Cross(n), n.m1));
    NoDupFirstTwo(l);
    assert forall y | y in l :: y == n.w3;
    assert |l| == 1;
  }

  /** In every final state m1 holds w2 and his working list is [w3]. */
  lemma CrossM1(n: Names, s: State)
    requires Distinct(n) && s.free == {} && n.w3 in s.rmatch && s.rmatch[n.w3] == None
    requires RejectedOk(Cross(n), s) && QueueOk(s) && PassedOk(Cross(n), s) && Consistent(s.pmatch, s.rmatch)
    requires s.plist.Keys == CrossMen(n).Keys && s.pmatch.Keys == CrossMen(n).Keys && s.rmatch.Keys == CrossWomen(n).Keys
    requires Increasing(s.plist[n.m1], PRank(Cross(n), n.m1))
    ensures s.pmatch[n.m1] == Some(n.w2) && s.plist[n.m1] == [n.w3]
  {
    CrossM2(n, s);
    CrossM1Partner(n, s);
    CrossM1List(n, s.plist[n.m1]);
  }

  /** No queued man has an exhausted list, so the loop as written never
      fails on this instance. */
  lemma CrossNeverExhausted(n: Names, s: State, m: Id)
    requires Distinct(n) && m in s.free
    requires RejectedOk(Cross(n), s) && QueueOk(s) && Consistent(s.pmatch, s.rmatch)
    requires s.plist.Keys == CrossMen(n).Keys && s.pmatch.Keys == CrossMen(n).Keys
    ensures s.plist[m] != []
  {
    if m == n.m1 {
      CrossM1Keeps(n, s);
    } else {
      CrossM2Keeps(n, s);
    }
  }

  /** Single m1 still lists w2, whom only he is acceptable to. */
  lemma CrossM1Keeps(n: Names, s: State)
    requires Distinct(n) && n.m1 in s.pmatch && s.pmatch[n.m1] == None
    requires RejectedOk(Cross(n), s) && Consistent(s.pmatch, s.rmatch) && n.m1 in s.plist
    ensures n.w2 in s.plist[n.m1]
  {
    CrossRanksRest(n);
    assert n.w2 in CrossMen(n)[n.m1];
  }

  /** Single m2 still lists w1, who ranks him first. */
  lemma CrossM2Keeps(n: Names, s: State)
    requires Distinct(n) && n.m2 in s.pmatch && s.pmatch[n.m2] == None
    requires RejectedOk(Cross(n), s) && Consistent(s.pmatch, s.rmatch) && n.m2 in s.plist
    ensures n.w1 in s.plist[n.m2]
  {
    CrossRanksRest(n);
    assert n.w1 in CrossMen(n)[n.m2];
  }

  /** The check's verdict once m1 holds w2 with [w3] left and w3 is single. */
  lemma CrossCheck(n: Names, s: State)
    requires Distinct(n) && n.m1 in s.pmatch && n.m1 in s.plist
    requires s.pmatch[n.m1] == Some(n.w2) && s.plist[n.m1] == [n.w3]
    requires n.w3 in s.rmatch && s.rmatch[n.w3] == None
    ensures CheckStability([n.m1, n.m2], Side(s.plist, Ranks(CrossMen(n))), Side(s.rlist, s.rrank), s.pmatch, s.rmatch) == Ok(false)
  {
    CrossRankM1(n);
    var men := Side(s.plist, Ranks(CrossMen(n)));
    var women := Side(s.rlist, s.rrank);
    assert Ranks(CrossMen(n))[n.m1] == PRank(Cross(n), n.m1);
    assert Take([n.w3], 1) == [n.w3];
    assert Candidates(men, s.pmatch, n.m1) == Ok([n.w3]);
    assert Witness(women, s.rmatch, n.m1, n.w3) == Ok(true);
    assert Scan(women, s.rmatch, n.m1, [n.w3]) == Ok(true);
  }

  /** Every run of the man-optimal loop on this instance, whatever the pop
      order, ends in a stable matching that the check of the main tree
      calls unstable. */
  lemma CrossMisreported(n: Names, s: State)
    requires Distinct(n) && Inv(Cross(n), s) && s.free == {}
    ensures Stable(Cross(n), s.pmatch, s.rmatch)
    ensures CheckStability([n.m1, n.m2], Side(s.plist, Ranks(CrossMen(n))), Side(s.rlist, s.rrank), s.pmatch, s.rmatch) == Ok(false)
  {
    Finish(Cross(n), s);
    CrossW3Single(n, s);
    CrossM1(n, s);
    CrossCheck(n, s);
  }

  /** The man-optimal `run` of the main tree on this instance reports
      "unstable matching" although its matching is stable; the corrected
      run reports "stable matching". */
  method CrossRun() returns (asWritten: Outcome, corrected: Outcome)
    ensures !asWritten.stable && corrected.stable
  {
    var n := CrossNames();
    CrossNamesDistinct();
    CrossWellFormed(n);
    var order := [n.m1, n.m2];
    assert Enumerates(order, CrossMen(n).Keys);
    var s, r := ManOptimalAsWritten(CrossMen(n), CrossWomen(n), order);
    if s.Err? {
      ghost var t: State, m: Id :| Inv(Cross(n), t) && m in t.free && m in t.plist && t.plist[m] == [];
      CrossNeverExhausted(n, t, m);
      assert false;
    }
    CrossMisreported(n, s.value);
    ViewsExact(order, CrossMen(n).Keys, CrossWomen(n).Keys, s.value.pmatch, s.value.rmatch);
    asWritten := r.value;
    var _, c := ManOptimal(CrossMen(n), CrossWomen(n), order);
    corrected := c;
  }

  // ---------------------------------------------------------------------
  // Finding: `list[0]` of an exhausted list

  /** Two men who accept only w1. */
  function Crowded(n: Names): Instance {
    Instance(map[n.m1 := [n.w1], n.m2 := [n.w1]], map[n.w1 := [n.m1, n.m2]])
  }

  /** No matching of this instance matches both men, so the loop as
      written cannot end with every man matched. */
  lemma CrowdedUnmatched(n: Names, s: State)
    requires Distinct(n) && PassedOk(Crowded(n), s) && Consistent(s.pmatch, s.rmatch)
    requires n.m1 in s.pmatch && n.m2 in s.pmatch
    ensures !(s.pmatch[n.m1].Some? && s.pmatch[n.m2].Some?)
  {
    assert PRank(Crowded(n), n.m1) == map[n.w1 := 0];
    assert PRank(Crowded(n), n.m2) == map[n.w1 := 0];
  }

  /** Whatever the pop order, `_while_loop` as written raises IndexError
      on this instance, while the guarded loop ends with a stable matching. */
  method CrowdedRun() returns (asWritten: Result<State>, corrected: State)
    ensures asWritten == Err(IndexError)
    ensures Stable(Crowded(CrossNames()), corrected.pmatch, corrected.rmatch)
  {
    var n := CrossNames();
    CrossNamesDistinct();
    assert WellFormed(Crowded(n));
    asWritten := RunAsWritten(Crowded(n));
    if asWritten.Ok? {
      CrowdedUnmatched(n, asWritten.value);
      assert false;
    }
    corrected := Run(Crowded(n));
  }
}
