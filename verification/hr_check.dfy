/** `HRAbstract`: the blocking-pair check and the assembly of the two views
    of the matching that `run` performs once the loop has finished. */
module HRCheck {
  import opened Wrappers
  import opened Lists
  import opened HREngine

  /** The hospitals a resident would rather have: all of their working list
      when unassigned, else the entries of that list before the rank their
      hospital had in the list as read. */
  function Candidates(s: State, rrank: map<Id, map<Id, nat>>, x: Id): (r: Result<seq<Id>>)
    ensures r.Ok? <==> (x in s.rlist && x in s.rmatch &&
                        (s.rmatch[x].Some? ==> x in rrank && s.rmatch[x].value in rrank[x]))
    ensures r.Ok? ==> r.value <= s.rlist[x]
    ensures r.Ok? && s.rmatch[x].None? ==> r.value == s.rlist[x]
  {
    if x !in s.rlist || x !in s.rmatch then Err(KeyError)
    else if s.rmatch[x].None? then Ok(s.rlist[x])
    else if x !in rrank || s.rmatch[x].value !in rrank[x] then Err(KeyError)
    else Ok(Take(s.rlist[x], rrank[x][s.rmatch[x].value]))
  }

  /** `_blocking_pair_condition`: a hospital under capacity always blocks;
      otherwise it blocks when it ranks `x` before one of its residents.
      Every resident it holds must have a rank (KeyError otherwise). */
  function Condition(I: Instance, s: State, x: Id, h: Id): (r: Result<bool>)
    ensures r.Ok? <==> (h in I.hospitals && h in s.hmatch &&
                        (|s.hmatch[h]| >= I.hospitals[h].capacity ==>
                           x in I.hospitals[h].rank && s.hmatch[h] <= I.hospitals[h].rank.Keys))
    ensures r.Ok? && |s.hmatch[h]| < I.hospitals[h].capacity ==> r.value
  {
    if h !in I.hospitals || h !in s.hmatch then Err(KeyError)
    else
      var rank := I.hospitals[h].rank;
      if |s.hmatch[h]| < I.hospitals[h].capacity then Ok(true)
      else if x !in rank || !(s.hmatch[h] <= rank.Keys) then Err(KeyError)
      else Ok(exists y | y in s.hmatch[h] :: rank[x] < rank[y])
  }

  /** At or over capacity, the condition compares `x` with the resident the
      engine would evict: the one of greatest rank. */
  lemma ConditionWorst(I: Instance, s: State, x: Id, h: Id)
    requires h in I.hospitals && h in s.hmatch && s.hmatch[h] != {}
    requires |s.hmatch[h]| >= I.hospitals[h].capacity
    requires x in I.hospitals[h].rank && s.hmatch[h] <= I.hospitals[h].rank.Keys
    ensures var rank := I.hospitals[h].rank;
            Condition(I, s, x, h) == Ok(rank[x] < rank[Worst(s.hmatch[h], rank).value])
  {
    var rank := I.hospitals[h].rank;
    var w := Worst(s.hmatch[h], rank).value;
    if rank[x] < rank[w] {
      assert w in s.hmatch[h];
    }
  }

  /** The inner loop of `_check_stability`: true at the first candidate
      that satisfies the condition. */
  function Scan(I: Instance, s: State, x: Id, hs: seq<Id>): (r: Result<bool>)
    ensures r == Ok(true) ==> exists i | 0 <= i < |hs| :: Condition(I, s, x, hs[i]) == Ok(true)
    ensures r == Ok(false) ==> forall i | 0 <= i < |hs| :: Condition(I, s, x, hs[i]) == Ok(false)
    ensures (forall i | 0 <= i < |hs| :: Condition(I, s, x, hs[i]).Ok?) ==> r.Ok?
  {
    if |hs| == 0 then Ok(false)
    else
      var b :- Condition(I, s, x, hs[0]);
      if b then Ok(true)
      else
        var r := Scan(I, s, x, hs[1..]);
        assert r == Ok(true) ==> exists i | 0 <= i < |hs[1..]| :: Condition(I, s, x, hs[1..][i]) == Ok(true);
        assert forall i | 0 <= i < |hs[1..]| :: hs[1..][i] == hs[i + 1];
        r
  }

  /** `x` has a candidate that satisfies the condition. */
  ghost predicate HasWitness(I: Instance, s: State, rrank: map<Id, map<Id, nat>>, x: Id) {
    var c := Candidates(s, rrank, x);
    c.Ok? && exists j | 0 <= j < |c.value| :: Condition(I, s, x, c.value[j]) == Ok(true)
  }

  /** `_check_stability`: residents in `order` (the dictionary's key order),
      False at the first witness, True when there is none. */
  function CheckStability(I: Instance, s: State, rrank: map<Id, map<Id, nat>>, order: seq<Id>): (r: Result<bool>)
    ensures r == Ok(true) ==> forall i | 0 <= i < |order| :: !HasWitness(I, s, rrank, order[i])
    ensures r == Ok(false) ==> exists i | 0 <= i < |order| :: HasWitness(I, s, rrank, order[i])
  {
    if |order| == 0 then Ok(true)
    else
      var c :- Candidates(s, rrank, order[0]);
      var found :- Scan(I, s, order[0], c);
      if found then Ok(false) else CheckStability(I, s, rrank, order[1..])
  }

  // ---------------------------------------------------------------------
  // Blocking pairs

  /** The matching's entries exist for every agent, every assigned hospital
      is on its resident's list as read and every resident a hospital holds
      is on the hospital's list as read. */
  ghost predicate Matching(I: Instance, s: State) {
    && s.rmatch.Keys == I.residents.Keys && s.hmatch.Keys == I.hospitals.Keys
    && (forall x | x in s.rmatch && s.rmatch[x].Some? :: s.rmatch[x].value in I.residents[x])
    && (forall h, y | h in s.hmatch && y in s.hmatch[h] :: y in I.hospitals[h].list)
  }

  /** Resident `x` is unassigned, or ranks `h` before their hospital in their
      list as read. */
  ghost predicate Prefers(I: Instance, s: State, x: Id, h: Id) {
    && x in I.residents && x in s.rmatch
    && (s.rmatch[x].None? ||
        (var rk := RankTable(I.residents[x]);
         s.rmatch[x].value in rk && h in rk && rk[h] < rk[s.rmatch[x].value]))
  }

  /** Resident `x` and hospital `h` block the matching: they find each other
      acceptable, `x` is unassigned or ranks `h` before their hospital, and `h`
      has a free place or ranks `x` before one of its residents. */
  ghost predicate Blocks(I: Instance, s: State, x: Id, h: Id) {
    && x in I.residents && h in I.residents[x] && Prefers(I, s, x, h)
    && h in I.hospitals && h in s.hmatch
    && (|s.hmatch[h]| < I.hospitals[h].capacity ||
        (var rank := I.hospitals[h].rank;
         x in rank && exists y | y in s.hmatch[h] && y in rank :: rank[x] < rank[y]))
  }

  /** The check read against the residents' lists as read rather than
      their working lists. */
  function CheckIntended(I: Instance, s: State, order: seq<Id>): Result<bool> {
    CheckStability(I, s.(rlist := I.residents), Ranks(I.residents), order)
  }

  /** On the lists as read, the candidates of `x` are exactly the hospitals
      they list and rank before their hospital. */
  lemma CandidatesAsRead(I: Instance, s: State, x: Id)
    requires WellFormed(I) && Matching(I, s) && x in I.residents
    requires s.rlist == I.residents
    ensures Candidates(s, Ranks(I.residents), x).Ok?
    ensures forall h :: h in Candidates(s, Ranks(I.residents), x).value <==> h in I.residents[x] && Prefers(I, s, x, h)
  {
    var l := I.residents[x];
    if s.rmatch[x].Some? {
      var k := RankTable(l)[s.rmatch[x].value];
      RankTableNoDup(l);
      forall h | h in l ensures h in l[..k] <==> RankTable(l)[h] < k {
        PrefixByRank(l, h, k);
      }
    }
  }

  /** For a hospital `x` lists, the condition is exactly the hospital's half
      of a blocking pair. */
  lemma ConditionAsRead(I: Instance, s: State, x: Id, h: Id)
    requires WellFormed(I) && Matching(I, s) && x in I.residents && h in I.residents[x]
    ensures Condition(I, s, x, h) == Ok(
      |s.hmatch[h]| < I.hospitals[h].capacity ||
      (var rank := I.hospitals[h].rank;
       x in rank && exists y | y in s.hmatch[h] && y in rank :: rank[x] < rank[y]))
  {
    assert h in I.hospitals && h in s.hmatch;
    var hp := I.hospitals[h];
    assert x in hp.rank && s.hmatch[h] <= hp.rank.Keys by {
      assert hp.rank == RankTable(hp.list) && x in hp.list;
      assert forall y | y in s.hmatch[h] :: y in hp.list;
    }
    ConditionFull(I, s, x, h);
  }

  /** With every rank the condition needs at hand, it answers the
      comparison. */
  lemma ConditionFull(I: Instance, s: State, x: Id, h: Id)
    requires h in I.hospitals && h in s.hmatch
    requires x in I.hospitals[h].rank && s.hmatch[h] <= I.hospitals[h].rank.Keys
    ensures Condition(I, s, x, h) == Ok(
      |s.hmatch[h]| < I.hospitals[h].capacity ||
      (var rank := I.hospitals[h].rank;
       x in rank && exists y | y in s.hmatch[h] && y in rank :: rank[x] < rank[y]))
  {
  }

  /** For a candidate on the lists as read, the condition decides the
      blocking pair. */
  lemma WitnessAsRead(I: Instance, s: State, x: Id, h: Id)
    requires WellFormed(I) && Matching(I, s) && x in I.residents && h in I.residents[x]
    requires Prefers(I, s, x, h)
    ensures Condition(I, s, x, h) == Ok(Blocks(I, s, x, h))
  {
    ConditionAsRead(I, s, x, h);
    if s.rmatch[x].Some? {
      assert s.rmatch[x].value in I.residents[x];
    }
  }

  lemma {:induction false} ScanAsRead(I: Instance, s: State, x: Id, hs: seq<Id>)
    requires WellFormed(I) && Matching(I, s) && x in I.residents
    requires forall h | h in hs :: h in I.residents[x] && Prefers(I, s, x, h)
    ensures Scan(I, s, x, hs) == Ok(exists j | 0 <= j < |hs| :: Blocks(I, s, x, hs[j]))
  {
    forall j | 0 <= j < |hs| ensures Condition(I, s, x, hs[j]) == Ok(Blocks(I, s, x, hs[j])) {
      WitnessAsRead(I, s, x, hs[j]);
    }
    ScanExact(I, s, x, hs);
  }

  lemma ScanExact(I: Instance, s: State, x: Id, hs: seq<Id>)
    requires forall j | 0 <= j < |hs| :: Condition(I, s, x, hs[j]) == Ok(Blocks(I, s, x, hs[j]))
    ensures Scan(I, s, x, hs) == Ok(exists j | 0 <= j < |hs| :: Blocks(I, s, x, hs[j]))
  {
    var r := Scan(I, s, x, hs);
    assert r.Ok?;
    if r.value {
      var j :| 0 <= j < |hs| && Condition(I, s, x, hs[j]) == Ok(true);
      assert Blocks(I, s, x, hs[j]);
    }
  }

  /** Every hospital that blocks with `x` is among their candidates. */
  lemma CandidatesCover(I: Instance, s: State, x: Id, c: seq<Id>)
    requires x in I.residents && x in s.rmatch
    requires forall h :: h in c <==> h in I.residents[x] && Prefers(I, s, x, h)
    ensures (exists j | 0 <= j < |c| :: Blocks(I, s, x, c[j])) <==> exists h :: Blocks(I, s, x, h)
  {
    if h :| Blocks(I, s, x, h) {
      assert h in c;
      var j :| 0 <= j < |c| && c[j] == h;
    }
  }

  /** No resident in `order` is in a blocking pair. */
  ghost predicate NoneBlocks(I: Instance, s: State, order: seq<Id>) {
    forall i, h | 0 <= i < |order| :: !Blocks(I, s, order[i], h)
  }

  /** One resident of the outer loop. */
  lemma CheckStep(I: Instance, s: State, rrank: map<Id, map<Id, nat>>, order: seq<Id>, c: seq<Id>)
    requires |order| > 0 && Candidates(s, rrank, order[0]) == Ok(c)
    requires Scan(I, s, order[0], c) == Ok(exists h :: Blocks(I, s, order[0], h))
    requires CheckStability(I, s, rrank, order[1..]) == Ok(NoneBlocks(I, s, order[1..]))
    ensures CheckStability(I, s, rrank, order) == Ok(NoneBlocks(I, s, order))
  {
    assert forall i | 1 <= i < |order| :: order[i] == order[1..][i - 1];
  }

  /** One resident, on the lists as read: the scan of their candidates finds a
      witness exactly when they are in a blocking pair. */
  lemma ResidentAsRead(I: Instance, s: State, x: Id)
    requires WellFormed(I) && Matching(I, s) && s.rlist == I.residents && x in I.residents
    ensures Candidates(s, Ranks(I.residents), x).Ok?
    ensures Scan(I, s, x, Candidates(s, Ranks(I.residents), x).value) == Ok(exists h :: Blocks(I, s, x, h))
  {
    CandidatesAsRead(I, s, x);
    var c := Candidates(s, Ranks(I.residents), x).value;
    ScanAsRead(I, s, x, c);
    CandidatesCover(I, s, x, c);
  }

  /** The check over a state whose working lists are the lists as read. */
  lemma {:induction false} CheckOnLists(I: Instance, s: State, order: seq<Id>)
    requires WellFormed(I) && Matching(I, s) && s.rlist == I.residents
    requires forall i | 0 <= i < |order| :: order[i] in I.residents
    ensures CheckStability(I, s, Ranks(I.residents), order) == Ok(NoneBlocks(I, s, order))
    decreases |order|
  {
    if |order| > 0 {
      var x := order[0];
      ResidentAsRead(I, s, x);
      CheckOnLists(I, s, order[1..]);
      CheckStep(I, s, Ranks(I.residents), order, Candidates(s, Ranks(I.residents), x).value);
    }
  }

  /** Read against the lists as read, the check answers True exactly when
      no resident of `order` is in a blocking pair. */
  lemma CheckIntendedIsStability(I: Instance, s: State, order: seq<Id>)
    requires WellFormed(I) && Matching(I, s)
    requires forall i | 0 <= i < |order| :: order[i] in I.residents
    ensures CheckIntended(I, s, order) == Ok(forall i, h | 0 <= i < |order| :: !Blocks(I, s, order[i], h))
  {
    var s' := s.(rlist := I.residents);
    CheckOnLists(I, s', order);
    CheckIgnoresBlocks(I, s, s');
  }

  /** The blocking-pair relation does not read the working lists. */
  lemma CheckIgnoresBlocks(I: Instance, s: State, t: State)
    requires t.rmatch == s.rmatch && t.hmatch == s.hmatch
    ensures forall x, h :: Blocks(I, t, x, h) == Blocks(I, s, x, h)
  {
  }

  // ---------------------------------------------------------------------
  // `run`

  /** `stable_matching`: each resident's hospital ("" when unassigned) and
      each hospital's residents in the order they were added. */
  datatype Sided = Sided(residentSided: map<Id, Id>, hospitalSided: map<Id, seq<Id>>)

  /** The dictionary the constructor builds: "" for every resident, an empty
      list for every hospital. */
  function EmptySided(I: Instance): (r: Sided)
    ensures r.residentSided.Keys == I.residents.Keys && r.hospitalSided.Keys == I.hospitals.Keys
    ensures forall x | x in r.residentSided :: r.residentSided[x] == ""
    ensures forall h | h in r.hospitalSided :: r.hospitalSided[h] == []
  {
    Sided(map x | x in I.residents :: "", map h | h in I.hospitals :: [])
  }

  /** The assignment of one resident in `Collect`. */
  function Record(acc: Sided, x: Id, h: Id): Sided
    requires h in acc.hospitalSided
  {
    Sided(acc.residentSided[x := h], acc.hospitalSided[h := acc.hospitalSided[h] + [x]])
  }

  /** The loop of `run` over the residents in `order`: an assigned resident
      is recorded on both sides; a resident without an entry in the matching,
      or `append` on a hospital missing from the dictionary, raises
      KeyError. */
  function Collect(s: State, order: seq<Id>, acc: Sided): (r: Result<Sided>)
    ensures r.Ok? ==> r.value.hospitalSided.Keys == acc.hospitalSided.Keys
    ensures r.Ok? <==> Fits(s, order, acc.hospitalSided.Keys)
    ensures r.Err? ==> r.error == KeyError
    decreases |order|
  {
    if |order| == 0 then Ok(acc)
    else
      assert forall i | 0 <= i < |order[1..]| :: order[1..][i] == order[i + 1];
      var x := order[0];
      if x !in s.rmatch then Err(KeyError)
      else if s.rmatch[x].None? then Collect(s, order[1..], acc)
      else
        var h := s.rmatch[x].value;
        if h !in acc.hospitalSided then Err(KeyError)
        else Collect(s, order[1..], Record(acc, x, h))
  }

  /** Every resident of `order` has an entry in the matching and every
      hospital it names is one of `keys`. */
  ghost predicate Fits(s: State, order: seq<Id>, keys: set<Id>) {
    forall i | 0 <= i < |order| :: order[i] in s.rmatch && (s.rmatch[order[i]].Some? ==> s.rmatch[order[i]].value in keys)
  }

  /** A resident is on a hospital's list exactly when they were there before
      or is one of `order` assigned to it. */
  lemma {:induction false} CollectMember(s: State, order: seq<Id>, acc: Sided, h: Id, y: Id)
    requires Fits(s, order, acc.hospitalSided.Keys) && h in acc.hospitalSided
    ensures Collect(s, order, acc).Ok? &&
      var r := Collect(s, order, acc).value;
      y in r.hospitalSided[h] <==> y in acc.hospitalSided[h] || (y in order && s.rmatch[y] == Some(h))
    decreases |order|
  {
    if |order| > 0 {
      assert forall i | 0 <= i < |order[1..]| :: order[1..][i] == order[i + 1];
      assert y in order <==> y == order[0] || y in order[1..];
      var x := order[0];
      if s.rmatch[x].None? {
        CollectMember(s, order[1..], acc, h, y);
      } else {
        CollectMember(s, order[1..], Record(acc, x, s.rmatch[x].value), h, y);
      }
    }
  }

  /** No hospital's list gains a repetition when `order` has none and
      none of its residents is already listed. */
  lemma {:induction false} CollectNoDup(s: State, order: seq<Id>, acc: Sided, h: Id)
    requires Fits(s, order, acc.hospitalSided.Keys) && h in acc.hospitalSided
    requires NoDup(order) && NoDup(acc.hospitalSided[h])
    requires forall i | 0 <= i < |order| :: order[i] !in acc.hospitalSided[h]
    ensures Collect(s, order, acc).Ok? && NoDup(Collect(s, order, acc).value.hospitalSided[h])
    decreases |order|
  {
    if |order| > 0 {
      assert forall i | 0 <= i < |order[1..]| :: order[1..][i] == order[i + 1];
      NoDupStep(order);
      var x := order[0];
      if s.rmatch[x].None? {
        CollectNoDup(s, order[1..], acc, h);
      } else {
        var acc' := Record(acc, x, s.rmatch[x].value);
        if s.rmatch[x].value == h {
          NoDupSnoc(acc.hospitalSided[h], x);
        }
        CollectNoDup(s, order[1..], acc', h);
      }
    }
  }

  /** The resident side: an assigned resident of `order` gets their hospital,
      every other entry is kept. */
  lemma {:induction false} CollectResident(s: State, order: seq<Id>, acc: Sided, y: Id)
    requires Fits(s, order, acc.hospitalSided.Keys)
    requires y in acc.residentSided && y in s.rmatch
    ensures Collect(s, order, acc).Ok? &&
      var r := Collect(s, order, acc).value;
      y in r.residentSided &&
      r.residentSided[y] == if y in order && s.rmatch[y].Some? then s.rmatch[y].value else acc.residentSided[y]
    decreases |order|
  {
    if |order| > 0 {
      assert forall i | 0 <= i < |order[1..]| :: order[1..][i] == order[i + 1];
      assert y in order <==> y == order[0] || y in order[1..];
      var x := order[0];
      if s.rmatch[x].None? {
        CollectResident(s, order[1..], acc, y);
      } else {
        var acc' := Record(acc, x, s.rmatch[x].value);
        CollectResident(s, order[1..], acc', y);
      }
    }
  }

  /** `run` once the loop has finished with state `s`: the two views of the
      matching, then the check's verdict. */
  function Report(I: Instance, s: State, rrank: map<Id, map<Id, nat>>, order: seq<Id>): (r: Result<(bool, Sided)>)
    ensures r.Ok? ==> CheckStability(I, s, rrank, order) == Ok(r.value.0)
  {
    var m :- Collect(s, order, EmptySided(I));
    var stable :- CheckStability(I, s, rrank, order);
    Ok((stable, m))
  }

  /** On a matching of the instance, `run` records on each hospital's list
      exactly the residents of `order` assigned to it, each once, and gives
      each resident of `order` their hospital or "". */
  lemma RunSides(I: Instance, s: State, order: seq<Id>, h: Id, y: Id)
    requires Matching(I, s) && WellFormed(I) && NoDup(order)
    requires forall i | 0 <= i < |order| :: order[i] in I.residents
    requires h in I.hospitals
    ensures Collect(s, order, EmptySided(I)).Ok?
    ensures var m := Collect(s, order, EmptySided(I)).value;
      && m.hospitalSided.Keys == I.hospitals.Keys
      && (y in m.hospitalSided[h] <==> y in order && s.rmatch[y] == Some(h))
      && NoDup(m.hospitalSided[h])
      && (y in order ==> y in m.residentSided &&
                         m.residentSided[y] == if s.rmatch[y].Some? then s.rmatch[y].value else "")
  {
    var e := EmptySided(I);
    assert Fits(s, order, e.hospitalSided.Keys) by {
      forall i | 0 <= i < |order| && s.rmatch[order[i]].Some?
        ensures s.rmatch[order[i]].value in e.hospitalSided
      {
        var x := order[i];
        assert s.rmatch[x].value in I.residents[x];
      }
    }
    var m := Collect(s, order, e).value;
    assert y in m.hospitalSided[h] <==> y in order && s.rmatch[y] == Some(h) by {
      CollectMember(s, order, e, h, y);
    }
    assert NoDup(m.hospitalSided[h]) by {
      CollectNoDup(s, order, e, h);
    }
    if y in order {
      assert y in m.residentSided && m.residentSided[y] == if s.rmatch[y].Some? then s.rmatch[y].value else "" by {
        CollectResident(s, order, e, y);
      }
    }
  }
}
