/** The helpers of the strong-stability algorithm for hospitals/residents
    with ties: the domination index of a full hospital, the deletion of
    the residents it dominates, and the resets of the graph G_r and of the
    maximum matching. Preference lists are sequences of ties; a tie is a
    set of ids. */
module HRTStrong {
  import opened Wrappers
  import opened Lists

  type Id = string

  // ---------------------------------------------------------------------
  // The domination index
  // ---------------------------------------------------------------------

  /** The number of assigned residents in the first `k` ties. */
  function Seen(ties: seq<set<Id>>, held: set<Id>, k: nat): nat
    requires k <= |ties|
  {
    if k == 0 then 0 else Seen(ties, held, k - 1) + |ties[k - 1] * held|
  }

  /** `i` is the first tie by which the assigned residents seen reach the
      capacity. */
  predicate Dominates(ties: seq<set<Id>>, held: set<Id>, capacity: int, i: nat) {
    && i < |ties|
    && Seen(ties, held, i + 1) >= capacity
    && forall j | 1 <= j <= i :: Seen(ties, held, j) < capacity
  }

  /** `_get_domination_index`: walk the ties, adding the assigned residents
      of each to the count, and return the index of the tie at which the
      count reaches the capacity; ValueError when it never does (the
      hospital is neither full nor oversubscribed). */
  method DominationIndex(ties: seq<set<Id>>, held: set<Id>, capacity: int) returns (r: Result<nat>)
    ensures r.Ok? ==> Dominates(ties, held, capacity, r.value)
    ensures r.Err? <==> forall j | 1 <= j <= |ties| :: Seen(ties, held, j) < capacity
    ensures r.Err? ==> r.error == ValueError
  {
    var seen := 0;
    var idx := 0;
    while idx < |ties|
      invariant idx <= |ties|
      invariant seen == Seen(ties, held, idx)
      invariant forall j | 1 <= j <= idx :: Seen(ties, held, j) < capacity
    {
      seen := seen + |ties[idx] * held|;
      if seen >= capacity {
        return Ok(idx);
      }
      idx := idx + 1;
    }
    return Err(ValueError);
  }

  /** The index is unique: two dominating indices agree. */
  lemma DominatesUnique(ties: seq<set<Id>>, held: set<Id>, capacity: int, i: nat, k: nat)
    requires Dominates(ties, held, capacity, i) && Dominates(ties, held, capacity, k)
    ensures i == k
  {
  }

  /** Ties are disjoint: no resident appears in two ties. */
  ghost predicate Disjoint(ties: seq<set<Id>>) {
    forall i, j | 0 <= i < j < |ties| :: ties[i] * ties[j] == {}
  }

  /** The residents of a list of ties. */
  function Union(ties: seq<set<Id>>): (r: set<Id>)
    ensures forall x :: x in r <==> exists i | 0 <= i < |ties| :: x in ties[i]
  {
    if |ties| == 0 then {}
    else
      var r := Union(ties[..|ties| - 1]) + ties[|ties| - 1];
      assert forall i | 0 <= i < |ties| - 1 :: ties[..|ties| - 1][i] == ties[i];
      r
  }

  /** On disjoint ties, the count after `k` ties is the number of assigned
      residents among them. */
  lemma {:induction false} SeenCounts(ties: seq<set<Id>>, held: set<Id>, k: nat)
    requires Disjoint(ties) && k <= |ties|
    ensures Seen(ties, held, k) == |Union(ties[..k]) * held|
  {
    if k > 0 {
      SeenCounts(ties, held, k - 1);
      UnionLast(ties, k);
      UnionApart(ties, k);
      CountApart(Union(ties[..k]), Union(ties[..k - 1]), ties[k - 1], held);
    }
  }

  /** Counting the assigned members of a union of two disjoint sets. */
  lemma CountApart(a: set<Id>, b: set<Id>, c: set<Id>, held: set<Id>)
    requires a == b + c && b * c == {}
    ensures |a * held| == |b * held| + |c * held|
  {
    assert a * held == b * held + c * held;
    assert (b * held) * (c * held) == {};
  }

  /** The residents of the first `k` ties are those of the first `k - 1`
      and the `k`-th tie. */
  lemma UnionLast(ties: seq<set<Id>>, k: nat)
    requires 0 < k <= |ties|
    ensures Union(ties[..k]) == Union(ties[..k - 1]) + ties[k - 1]
  {
    assert ties[..k][..k - 1] == ties[..k - 1];
  }

  /** On disjoint ties, the `k`-th tie shares no resident with the ties
      before it. */
  lemma UnionApart(ties: seq<set<Id>>, k: nat)
    requires Disjoint(ties) && 0 < k <= |ties|
    ensures Union(ties[..k - 1]) * ties[k - 1] == {}
  {
    var u := Union(ties[..k - 1]);
    forall x | x in u ensures x !in ties[k - 1] {
      var i :| 0 <= i < k - 1 && x in ties[..k - 1][i];
      assert x in ties[i];
      assert ties[i] * ties[k - 1] == {};
      assert x !in ties[i] * ties[k - 1];
    }
  }

  /** A full hospital (at least `capacity` of its assigned residents are on
      its disjoint list) has a domination index, so the method does not
      raise. */
  lemma FullDominates(ties: seq<set<Id>>, held: set<Id>, capacity: int)
    requires Disjoint(ties) && held <= Union(ties) && |held| >= capacity
    requires |ties| > 0
    ensures exists i :: Dominates(ties, held, capacity, i)
  {
    SeenCounts(ties, held, |ties|);
    assert ties[..|ties|] == ties;
    assert Union(ties) * held == held;
    FirstReach(ties, held, capacity, |ties|, 1);
  }

  /** Scanning up from `m`, some count reaches the capacity by `k`: the
      first one to do so is the domination index. */
  lemma {:induction false} FirstReach(ties: seq<set<Id>>, held: set<Id>, capacity: int, k: nat, m: nat)
    requires 1 <= m <= k <= |ties| && Seen(ties, held, k) >= capacity
    requires forall j | 1 <= j < m :: Seen(ties, held, j) < capacity
    ensures exists i :: Dominates(ties, held, capacity, i)
    decreases k - m
  {
    if Seen(ties, held, m) >= capacity {
      assert Dominates(ties, held, capacity, m - 1);
    } else {
      FirstReach(ties, held, capacity, k, m + 1);
    }
  }

  // ---------------------------------------------------------------------
  // Deleting the dominated residents
  // ---------------------------------------------------------------------

  /** An agent's working state: its list of ties and the set it is
      assigned to (`M[agent]["assigned"]`). */
  datatype Agent = Agent(ties: seq<set<Id>>, held: set<Id>)

  /** Residents, hospitals, and the hospitals' capacities. */
  datatype State = State(residents: map<Id, Agent>, hospitals: map<Id, Agent>, capacity: map<Id, int>)

  /** Every tie with the ids `xs` taken out; the ties themselves stay. */
  function Strip(ties: seq<set<Id>>, xs: set<Id>): (r: seq<set<Id>>)
    ensures |r| == |ties| && forall j | 0 <= j < |ties| :: r[j] == ties[j] - xs
  {
    seq(|ties|, j requires 0 <= j < |ties| => ties[j] - xs)
  }

  /** An agent with the ids `xs` taken out of its list and its assignment. */
  function Cut(a: Agent, xs: set<Id>): Agent {
    Agent(Strip(a.ties, xs), a.held - xs)
  }

  /** One rejection `_break_assignment` then `_delete_pair` of hospital `h`
      and resident `r`: each leaves the other's assignment and list. */
  function Reject(st: State, h: Id, r: Id): (st': State)
    requires h in st.hospitals && r in st.residents
    ensures st'.hospitals.Keys == st.hospitals.Keys && st'.residents.Keys == st.residents.Keys
  {
    State(st.residents[r := Cut(st.residents[r], {h})],
          st.hospitals[h := Cut(st.hospitals[h], {r})],
          st.capacity)
  }

  /** The nested loops of `_delete_dominated_residents`: reject the residents
      one after another, in the order the loops visit them. */
  function RejectEach(st: State, h: Id, order: seq<Id>): (st': State)
    requires h in st.hospitals && forall i | 0 <= i < |order| :: order[i] in st.residents
    ensures st'.hospitals.Keys == st.hospitals.Keys && st'.residents.Keys == st.residents.Keys
    decreases |order|
  {
    if |order| == 0 then st
    else RejectEach(Reject(st, h, order[0]), h, order[1..])
  }

  /** The state after rejecting the set `R` of residents, stated without an
      order: `h` loses `R` from its ties and assignment, every resident of
      `R` loses `h`, and nothing else changes. */
  function Rejected(st: State, h: Id, R: set<Id>): (st': State)
    requires h in st.hospitals
  {
    State(map r | r in st.residents :: if r in R then Cut(st.residents[r], {h}) else st.residents[r],
          st.hospitals[h := Cut(st.hospitals[h], R)],
          st.capacity)
  }

  /** Cutting twice is cutting the union. */
  lemma CutCut(a: Agent, xs: set<Id>, ys: set<Id>)
    ensures Cut(Cut(a, xs), ys) == Cut(a, xs + ys)
  {
    var l := Strip(Strip(a.ties, xs), ys);
    var r := Strip(a.ties, xs + ys);
    forall j | 0 <= j < |l| ensures l[j] == r[j] {
      assert (a.ties[j] - xs) - ys == a.ties[j] - (xs + ys);
    }
  }

  /** Rejecting nobody changes nothing. */
  lemma RejectedNone(st: State, h: Id)
    requires h in st.hospitals
    ensures Rejected(st, h, {}) == st
  {
    var t := st.hospitals[h].ties;
    forall j | 0 <= j < |t| ensures Strip(t, {})[j] == t[j] {
      assert t[j] - {} == t[j];
    }
    assert Cut(st.hospitals[h], {}) == st.hospitals[h];
    assert Rejected(st, h, {}).residents == st.residents;
  }

  /** Rejecting `r`, then the set `R`, rejects `{r} + R`. */
  lemma RejectedStep(st: State, h: Id, r: Id, R: set<Id>)
    requires h in st.hospitals && r in st.residents
    ensures Rejected(Reject(st, h, r), h, R) == Rejected(st, h, {r} + R)
  {
    var st1 := Reject(st, h, r);
    CutCut(st.hospitals[h], {r}, R);
    forall x | x in st.residents
      ensures (if x in R then Cut(st1.residents[x], {h}) else st1.residents[x])
           == (if x in {r} + R then Cut(st.residents[x], {h}) else st.residents[x])
    {
      CutCut(st.residents[x], {h}, {h});
      assert {h} + {h} == {h};
    }
  }

  /** The rejection loops reach the same state whatever order they visit
      the residents in: the state `Rejected` describes. */
  lemma {:induction false} RejectEachIsRejected(st: State, h: Id, order: seq<Id>)
    requires h in st.hospitals && forall i | 0 <= i < |order| :: order[i] in st.residents
    ensures RejectEach(st, h, order) == Rejected(st, h, Elems(order))
    decreases |order|
  {
    if |order| == 0 {
      RejectedNone(st, h);
      assert Elems(order) == {};
    } else {
      RejectEachIsRejected(Reject(st, h, order[0]), h, order[1..]);
      RejectedStep(st, h, order[0], Elems(order[1..]));
      assert Elems(order) == {order[0]} + Elems(order[1..]);
    }
  }

  /** `_delete_dominated_residents`: find the domination index (ValueError
      when the hospital is not full), then reject every resident in the
      ties after it. */
  method DeleteDominated(st: State, h: Id) returns (r: Result<State>)
    requires h in st.hospitals && h in st.capacity
    requires Union(st.hospitals[h].ties) <= st.residents.Keys
    ensures var H := st.hospitals[h];
      r.Err? <==> forall j | 1 <= j <= |H.ties| :: Seen(H.ties, H.held, j) < st.capacity[h]
    ensures r.Err? ==> r.error == ValueError
    ensures var H := st.hospitals[h];
      r.Ok? ==> exists i :: Dominates(H.ties, H.held, st.capacity[h], i)
                         && r.value == Rejected(st, h, Union(H.ties[i + 1..]))
  {
    var H := st.hospitals[h];
    var d := DominationIndex(H.ties, H.held, st.capacity[h]);
    if d.Err? {
      return Err(d.error);
    }
    var i := d.value;
    r := Ok(Rejected(st, h, Union(H.ties[i + 1..])));
    assert Dominates(H.ties, H.held, st.capacity[h], i) && r.value == Rejected(st, h, Union(H.ties[i + 1..]));
  }

  /** What the deletion leaves at the hospital, when its ties are disjoint:
      the ties up to the index are untouched, the later ones are emptied,
      and only residents of the later ties leave its assignment; each of
      those residents loses the hospital, and every other resident is
      unchanged. */
  lemma RejectedFacts(st: State, h: Id, i: nat, x: Id)
    requires h in st.hospitals && i < |st.hospitals[h].ties| && Disjoint(st.hospitals[h].ties)
    ensures var H := st.hospitals[h];
      var st' := Rejected(st, h, Union(H.ties[i + 1..]));
      && st'.hospitals.Keys == st.hospitals.Keys && st'.residents.Keys == st.residents.Keys
      && |st'.hospitals[h].ties| == |H.ties|
      && st'.hospitals[h].ties[..i + 1] == H.ties[..i + 1]
      && (forall j | i < j < |H.ties| :: st'.hospitals[h].ties[j] == {})
      && st'.hospitals[h].held == H.held - Union(H.ties[i + 1..])
      && (x in st.residents && x in Union(H.ties[i + 1..]) ==>
            st'.residents[x].held == st.residents[x].held - {h})
      && (x in st.residents && x !in Union(H.ties[i + 1..]) ==> st'.residents[x] == st.residents[x])
      && (x in st.hospitals && x != h ==> st'.hospitals[x] == st.hospitals[x])
  {
    var H := st.hospitals[h];
    var R := Union(H.ties[i + 1..]);
    var T := Strip(H.ties, R);
    forall j | 0 <= j <= i ensures T[j] == H.ties[j] {
      forall y | y in R ensures y !in H.ties[j] {
        var k :| 0 <= k < |H.ties[i + 1..]| && y in H.ties[i + 1..][k];
        assert H.ties[i + 1..][k] == H.ties[i + 1 + k] && j < i + 1 + k;
        assert H.ties[j] * H.ties[i + 1 + k] == {};
        assert y !in H.ties[j] * H.ties[i + 1 + k];
      }
    }
    forall j | i < j < |H.ties| ensures T[j] == {} {
      assert H.ties[j] == H.ties[i + 1..][j - i - 1];
    }
  }

  // ---------------------------------------------------------------------
  // The resets
  // ---------------------------------------------------------------------

  /** `_reset_G_r`: every resident and every hospital starts with no edge. */
  function ResetGr(residents: set<Id>, hospitals: set<Id>): (g: map<Id, set<Id>>)
    ensures g.Keys == residents + hospitals
    ensures forall k | k in g :: g[k] == {}
  {
    map k | k in residents + hospitals :: {}
  }

  /** The maximum matching of G_r: a resident's hospital (or none) and a
      hospital's residents, with the distances of the search. */
  datatype MaxMatching = MaxMatching(resident: map<Id, Option<Id>>, hospital: map<Id, set<Id>>, dist: map<Id, int>)

  /** A matching of G_r whose two sides agree. */
  ghost predicate Consistent(m: MaxMatching) {
    && (forall r | r in m.resident && m.resident[r].Some? ::
          m.resident[r].value in m.hospital && r in m.hospital[m.resident[r].value])
    && (forall h, r {:trigger r in m.hospital[h]} | h in m.hospital && r in m.hospital[h] ::
          r in m.resident && m.resident[r] == Some(h))
  }

  /** The number of matched pairs. */
  function Size(m: MaxMatching): nat {
    |set r | r in m.resident && m.resident[r].Some?|
  }

  /** `_reset_maximum_matching`: every resident unmatched, every hospital
      empty, no distances. */
  function ResetMaximumMatching(residents: set<Id>, hospitals: set<Id>): (m: MaxMatching)
    ensures m.resident.Keys == residents && m.hospital.Keys == hospitals && m.dist == map[]
    ensures forall r | r in m.resident :: m.resident[r] == None
    ensures forall h | h in m.hospital :: m.hospital[h] == {}
  {
    MaxMatching(map r | r in residents :: None, map h | h in hospitals :: {}, map[])
  }

  /** The reset matching is a consistent matching of size zero. */
  lemma ResetIsEmptyMatching(residents: set<Id>, hospitals: set<Id>)
    ensures Consistent(ResetMaximumMatching(residents, hospitals))
    ensures Size(ResetMaximumMatching(residents, hospitals)) == 0
  {
    var m := ResetMaximumMatching(residents, hospitals);
    assert (set r | r in m.resident && m.resident[r].Some?) == {};
  }
}
