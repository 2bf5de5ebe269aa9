/** The super-stability check and `run` of the Stable Marriage problem with
    Ties. The check reads the snapshot of the men's and women's records
    taken at construction: a list of ties and a rank table each. A tie is a
    set; here it is the list of its members in the order iteration visits
    them. */
module SmtCheck {
  import opened Wrappers
  import opened Lists

  type Id = string

  datatype Agent = Agent(list: seq<seq<Id>>, rank: map<Id, nat>)

  /** `M[x]["assigned"]`: None, an empty set, or a partner's id. */
  datatype Held = Free | EmptySet | Holds(partner: Id)

  /** Some tie of `list` holds `x`. */
  ghost predicate Listed(list: seq<seq<Id>>, x: Id) {
    exists g | 0 <= g < |list| :: x in list[g]
  }

  /** `x` is in a tie no later than one holding `y`. */
  ghost predicate WeaklyPrefers(list: seq<seq<Id>>, x: Id, y: Id) {
    exists g, h | 0 <= g <= h < |list| :: x in list[g] && y in list[h]
  }

  /** The rank table gives every listed id the index of its tie, so no id
      is in two ties. */
  ghost predicate Ranked(a: Agent) {
    forall g, x | 0 <= g < |a.list| && x in a.list[g] :: x in a.rank && a.rank[x] == g
  }

  /** The ties a man examines: all of them when he is free; otherwise those
      up to and including his partner's, with the partner removed from the
      last by `set.remove` (a KeyError when she is not there, an IndexError
      when there is no tie). An empty set as the partner is the TypeError
      of hashing it for the rank lookup. */
  function Candidates(a: Agent, h: Held): (r: Result<seq<seq<Id>>>)
    ensures h.Free? ==> r == Ok(a.list)
    ensures h.EmptySet? ==> r == Err(TypeError)
    ensures h.Holds? ==> (r.Ok? <==>
      && h.partner in a.rank && |a.list| > 0
      && h.partner in a.list[if a.rank[h.partner] < |a.list| then a.rank[h.partner] else |a.list| - 1])
    ensures h.Holds? && r.Err? ==> r.error in {KeyError, IndexError}
    ensures h.Holds? && h.partner !in a.rank ==> r == Err(KeyError)
  {
    match h
    case Free => Ok(a.list)
    case EmptySet => Err(TypeError)
    case Holds(p) =>
      if p !in a.rank then Err(KeyError)
      else
        var window := Take(a.list, a.rank[p] + 1);
        if |window| == 0 then Err(IndexError)
        else if p !in window[|window| - 1] then Err(KeyError)
        else Ok(window[..|window| - 1] + [Without(window[|window| - 1], p)])
  }

  /** Membership in the concatenation of the first `k + 1` ties. */
  lemma FlattenUpTo(list: seq<seq<Id>>, k: nat, x: Id)
    requires k < |list|
    ensures x in Flatten(list[..k + 1]) <==> exists g | 0 <= g <= k :: x in list[g]
  {
    if exists g | 0 <= g <= k :: x in list[g] {
      var g :| 0 <= g <= k && x in list[g];
      assert list[..k + 1][g] == list[g];
    }
    if x in Flatten(list[..k + 1]) {
      var t :| t in list[..k + 1] && x in t;
      var g :| 0 <= g <= k && list[..k + 1][g] == t;
    }
  }

  /** A man holding a listed partner examines the ties before hers, then
      hers without her. */
  lemma CandidatesHeldShape(a: Agent, p: Id)
    requires Ranked(a) && Listed(a.list, p)
    ensures p in a.rank && a.rank[p] < |a.list| && p in a.list[a.rank[p]]
    ensures Candidates(a, Holds(p)).Ok?
    ensures Flatten(Candidates(a, Holds(p)).value) == Flatten(a.list[..a.rank[p]]) + Without(a.list[a.rank[p]], p)
  {
    var h :| 0 <= h < |a.list| && p in a.list[h];
    var k := a.rank[p];
    assert k == h;
    assert Take(a.list, k + 1) == a.list[..k + 1];
    assert a.list[..k + 1][..k] == a.list[..k];
    FlattenAppend(a.list[..k], Without(a.list[k], p));
  }

  /** With a rank table by tie index, a man holding a listed partner
      examines exactly the other women he likes at least as much. */
  lemma CandidatesHeld(a: Agent, p: Id, x: Id)
    requires Ranked(a) && Listed(a.list, p)
    ensures Candidates(a, Holds(p)).Ok?
    ensures x in Flatten(Candidates(a, Holds(p)).value) <==> x != p && WeaklyPrefers(a.list, x, p)
  {
    CandidatesHeldShape(a, p);
    if x in Flatten(a.list[..a.rank[p]]) {
      EarlierTie(a, p, x);
    }
    if x != p && WeaklyPrefers(a.list, x, p) {
      PreferredListed(a, p, x);
    }
  }

  /** An id in a tie before the partner's is not the partner and is
      preferred to her. */
  lemma EarlierTie(a: Agent, p: Id, x: Id)
    requires Ranked(a) && p in a.rank && a.rank[p] < |a.list| && p in a.list[a.rank[p]]
    requires x in Flatten(a.list[..a.rank[p]])
    ensures x != p && WeaklyPrefers(a.list, x, p)
  {
    var k := a.rank[p];
    var before := a.list[..k];
    var t :| t in before && x in t;
    var g :| 0 <= g < k && before[g] == t;
    assert a.list[g] == t;
    assert a.rank[x] == g;
  }

  /** Another id liked at least as much as the partner is in a tie before
      hers or in hers. */
  lemma PreferredListed(a: Agent, p: Id, x: Id)
    requires Ranked(a) && p in a.rank && a.rank[p] < |a.list| && p in a.list[a.rank[p]]
    requires x != p && WeaklyPrefers(a.list, x, p)
    ensures x in Flatten(a.list[..a.rank[p]]) + Without(a.list[a.rank[p]], p)
  {
    var k := a.rank[p];
    var g, h' :| 0 <= g <= h' < |a.list| && x in a.list[g] && p in a.list[h'];
    assert h' == k;
    if g < k {
      assert a.list[..k][g] == a.list[g];
    }
  }

  /** A free man examines every listed woman. */
  lemma CandidatesFree(a: Agent, x: Id)
    ensures x in Flatten(Candidates(a, Free).value) <==> Listed(a.list, x)
  {
    if x in Flatten(a.list) {
      var t :| t in a.list && x in t;
      var g :| 0 <= g < |a.list| && a.list[g] == t;
    }
  }

  /** Whether woman `w` would leave her fiancé for man `m`: True when she
      is unassigned, or when he is in one of her ties up to and including
      her fiancé's. Missing records and rank entries are KeyErrors. */
  function Witness(women: map<Id, Agent>, M: map<Id, Held>, m: Id, w: Id): (r: Result<bool>)
    ensures r.Ok? <==> w in M && (M[w].Free? || (M[w].Holds? && w in women && M[w].partner in women[w].rank))
    ensures r.Ok? && M[w].Free? ==> r.value
    ensures r.Err? ==> r.error in {KeyError, TypeError}
  {
    if w !in M then Err(KeyError)
    else
      match M[w]
      case Free => Ok(true)
      case EmptySet => if w !in women then Err(KeyError) else Err(TypeError)
      case Holds(f) =>
        if w !in women || f !in women[w].rank then Err(KeyError)
        else Ok(m in Flatten(Take(women[w].list, women[w].rank[f] + 1)))
  }

  /** The woman's side is defined for man `m`: her records exist, her rank
      table is by tie index, she lists `m` (acceptability is mutual) and
      lists her fiancé. */
  ghost predicate WomanDefined(women: map<Id, Agent>, M: map<Id, Held>, m: Id, w: Id) {
    && w in M && w in women && !M[w].EmptySet?
    && Ranked(women[w]) && Listed(women[w].list, m)
    && (M[w].Holds? ==> Listed(women[w].list, M[w].partner))
  }

  /** Woman `w` would take `m`: she is free or likes him at least as much
      as her fiancé. */
  ghost predicate WouldTake(women: map<Id, Agent>, M: map<Id, Held>, m: Id, w: Id) {
    WomanDefined(women, M, m, w) && (M[w].Free? || WeaklyPrefers(women[w].list, m, M[w].partner))
  }

  /** On a defined woman, the witness test is `WouldTake`. */
  lemma WitnessMeaning(women: map<Id, Agent>, M: map<Id, Held>, m: Id, w: Id)
    requires WomanDefined(women, M, m, w)
    ensures Witness(women, M, m, w) == Ok(WouldTake(women, M, m, w))
  {
    if M[w].Holds? {
      var a := women[w];
      var f := M[w].partner;
      var h :| 0 <= h < |a.list| && f in a.list[h];
      assert a.rank[f] == h;
      assert Take(a.list, h + 1) == a.list[..h + 1];
      FlattenUpTo(a.list, h, m);
      if exists g | 0 <= g <= h :: m in a.list[g] {
        var g :| 0 <= g <= h && m in a.list[g];
        assert WeaklyPrefers(a.list, m, f);
      }
      if WeaklyPrefers(a.list, m, f) {
        var g, h' :| 0 <= g <= h' < |a.list| && m in a.list[g] && f in a.list[h'];
        assert h' == h;
      }
    }
  }

  /** The loops over the candidate ties: True at the first woman who would
      take the man. */
  function ScanWomen(women: map<Id, Agent>, M: map<Id, Held>, m: Id, ws: seq<Id>): (r: Result<bool>)
    ensures r == Ok(true) ==> exists i | 0 <= i < |ws| :: Witness(women, M, m, ws[i]) == Ok(true)
    ensures r == Ok(false) ==> forall i | 0 <= i < |ws| :: Witness(women, M, m, ws[i]) == Ok(false)
  {
    if |ws| == 0 then Ok(false)
    else
      var b := Witness(women, M, m, ws[0]);
      if b.Err? then Err(b.error)
      else if b.value then Ok(true)
      else
        var r := ScanWomen(women, M, m, ws[1..]);
        assert forall i | 0 <= i < |ws[1..]| :: ws[1..][i] == ws[i + 1];
        r
  }

  /** When every woman scanned is defined, the loops find one exactly when
      some woman would take the man. */
  lemma {:induction false} ScanWomenMeaning(women: map<Id, Agent>, M: map<Id, Held>, m: Id, ws: seq<Id>)
    requires forall i | 0 <= i < |ws| :: WomanDefined(women, M, m, ws[i])
    ensures ScanWomen(women, M, m, ws) == Ok(exists i | 0 <= i < |ws| :: WouldTake(women, M, m, ws[i]))
  {
    if |ws| > 0 {
      WitnessMeaning(women, M, m, ws[0]);
      ScanWomenMeaning(women, M, m, ws[1..]);
      if exists i | 1 <= i < |ws| :: WouldTake(women, M, m, ws[i]) {
        var i :| 1 <= i < |ws| && WouldTake(women, M, m, ws[i]);
        assert ws[1..][i - 1] == ws[i];
      }
      if exists i | 0 <= i < |ws[1..]| :: WouldTake(women, M, m, ws[1..][i]) {
        var i :| 0 <= i < |ws[1..]| && WouldTake(women, M, m, ws[1..][i]);
        assert ws[1..][i] == ws[i + 1];
      }
    }
  }

  /** One man of the check: True when some candidate woman would take him. */
  function CheckMan(men: map<Id, Agent>, women: map<Id, Agent>, M: map<Id, Held>, m: Id): (r: Result<bool>)
    requires m in men
    ensures m !in M ==> r == Err(KeyError)
  {
    if m !in M then Err(KeyError)
    else
      var cands := Candidates(men[m], M[m]);
      if cands.Err? then Err(cands.error)
      else ScanWomen(women, M, m, Flatten(cands.value))
  }

  /** `_check_stability` over the men in the snapshot's order: False at the
      first man a candidate woman would take, else True. */
  function CheckFrom(men: map<Id, Agent>, women: map<Id, Agent>, M: map<Id, Held>, order: seq<Id>): (r: Result<bool>)
    requires forall m | m in order :: m in men
    ensures r == Ok(false) ==> exists m | m in order :: CheckMan(men, women, M, m) == Ok(true)
    ensures r == Ok(true) ==> forall m | m in order :: CheckMan(men, women, M, m) == Ok(false)
  {
    if |order| == 0 then Ok(true)
    else
      var b := CheckMan(men, women, M, order[0]);
      if b.Err? then Err(b.error)
      else if b.value then Ok(false)
      else
        assert forall t | t in order[1..] :: t in order;
        var r := CheckFrom(men, women, M, order[1..]);
        assert forall t | t in order :: t == order[0] || t in order[1..];
        r
  }

  // ---------------------------------------------------------------------
  // Super-stability, stated on the ties

  /** Everything the check reads about man `m` exists and fits: his rank
      table is by tie index, he lists his partner, and every woman he
      lists is defined for him. */
  ghost predicate ManDefined(men: map<Id, Agent>, women: map<Id, Agent>, M: map<Id, Held>, m: Id) {
    && m in men && m in M && !M[m].EmptySet?
    && Ranked(men[m])
    && (M[m].Holds? ==> Listed(men[m].list, M[m].partner))
    && forall w | Listed(men[m].list, w) :: WomanDefined(women, M, m, w)
  }

  /** Man `m` would take `w`: he is free and lists her, or she is another
      woman he likes at least as much as his partner. */
  ghost predicate Considers(men: map<Id, Agent>, M: map<Id, Held>, m: Id, w: Id)
    requires m in men && m in M
  {
    if M[m].Holds? then w != M[m].partner && WeaklyPrefers(men[m].list, w, M[m].partner)
    else Listed(men[m].list, w)
  }

  /** `(m, w)` blocks a super-stable matching: each is free or likes the
      other at least as much as their partner. */
  ghost predicate Blocks(men: map<Id, Agent>, women: map<Id, Agent>, M: map<Id, Held>, m: Id, w: Id) {
    && ManDefined(men, women, M, m)
    && Listed(men[m].list, w)
    && Considers(men, M, m, w)
    && WouldTake(women, M, m, w)
  }

  /** No man of `order` forms a blocking pair with any woman. */
  ghost predicate SuperStable(men: map<Id, Agent>, women: map<Id, Agent>, M: map<Id, Held>, order: seq<Id>) {
    forall m, w | m in order :: !Blocks(men, women, M, m, w)
  }

  /** For a defined man, the examined women are exactly those he would
      take. */
  lemma ManCandidates(men: map<Id, Agent>, women: map<Id, Agent>, M: map<Id, Held>, m: Id)
    requires ManDefined(men, women, M, m)
    ensures Candidates(men[m], M[m]).Ok?
    ensures var ws := Flatten(Candidates(men[m], M[m]).value);
      && (forall x :: x in ws <==> Listed(men[m].list, x) && Considers(men, M, m, x))
      && (forall i | 0 <= i < |ws| :: WomanDefined(women, M, m, ws[i]))
  {
    var a := men[m];
    if M[m].Holds? {
      CandidatesHeld(a, M[m].partner, "");
    }
    var ws := Flatten(Candidates(a, M[m]).value);
    forall x ensures x in ws <==> Listed(a.list, x) && Considers(men, M, m, x) {
      if M[m].Holds? {
        CandidatesHeld(a, M[m].partner, x);
        if WeaklyPrefers(a.list, x, M[m].partner) {
          var g, h :| 0 <= g <= h < |a.list| && x in a.list[g] && M[m].partner in a.list[h];
        }
      } else {
        CandidatesFree(a, x);
      }
    }
    forall i | 0 <= i < |ws| ensures WomanDefined(women, M, m, ws[i]) {
      assert ws[i] in ws;
    }
  }

  /** For a defined man, the check of that man answers whether he is in a
      blocking pair. */
  lemma ManMeaning(men: map<Id, Agent>, women: map<Id, Agent>, M: map<Id, Held>, m: Id)
    requires ManDefined(men, women, M, m)
    ensures CheckMan(men, women, M, m) == Ok(exists w :: Blocks(men, women, M, m, w))
  {
    ManCandidates(men, women, M, m);
    var ws := Flatten(Candidates(men[m], M[m]).value);
    ScanWomenMeaning(women, M, m, ws);
    var C := iset x | Listed(men[m].list, x) && Considers(men, M, m, x);
    var B := iset x | WouldTake(women, M, m, x);
    SomeInSeq(ws, C, B);
    assert (exists i | 0 <= i < |ws| :: WouldTake(women, M, m, ws[i])) <==> exists i | 0 <= i < |ws| :: ws[i] in B;
    if exists x | x in C :: x in B {
      var x :| x in C && x in B;
      assert Blocks(men, women, M, m, x);
    }
    if exists w :: Blocks(men, women, M, m, w) {
      var w :| Blocks(men, women, M, m, w);
      assert w in C && w in B;
    }
  }

  /** The check answers, without error, exactly whether the matching is
      super-stable, whenever every lookup it makes is defined. */
  lemma {:induction false} CheckSuperStable(men: map<Id, Agent>, women: map<Id, Agent>, M: map<Id, Held>, order: seq<Id>)
    requires forall m | m in order :: m in men
    requires forall m | m in order :: ManDefined(men, women, M, m)
    ensures CheckFrom(men, women, M, order) == Ok(SuperStable(men, women, M, order))
  {
    if |order| > 0 {
      var m := order[0];
      ManMeaning(men, women, M, m);
      assert forall t | t in order[1..] :: t in order;
      CheckSuperStable(men, women, M, order[1..]);
      assert forall t | t in order :: t == m || t in order[1..];
    }
  }

  // ---------------------------------------------------------------------
  // run

  /** An entry of a view: the initial "", a None copied from `M`, or an id. */
  datatype Entry = Blank | NoneEntry | Mate(id: Id)

  datatype Views = Views(manSided: map<Id, Entry>, womanSided: map<Id, Entry>)

  datatype Outcome = Found(views: Views) | NoneFound

  /** Every id mapped to "". */
  function Blanks(ids: seq<Id>): (v: map<Id, Entry>)
    ensures forall x :: x in v <==> x in ids
    ensures forall x | x in v :: v[x] == Blank
  {
    if |ids| == 0 then map[] else Blanks(ids[..|ids| - 1])[ids[|ids| - 1] := Blank]
  }

  /** What `view[x] = M[x]["assigned"]` leaves in the view when the value
      is not the empty set. */
  function Copied(h: Held, prior: Entry): Entry {
    match h
    case EmptySet => prior
    case Free => NoneEntry
    case Holds(w) => Mate(w)
  }

  /** One view filled from `M` over ids that are already its keys: each
      value other than the empty set is copied in; a missing id is a
      KeyError. */
  function Fill(ids: seq<Id>, M: map<Id, Held>, view: map<Id, Entry>): (r: Result<map<Id, Entry>>)
    requires forall x | x in ids :: x in view
    ensures r.Ok? <==> forall x | x in ids :: x in M
    ensures r.Err? ==> r.error == KeyError
    ensures r.Ok? ==> r.value.Keys == view.Keys
    decreases |ids|
  {
    if |ids| == 0 then Ok(view)
    else if ids[0] !in M then Err(KeyError)
    else
      assert forall x | x in ids :: x == ids[0] || x in ids[1..];
      assert forall x | x in ids[1..] :: x in ids;
      Fill(ids[1..], M, view[ids[0] := Copied(M[ids[0]], view[ids[0]])])
  }

  /** After filling, a listed id holds its copied value and any other key
      keeps its own. */
  lemma {:induction false} FillAt(ids: seq<Id>, M: map<Id, Held>, view: map<Id, Entry>, x: Id)
    requires forall y | y in ids :: y in view
    requires Fill(ids, M, view).Ok? && x in view
    ensures x in Fill(ids, M, view).value
    ensures Fill(ids, M, view).value[x] == if x in ids then Copied(M[x], view[x]) else view[x]
    decreases |ids|
  {
    if |ids| > 0 {
      var view' := view[ids[0] := Copied(M[ids[0]], view[ids[0]])];
      assert forall y | y in ids[1..] :: y in ids;
      FillAt(ids[1..], M, view', x);
      assert x in ids <==> x == ids[0] || x in ids[1..];
    }
  }

  /** `run`: when the loop finds a matching, both views are filled from
      `M` and the matching is reported as super-stable without checking;
      otherwise "no super-stable matching". */
  function Run(loopFound: bool, menOrder: seq<Id>, womenOrder: seq<Id>, M: map<Id, Held>): (r: Result<Outcome>)
    ensures !loopFound ==> r == Ok(NoneFound)
    ensures loopFound ==> (r.Ok? <==> (forall x | x in menOrder :: x in M) && (forall x | x in womenOrder :: x in M))
    ensures r.Ok? && loopFound ==> r.value.Found?
    ensures r.Ok? && loopFound ==> r.value.views.manSided.Keys == Blanks(menOrder).Keys
    ensures r.Ok? && loopFound ==> r.value.views.womanSided.Keys == Blanks(womenOrder).Keys
  {
    if !loopFound then Ok(NoneFound)
    else
      var men := Fill(menOrder, M, Blanks(menOrder));
      var women := Fill(womenOrder, M, Blanks(womenOrder));
      if men.Err? then Err(men.error)
      else if women.Err? then Err(women.error)
      else Ok(Found(Views(men.value, women.value)))
  }

  /** After a successful loop, a man's entry is his partner, None when he
      is free, and "" when `M` holds the empty set. */
  lemma RunManEntry(menOrder: seq<Id>, womenOrder: seq<Id>, M: map<Id, Held>, x: Id)
    requires Run(true, menOrder, womenOrder, M).Ok? && x in menOrder
    ensures x in Run(true, menOrder, womenOrder, M).value.views.manSided
    ensures Run(true, menOrder, womenOrder, M).value.views.manSided[x] == Copied(M[x], Blank)
  {
    FillAt(menOrder, M, Blanks(menOrder), x);
  }

  /** The same for a woman's entry. */
  lemma RunWomanEntry(menOrder: seq<Id>, womenOrder: seq<Id>, M: map<Id, Held>, x: Id)
    requires Run(true, menOrder, womenOrder, M).Ok? && x in womenOrder
    ensures x in Run(true, menOrder, womenOrder, M).value.views.womanSided
    ensures Run(true, menOrder, womenOrder, M).value.views.womanSided[x] == Copied(M[x], Blank)
  {
    FillAt(womenOrder, M, Blanks(womenOrder), x);
  }

  /** `run` reports a matching the check rejects: m1 and w1 list each
      other and are both free, so they block, yet the loop's success is
      reported as super-stable. */
  lemma RunSkipsCheck()
    ensures var men := map["m1" := Agent([["w1"]], map["w1" := 0])];
      var women := map["w1" := Agent([["m1"]], map["m1" := 0])];
      var M := map["m1" := Free, "w1" := Free];
      && CheckFrom(men, women, M, ["m1"]) == Ok(false)
      && Run(true, ["m1"], ["w1"], M).Ok?
      && Run(true, ["m1"], ["w1"], M).value.Found?
  {
    var M := map["m1" := Free, "w1" := Free];
    var women := map["w1" := Agent([["m1"]], map["m1" := 0])];
    assert Flatten([["w1"]]) == ["w1"];
    assert ScanWomen(women, M, "m1", ["w1"]) == Ok(true);
  }
}
