/** `SMAbstract`: the blocking-pair check and `run`, in the two versions of
    the class (the boolean check of the main tree and the flag-setting check
    of the FixesSMHR tree), applied to either engine. */
module SMCheck {
  import opened Wrappers
  import opened Lists
  import opened SMEngine

  /** One side's records as the check reads them: `list` and `rank` of
      `self.men` or `self.women`. */
  datatype Side = Side(list: Prefs, rank: map<Id, map<Id, nat>>)

  /** The women a man would rather have: all of his list when single, else
      the entries before his partner's rank. */
  function Candidates(men: Side, mm: map<Id, Option<Id>>, man: Id): (r: Result<seq<Id>>)
    ensures r.Ok? <==> (man in men.list && man in mm &&
                        (mm[man].Some? ==> man in men.rank && mm[man].value in men.rank[man]))
    ensures r.Ok? ==> r.value <= men.list[man]
    ensures r.Ok? && mm[man].None? ==> r.value == men.list[man]
  {
    if man !in men.list || man !in mm then Err(KeyError)
    else if mm[man].None? then Ok(men.list[man])
    else if man !in men.rank || mm[man].value !in men.rank[man] then Err(KeyError)
    else Ok(Take(men.list[man], men.rank[man][mm[man].value]))
  }

  /** Whether `woman` gives the check its witness for `man`: she is single,
      or `man` occurs in her list before her partner's rank. Missing
      records and rank entries are KeyErrors. */
  function Witness(women: Side, wm: map<Id, Option<Id>>, man: Id, woman: Id): (r: Result<bool>)
    ensures r.Ok? <==> (woman in wm &&
                        (wm[woman].Some? ==> woman in women.list && woman in women.rank && wm[woman].value in women.rank[woman]))
    ensures r.Ok? && wm[woman].None? ==> r.value
    ensures r.Ok? && r.value && wm[woman].Some? ==> woman in women.list && man in women.list[woman]
    ensures r.Ok? && wm[woman].Some? ==>
      (r.value <==> exists i | 0 <= i < |women.list[woman]| && i < women.rank[woman][wm[woman].value] :: women.list[woman][i] == man)
  {
    if woman !in wm then Err(KeyError)
    else if wm[woman].None? then Ok(true)
    else if woman !in women.rank || wm[woman].value !in women.rank[woman] || woman !in women.list then Err(KeyError)
    else Ok(man in Take(women.list[woman], women.rank[woman][wm[woman].value]))
  }

  /** The inner loop of `_check_stability`: true at the first witness. */
  function Scan(women: Side, wm: map<Id, Option<Id>>, man: Id, ws: seq<Id>): (r: Result<bool>)
    ensures r == Ok(true) ==> exists i | 0 <= i < |ws| :: Witness(women, wm, man, ws[i]) == Ok(true)
    ensures r == Ok(false) ==> forall i | 0 <= i < |ws| :: Witness(women, wm, man, ws[i]) == Ok(false)
    ensures (forall i | 0 <= i < |ws| :: Witness(women, wm, man, ws[i]).Ok?) ==> r.Ok?
  {
    if |ws| == 0 then Ok(false)
    else
      var b :- Witness(women, wm, man, ws[0]);
      if b then Ok(true)
      else
        var r := Scan(women, wm, man, ws[1..]);
        assert r == Ok(true) ==> exists i | 0 <= i < |ws[1..]| :: Witness(women, wm, man, ws[1..][i]) == Ok(true);
        assert forall i | 0 <= i < |ws[1..]| :: ws[1..][i] == ws[i + 1];
        r
  }

  /** `man` has a candidate who is a witness. */
  ghost predicate HasWitness(man: Id, men: Side, women: Side, mm: map<Id, Option<Id>>, wm: map<Id, Option<Id>>) {
    var c := Candidates(men, mm, man);
    c.Ok? && exists j | 0 <= j < |c.value| :: Witness(women, wm, man, c.value[j]) == Ok(true)
  }

  /** `_check_stability` of the main tree: men in `order` (the dictionary's
      key order), False at the first witness, True when none is found. */
  function CheckStability(order: seq<Id>, men: Side, women: Side, mm: map<Id, Option<Id>>, wm: map<Id, Option<Id>>): (r: Result<bool>)
    ensures r == Ok(true) ==> forall i | 0 <= i < |order| :: !HasWitness(order[i], men, women, mm, wm)
    ensures r == Ok(false) ==> exists i | 0 <= i < |order| :: HasWitness(order[i], men, women, mm, wm)
  {
    if |order| == 0 then Ok(true)
    else
      var c :- Candidates(men, mm, order[0]);
      var found :- Scan(women, wm, order[0], c);
      if found then Ok(false) else CheckStability(order[1..], men, women, mm, wm)
  }

  /** `_check_stability` of the FixesSMHR tree: the result is the
      `blocking_pair` flag, which starts False and is only ever set. */
  function CheckFlag(order: seq<Id>, men: Side, women: Side, mm: map<Id, Option<Id>>, wm: map<Id, Option<Id>>, flag: bool): (r: Result<bool>)
    ensures flag ==> r == Ok(true)
  {
    if flag || |order| == 0 then Ok(flag)
    else
      var c :- Candidates(men, mm, order[0]);
      var f :- ScanFlag(women, wm, order[0], c, false);
      CheckFlag(order[1..], men, women, mm, wm, f)
  }

  /** The inner loop of the flag version: set the flag, then break. */
  function ScanFlag(women: Side, wm: map<Id, Option<Id>>, man: Id, ws: seq<Id>, flag: bool): (r: Result<bool>)
    ensures flag ==> r == Ok(true)
  {
    if flag || |ws| == 0 then Ok(flag)
    else
      var b :- Witness(women, wm, man, ws[0]);
      ScanFlag(women, wm, man, ws[1..], b)
  }

  lemma {:induction false} ScanFlagIsScan(women: Side, wm: map<Id, Option<Id>>, man: Id, ws: seq<Id>)
    ensures ScanFlag(women, wm, man, ws, false) == Scan(women, wm, man, ws)
    decreases |ws|
  {
    if |ws| > 0 {
      var b := Witness(women, wm, man, ws[0]);
      if b == Ok(false) {
        ScanFlagIsScan(women, wm, man, ws[1..]);
      }
    }
  }

  /** The two versions agree: the flag is set exactly when the boolean
      check answers False, and they fail on the same lookups. */
  lemma {:induction false} CheckFlagIsNegation(order: seq<Id>, men: Side, women: Side, mm: map<Id, Option<Id>>, wm: map<Id, Option<Id>>)
    ensures CheckStability(order, men, women, mm, wm).Ok? <==> CheckFlag(order, men, women, mm, wm, false).Ok?
    ensures CheckStability(order, men, women, mm, wm).Ok? ==>
      CheckFlag(order, men, women, mm, wm, false).value == !CheckStability(order, men, women, mm, wm).value
    decreases |order|
  {
    if |order| > 0 {
      var c := Candidates(men, mm, order[0]);
      if c.Ok? {
        ScanFlagIsScan(women, wm, order[0], c.value);
        CheckFlagIsNegation(order[1..], men, women, mm, wm);
      }
    }
  }

  // ---------------------------------------------------------------------
  // The check read against the lists as read

  /** Both records of a side built from the lists as read. */
  function AsRead(P: Prefs): Side {
    Side(P, Ranks(P))
  }

  /** Every matched pair is mutually acceptable and the matching's two
      sides agree. */
  ghost predicate Matching(I: Instance, pm: map<Id, Option<Id>>, rm: map<Id, Option<Id>>) {
    && pm.Keys == I.proposers.Keys && rm.Keys == I.receivers.Keys
    && Consistent(pm, rm)
    && (forall m | m in pm && pm[m].Some? :: m in I.proposers && pm[m].value in I.proposers[m])
  }

  /** On the lists as read, the candidates of a man are exactly the women he
      lists and ranks above his partner. */
  lemma CandidatesAsRead(I: Instance, pm: map<Id, Option<Id>>, rm: map<Id, Option<Id>>, m: Id)
    requires WellFormed(I) && Matching(I, pm, rm) && m in I.proposers
    ensures Candidates(AsRead(I.proposers), pm, m).Ok?
    ensures forall w :: w in Candidates(AsRead(I.proposers), pm, m).value <==>
      w in I.proposers[m] && (pm[m].None? || (pm[m].value in PRank(I, m) && PRank(I, m)[w] < PRank(I, m)[pm[m].value]))
  {
    var l := I.proposers[m];
    if pm[m].Some? {
      var k := PRank(I, m)[pm[m].value];
      forall w | w in l ensures w in l[..k] <==> PRank(I, m)[w] < k {
        PrefixByRank(l, w, k);
      }
    }
  }

  /** On the lists as read, a candidate is a witness exactly when the pair
      blocks. */
  lemma WitnessAsRead(I: Instance, pm: map<Id, Option<Id>>, rm: map<Id, Option<Id>>, m: Id, w: Id)
    requires m in I.proposers && w in I.proposers[m] && w in I.receivers && m in I.receivers[w]
    requires NoDup(I.receivers[w]) && m in pm && w in rm
    requires pm[m].None? || (pm[m].value in PRank(I, m) && PRank(I, m)[w] < PRank(I, m)[pm[m].value])
    requires rm[w].Some? ==> rm[w].value in I.receivers[w]
    ensures Witness(AsRead(I.receivers), rm, m, w) == Ok(Blocks(I, pm, rm, m, w))
  {
    if rm[w].Some? {
      var l := I.receivers[w];
      var k := RRank(I, w)[rm[w].value];
      PrefixByRank(l, m, k);
    }
  }

  /** The facts `WitnessAsRead` needs, for every candidate. */
  lemma CandidateFacts(I: Instance, pm: map<Id, Option<Id>>, rm: map<Id, Option<Id>>, m: Id, w: Id)
    requires WellFormed(I) && Matching(I, pm, rm) && m in I.proposers && w in I.proposers[m]
    ensures w in I.receivers && m in I.receivers[w] && NoDup(I.receivers[w]) && m in pm && w in rm
    ensures rm[w].Some? ==> rm[w].value in I.receivers[w]
  {
    if rm[w].Some? {
      var f := rm[w].value;
      assert pm[f] == Some(w);
    }
  }

  lemma {:induction false} ScanAsRead(I: Instance, pm: map<Id, Option<Id>>, rm: map<Id, Option<Id>>, m: Id, ws: seq<Id>)
    requires WellFormed(I) && Matching(I, pm, rm) && m in I.proposers
    requires forall w | w in ws :: w in I.proposers[m] && (pm[m].None? || (pm[m].value in PRank(I, m) && PRank(I, m)[w] < PRank(I, m)[pm[m].value]))
    ensures Scan(AsRead(I.receivers), rm, m, ws) == Ok(exists j | 0 <= j < |ws| :: Blocks(I, pm, rm, m, ws[j]))
  {
    forall j | 0 <= j < |ws| ensures Witness(AsRead(I.receivers), rm, m, ws[j]) == Ok(Blocks(I, pm, rm, m, ws[j])) {
      CandidateFacts(I, pm, rm, m, ws[j]);
      WitnessAsRead(I, pm, rm, m, ws[j]);
    }
    ScanExact(AsRead(I.receivers), rm, m, ws, I, pm);
  }

  lemma ScanExact(women: Side, wm: map<Id, Option<Id>>, m: Id, ws: seq<Id>, I: Instance, pm: map<Id, Option<Id>>)
    requires forall j | 0 <= j < |ws| :: Witness(women, wm, m, ws[j]) == Ok(Blocks(I, pm, wm, m, ws[j]))
    ensures Scan(women, wm, m, ws) == Ok(exists j | 0 <= j < |ws| :: Blocks(I, pm, wm, m, ws[j]))
  {
    var r := Scan(women, wm, m, ws);
    assert r.Ok?;
    if r.value {
      var j :| 0 <= j < |ws| && Witness(women, wm, m, ws[j]) == Ok(true);
      assert Blocks(I, pm, wm, m, ws[j]);
    }
  }

  /** No man in `order` is in a blocking pair. */
  ghost predicate NoneBlocks(I: Instance, pm: map<Id, Option<Id>>, rm: map<Id, Option<Id>>, order: seq<Id>) {
    forall i, w | 0 <= i < |order| :: !Blocks(I, pm, rm, order[i], w)
  }

  /** The check of the main tree, given the lists as read (the snapshot the
      tie variants keep), answers True exactly when no man in `order` is
      in a blocking pair. */
  lemma {:induction false} CheckAsRead(I: Instance, order: seq<Id>, pm: map<Id, Option<Id>>, rm: map<Id, Option<Id>>)
    requires WellFormed(I) && Matching(I, pm, rm)
    requires forall i | 0 <= i < |order| :: order[i] in I.proposers
    ensures CheckStability(order, AsRead(I.proposers), AsRead(I.receivers), pm, rm) == Ok(NoneBlocks(I, pm, rm, order))
    decreases |order|
  {
    if |order| > 0 {
      var c := ManAsRead(I, pm, rm, order[0]);
      CheckAsRead(I, order[1..], pm, rm);
      CheckStep(order, AsRead(I.proposers), AsRead(I.receivers), I, pm, rm, c);
    }
  }

  /** One man of the outer loop, on the lists as read: his scan answers
      whether he is in any blocking pair. */
  lemma ManAsRead(I: Instance, pm: map<Id, Option<Id>>, rm: map<Id, Option<Id>>, m: Id) returns (c: seq<Id>)
    requires WellFormed(I) && Matching(I, pm, rm) && m in I.proposers
    ensures Candidates(AsRead(I.proposers), pm, m) == Ok(c)
    ensures Scan(AsRead(I.receivers), rm, m, c) == Ok(exists w :: Blocks(I, pm, rm, m, w))
  {
    CandidatesAsRead(I, pm, rm, m);
    c := Candidates(AsRead(I.proposers), pm, m).value;
    ScanAsRead(I, pm, rm, m, c);
    CandidatesCover(I, pm, rm, m, c);
  }

  /** Every woman who blocks with m is among m's candidates. */
  lemma CandidatesCover(I: Instance, pm: map<Id, Option<Id>>, rm: map<Id, Option<Id>>, m: Id, c: seq<Id>)
    requires m in I.proposers && m in pm
    requires forall w :: w in c <==> w in I.proposers[m] && (pm[m].None? || (pm[m].value in PRank(I, m) && PRank(I, m)[w] < PRank(I, m)[pm[m].value]))
    ensures (exists j | 0 <= j < |c| :: Blocks(I, pm, rm, m, c[j])) <==> exists w :: Blocks(I, pm, rm, m, w)
  {
    if w :| Blocks(I, pm, rm, m, w) {
      assert w in c;
      var j :| 0 <= j < |c| && c[j] == w;
    }
  }

  /** One man of the outer loop. */
  lemma CheckStep(order: seq<Id>, men: Side, women: Side, I: Instance, pm: map<Id, Option<Id>>, rm: map<Id, Option<Id>>, c: seq<Id>)
    requires |order| > 0 && Candidates(men, pm, order[0]) == Ok(c)
    requires Scan(women, rm, order[0], c) == Ok(exists w :: Blocks(I, pm, rm, order[0], w))
    requires CheckStability(order[1..], men, women, pm, rm) == Ok(NoneBlocks(I, pm, rm, order[1..]))
    ensures CheckStability(order, men, women, pm, rm) == Ok(NoneBlocks(I, pm, rm, order))
  {
    assert forall i | 1 <= i < |order| :: order[i] == order[1..][i - 1];
  }
}
