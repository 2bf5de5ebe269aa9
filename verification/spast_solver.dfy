/** The list helpers of the integer-programming model of SPA-ST: the
    entries ranked at least as high as a given one, the entries tied with
    it, a lecturer's projects, and a lecturer's projected list. A
    preference list as the helpers read it is a list of entries, each a
    tie (a list of ids) or, as in the projected list `_L_k_j` builds, a
    bare id string. */
module SpastSolver {
  import opened Wrappers
  import opened Lists
  import Ties

  type Id = string

  /** An element of a preference list: a tie, or a bare id string. */
  datatype Entry = Tie(ids: seq<Id>) | Bare(id: Id)

  /** `entity in p`: membership on a tie, substring search on a string. */
  predicate Holds(e: Entry, x: Id) {
    match e
    case Tie(ids) => x in ids
    case Bare(id) => InString(x, id)
  }

  /** Python's `x in id` on strings, searched from the front. */
  predicate InString(x: Id, id: Id)
    decreases |id|
  {
    x <= id || (|id| > 0 && InString(x, id[1..]))
  }

  /** The search agrees with substring occurrence at some position. */
  lemma {:induction false} InStringIsSubstring(x: Id, id: Id)
    ensures InString(x, id) <==> Ties.IsSubstring(x, id)
    decreases |id|
  {
    if !(x <= id) && |id| > 0 {
      InStringIsSubstring(x, id[1..]);
    }
  }

  /** A string longer than another does not occur in it. */
  lemma {:induction false} InStringShorter(x: Id, id: Id)
    requires |x| > |id|
    ensures !InString(x, id)
    decreases |id|
  {
    if |id| > 0 {
      InStringShorter(x, id[1..]);
    }
  }

  /** What `outranked_projects += p` appends: a tie's ids, or a string's
      characters one by one. */
  function Items(e: Entry): seq<Id> {
    match e
    case Tie(ids) => ids
    case Bare(id) => seq(|id|, i requires 0 <= i < |id| => [id[i]])
  }

  /** The items of each entry of a list, in order. */
  function ItemsOf(prefs: seq<Entry>): (r: seq<seq<Id>>)
    ensures |r| == |prefs| && forall i | 0 <= i < |prefs| :: r[i] == Items(prefs[i])
  {
    seq(|prefs|, i requires 0 <= i < |prefs| => Items(prefs[i]))
  }

  /** Some entry of `prefs` holds `x`. */
  predicate Occurs(prefs: seq<Entry>, x: Id) {
    exists k | 0 <= k < |prefs| :: Holds(prefs[k], x)
  }

  /** `prefs[k]` is the first entry holding `x`. */
  predicate FirstWith(prefs: seq<Entry>, x: Id, k: nat) {
    k < |prefs| && Holds(prefs[k], x) && forall j | 0 <= j < k :: !Holds(prefs[j], x)
  }

  /** The index of the first entry holding `x`. */
  function FirstTie(prefs: seq<Entry>, x: Id): (k: nat)
    requires Occurs(prefs, x)
    ensures FirstWith(prefs, x, k)
  {
    if Holds(prefs[0], x) then 0
    else
      assert Occurs(prefs[1..], x) by {
        var k :| 0 <= k < |prefs| && Holds(prefs[k], x);
        assert prefs[1..][k - 1] == prefs[k];
      }
      1 + FirstTie(prefs[1..], x)
  }

  /** Only one entry is the first to hold `x`. */
  lemma FirstWithUnique(prefs: seq<Entry>, x: Id, k: nat, k': nat)
    requires FirstWith(prefs, x, k) && FirstWith(prefs, x, k')
    ensures k == k'
  {
  }

  /** `_get_outranked_entities`: the items of the entries before the first
      one holding `x`, followed by that entry's items unless `strict`;
      reading past the end of the list is an IndexError. */
  function Outranked(prefs: seq<Entry>, x: Id, strict: bool): (r: Result<seq<Id>>)
    ensures r.Ok? <==> Occurs(prefs, x)
    ensures r.Err? ==> r.error == IndexError
    ensures r.Ok? ==> r.value == Flatten(ItemsOf(prefs[..FirstTie(prefs, x)])) + (if strict then [] else Items(prefs[FirstTie(prefs, x)]))
  {
    if |prefs| == 0 then Err(IndexError)
    else if Holds(prefs[0], x) then
      assert ItemsOf(prefs[..0]) == [];
      Ok(if strict then [] else Items(prefs[0]))
    else
      var rest := Outranked(prefs[1..], x, strict);
      OccursTail(prefs, x);
      if rest.Err? then Err(rest.error)
      else
        var k := FirstTie(prefs[1..], x);
        OutrankedStep(prefs, x, strict, rest.value, k);
        FirstWithUnique(prefs, x, FirstTie(prefs, x), k + 1);
        Ok(Items(prefs[0]) + rest.value)
  }

  /** Past an entry without `x`, `x` occurs in the list exactly when it
      occurs in the rest. */
  lemma OccursTail(prefs: seq<Entry>, x: Id)
    requires |prefs| > 0 && !Holds(prefs[0], x)
    ensures Occurs(prefs, x) <==> Occurs(prefs[1..], x)
  {
    assert forall k | 1 <= k < |prefs| :: prefs[1..][k - 1] == prefs[k];
  }

  /** Past an entry without `x`, the first entry holding `x` is one further
      on, and the entries before it gain the skipped one at the front. */
  lemma OutrankedStep(prefs: seq<Entry>, x: Id, strict: bool, v: seq<Id>, k: nat)
    requires |prefs| > 0 && !Holds(prefs[0], x) && FirstWith(prefs[1..], x, k)
    requires v == Flatten(ItemsOf(prefs[1..][..k])) + (if strict then [] else Items(prefs[1..][k]))
    ensures FirstWith(prefs, x, k + 1)
    ensures Items(prefs[0]) + v == Flatten(ItemsOf(prefs[..k + 1])) + (if strict then [] else Items(prefs[k + 1]))
  {
    FlattenFront(prefs, k);
    assert prefs[1..][k] == prefs[k + 1];
    assert forall j | 1 <= j < k + 1 :: prefs[1..][j - 1] == prefs[j];
  }

  /** The items of a prefix of length `k + 1` are the first entry's items
      followed by those of the next `k` entries. */
  lemma FlattenFront(prefs: seq<Entry>, k: nat)
    requires k < |prefs|
    ensures Flatten(ItemsOf(prefs[..k + 1])) == Items(prefs[0]) + Flatten(ItemsOf(prefs[1..][..k]))
  {
    var gs := ItemsOf(prefs[..k + 1]);
    assert gs[0] == Items(prefs[0]);
    assert gs[1..] == ItemsOf(prefs[1..][..k]);
  }

  /** The strict result is the non-strict one without the entity's own
      entry, so a prefix of it. */
  lemma OutrankedStrict(prefs: seq<Entry>, x: Id)
    requires Occurs(prefs, x)
    ensures Outranked(prefs, x, false).value == Outranked(prefs, x, true).value + Items(prefs[FirstTie(prefs, x)])
    ensures Outranked(prefs, x, true).value <= Outranked(prefs, x, false).value
  {
    var k := FirstTie(prefs, x);
    var before := Flatten(ItemsOf(prefs[..k]));
    assert before + [] == before;
    assert Outranked(prefs, x, true).value == before;
    assert Outranked(prefs, x, false).value == before + Items(prefs[k]);
  }

  /** Every entry is a tie. */
  predicate AllTies(prefs: seq<Entry>) {
    forall k | 0 <= k < |prefs| :: prefs[k].Tie?
  }

  /** On a list of ties, the non-strict result holds the entity and the
      strict one does not. */
  lemma OutrankedHolds(prefs: seq<Entry>, x: Id)
    requires Occurs(prefs, x) && AllTies(prefs)
    ensures x in Outranked(prefs, x, false).value && x !in Outranked(prefs, x, true).value
  {
    var k := FirstTie(prefs, x);
    var before := Flatten(ItemsOf(prefs[..k]));
    assert x !in before by {
      forall g | g in ItemsOf(prefs[..k]) ensures x !in g {
        var j :| 0 <= j < k && ItemsOf(prefs[..k])[j] == g;
        assert g == prefs[j].ids;
      }
    }
    assert Outranked(prefs, x, true).value == before + [];
    assert Outranked(prefs, x, false).value == before + prefs[k].ids;
  }

  /** An entity held nowhere makes both modes fail. */
  lemma OutrankedAbsent(prefs: seq<Entry>, x: Id)
    requires forall k | 0 <= k < |prefs| :: !Holds(prefs[k], x)
    ensures Outranked(prefs, x, false) == Err(IndexError) && Outranked(prefs, x, true) == Err(IndexError)
  {
  }

  /** `_get_equal_entities`: the first entry holding `x`, or None. */
  function Equal(prefs: seq<Entry>, x: Id): (r: Option<Entry>)
    ensures r.Some? <==> Occurs(prefs, x)
    ensures r.Some? ==> Holds(r.value, x) && r.value in prefs
    ensures r.Some? ==> r.value == prefs[FirstTie(prefs, x)]
  {
    if |prefs| == 0 then None
    else if Holds(prefs[0], x) then Some(prefs[0])
    else
      var r := Equal(prefs[1..], x);
      OccursTail(prefs, x);
      if r.Some? then
        FirstWithUnique(prefs, x, FirstTie(prefs, x), FirstTie(prefs[1..], x) + 1);
        r
      else r
  }

  /** The non-strict outranked entries are the strict ones followed by the
      items of the tied entry. */
  lemma OutrankedEqual(prefs: seq<Entry>, x: Id)
    requires Occurs(prefs, x)
    ensures Outranked(prefs, x, false).value == Outranked(prefs, x, true).value + Items(Equal(prefs, x).value)
  {
    OutrankedStrict(prefs, x);
  }

  /** A project as the model reads it: its capacity and lecturer. */
  datatype IPProject = IPProject(capacity: int, lecturer: Id)

  /** `_P_k`: the projects, in dictionary order, whose lecturer is `l`. */
  function OfferedBy(order: seq<Id>, projects: map<Id, IPProject>, l: Id): (r: seq<Id>)
    requires forall p | p in order :: p in projects
    ensures forall p :: p in r <==> p in order && projects[p].lecturer == l
    ensures |r| <= |order|
    ensures NoDup(order) ==> NoDup(r)
  {
    if |order| == 0 then []
    else
      var rest := OfferedBy(order[1..], projects, l);
      assert forall p | p in order[1..] :: p in order;
      if projects[order[0]].lecturer == l then
        assert NoDup(order) ==> order[0] !in order[1..] by {
          if NoDup(order) {
            forall j | 0 <= j < |order[1..]| ensures order[1..][j] != order[0] {
              assert order[1..][j] == order[j + 1];
            }
          }
        }
        [order[0]] + rest
      else rest
  }

  /** The students, among the keys of `students`, whose acceptable projects
      include `p`. */
  function Accepting(students: map<Id, set<Id>>, p: Id): set<Id> {
    set s | s in students && p in students[s]
  }

  /** The students of `ss` whose acceptable projects include `p`, in
      order; an unknown student is a KeyError. */
  function Keep(ss: seq<Id>, students: map<Id, set<Id>>, p: Id): (r: Result<seq<Id>>)
    ensures r.Ok? <==> forall s | s in ss :: s in students
    ensures r.Ok? ==> forall s :: s in r.value <==> s in ss && p in students[s]
    ensures r.Ok? ==> r.value == Filter(ss, Accepting(students, p))
    ensures r.Ok? ==> |r.value| <= |ss|
    ensures r.Err? ==> r.error == KeyError
  {
    if |ss| == 0 then Ok([])
    else if ss[0] !in students then Err(KeyError)
    else
      var rest := Keep(ss[1..], students, p);
      assert forall s | s in ss :: s == ss[0] || s in ss[1..];
      if rest.Err? then Err(rest.error)
      else if p in students[ss[0]] then Ok([ss[0]] + rest.value)
      else Ok(rest.value)
  }

  /** `_L_k_j`: the lecturer's ties, flattened in order, keeping the
      students who find the project acceptable; an unknown lecturer or
      student is a KeyError. */
  function ProjectedList(lecturers: map<Id, seq<seq<Id>>>, students: map<Id, set<Id>>, l: Id, p: Id): (r: Result<seq<Id>>)
    ensures r.Ok? <==> l in lecturers && forall s | s in Flatten(lecturers[l]) :: s in students
    ensures r.Ok? ==> forall s :: s in r.value <==> (exists t | t in lecturers[l] :: s in t) && p in students[s]
    ensures r.Ok? ==> r.value == Filter(Flatten(lecturers[l]), Accepting(students, p))
    ensures r.Err? ==> r.error == KeyError
  {
    if l !in lecturers then Err(KeyError)
    else Keep(Flatten(lecturers[l]), students, p)
  }

  // ---------------------------------------------------------------------
  // The projected list handed to `_get_outranked_entities`

  /** The projected list as `_lambda` and `_tau` pass it: each id a bare
      string. */
  function AsBare(l: seq<Id>): (r: seq<Entry>)
    ensures |r| == |l| && forall i | 0 <= i < |l| :: r[i] == Bare(l[i])
  {
    seq(|l|, i requires 0 <= i < |l| => Bare(l[i]))
  }

  /** The projected list with each id a tie of its own, so that `in` and
      `+=` act on whole ids. */
  function AsTies(l: seq<Id>): (r: seq<Entry>)
    ensures |r| == |l| && forall i | 0 <= i < |l| :: r[i] == Tie([l[i]])
  {
    seq(|l|, i requires 0 <= i < |l| => Tie([l[i]]))
  }

  /** `T_ijk` and `T*_ijk` as written (lines 267 and 312): the outranked
      entries of the projected list, read as bare strings. */
  function ProjectedOutranked(lecturers: map<Id, seq<seq<Id>>>, students: map<Id, set<Id>>, l: Id, p: Id, x: Id, strict: bool): (r: Result<seq<Id>>)
    ensures r.Ok? ==> forall i | 0 <= i < |r.value| :: |r.value[i]| == 1
  {
    var L :- ProjectedList(lecturers, students, l, p);
    var r := Outranked(AsBare(L), x, strict);
    if r.Ok? then BareItems(L, x, strict); r else r
  }

  /** Entries read from bare strings contribute single characters. */
  lemma BareItems(L: seq<Id>, x: Id, strict: bool)
    requires Occurs(AsBare(L), x)
    ensures forall i | 0 <= i < |Outranked(AsBare(L), x, strict).value| :: |Outranked(AsBare(L), x, strict).value[i]| == 1
  {
    var prefs := AsBare(L);
    var k := FirstTie(prefs, x);
    var gs := ItemsOf(prefs[..k]);
    forall g | g in gs ensures forall c | c in g :: |c| == 1 {
      var j :| 0 <= j < |gs| && gs[j] == g;
      BareChars(prefs[..k][j]);
    }
    var own: seq<Id> := if strict then [] else Items(prefs[k]);
    BareChars(prefs[k]);
    var v := Outranked(prefs, x, strict).value;
    assert v == Flatten(gs) + own;
    forall i | 0 <= i < |v| ensures |v[i]| == 1 {
      assert v[i] in Flatten(gs) || v[i] in own;
    }
  }

  /** A bare string's items are its characters, each of length one. */
  lemma BareChars(e: Entry)
    requires e.Bare?
    ensures forall c | c in Items(e) :: |c| == 1
  {
  }

  /** A list of ties read as entries. */
  function AsTieList(ts: seq<seq<Id>>): (r: seq<Entry>)
    ensures |r| == |ts| && forall i | 0 <= i < |ts| :: r[i] == Tie(ts[i])
  {
    seq(|ts|, i requires 0 <= i < |ts| => Tie(ts[i]))
  }

  /** Each tie filtered to the members of `keep`. A tie left empty holds
      no one and adds nothing to an outranked set, so it is kept in place
      and the ties keep their indices. */
  function FilterTies(ts: seq<seq<Id>>, keep: set<Id>): (r: seq<seq<Id>>)
    ensures |r| == |ts| && forall i | 0 <= i < |ts| :: r[i] == Filter(ts[i], keep)
  {
    seq(|ts|, i requires 0 <= i < |ts| => Filter(ts[i], keep))
  }

  /** Flattening the filtered ties gives the flat list `_L_k_j` builds. */
  lemma {:induction false} FilterTiesFlatten(ts: seq<seq<Id>>, keep: set<Id>)
    ensures Flatten(FilterTies(ts, keep)) == Filter(Flatten(ts), keep)
  {
    if |ts| > 0 {
      FilterTiesFlatten(ts[1..], keep);
      assert FilterTies(ts, keep)[1..] == FilterTies(ts[1..], keep);
      FilterAppend(ts[0], Flatten(ts[1..]), keep);
    }
  }

  /** The students of the first `n` filtered ties: those of `keep` listed
      in one of the first `n` ties. */
  lemma FilterTiesMember(ts: seq<seq<Id>>, keep: set<Id>, n: nat, s: Id)
    requires n <= |ts|
    ensures s in Flatten(FilterTies(ts[..n], keep)) <==> s in keep && exists i | 0 <= i < n :: s in ts[i]
  {
    var gs := FilterTies(ts[..n], keep);
    if s in Flatten(gs) {
      var g :| g in gs && s in g;
      var i :| 0 <= i < |gs| && gs[i] == g;
      assert s in ts[i];
    }
    if s in keep && exists i | 0 <= i < n :: s in ts[i] {
      var i :| 0 <= i < n && s in ts[i];
      assert s in gs[i];
    }
  }

  /** A member of `keep` is first listed in the same tie before and after
      the filtering. */
  lemma FilterTiesFirst(ts: seq<seq<Id>>, keep: set<Id>, x: Id)
    requires x in keep && Occurs(AsTieList(ts), x)
    ensures Occurs(AsTieList(FilterTies(ts, keep)), x)
    ensures FirstTie(AsTieList(FilterTies(ts, keep)), x) == FirstTie(AsTieList(ts), x)
  {
    var k := FirstTie(AsTieList(ts), x);
    var fs := AsTieList(FilterTies(ts, keep));
    assert forall j | 0 <= j < |ts| :: Holds(fs[j], x) <==> Holds(AsTieList(ts)[j], x);
    assert FirstWith(fs, x, k);
    FirstWithUnique(fs, x, FirstTie(fs, x), k);
  }

  /** An id of one of the ties occurs in the ties read as entries. */
  lemma TieListOccurs(ts: seq<seq<Id>>, x: Id)
    ensures Occurs(AsTieList(ts), x) <==> x in Flatten(ts)
  {
    if x in Flatten(ts) {
      var g :| g in ts && x in g;
      var i :| 0 <= i < |ts| && ts[i] == g;
      assert Holds(AsTieList(ts)[i], x);
    }
    if Occurs(AsTieList(ts), x) {
      var i :| 0 <= i < |ts| && Holds(AsTieList(ts)[i], x);
      assert ts[i] in ts;
    }
  }

  /** Read as entries, the items of the first `n` ties are those ties. */
  lemma TieListItems(ts: seq<seq<Id>>, n: nat)
    requires n <= |ts|
    ensures ItemsOf(AsTieList(ts)[..n]) == ts[..n]
  {
  }

  /** The first `n` filtered ties are the filtered first `n` ties. */
  lemma FilterTiesPrefix(ts: seq<seq<Id>>, keep: set<Id>, n: nat)
    requires n <= |ts|
    ensures FilterTies(ts, keep)[..n] == FilterTies(ts[..n], keep)
  {
  }

  /** One more filtered tie adds its members at the end. */
  lemma FilterTiesSnoc(ts: seq<seq<Id>>, keep: set<Id>, k: nat)
    requires k < |ts|
    ensures Flatten(FilterTies(ts[..k], keep)) + Filter(ts[k], keep) == Flatten(FilterTies(ts[..k + 1], keep))
  {
    assert FilterTies(ts[..k + 1], keep) == FilterTies(ts[..k], keep) + [Filter(ts[k], keep)];
    FlattenAppend(FilterTies(ts[..k], keep), Filter(ts[k], keep));
  }

  /** The helper with the entity's first entry `k` given. */
  lemma OutrankedAt(prefs: seq<Entry>, x: Id, strict: bool, k: nat)
    requires FirstWith(prefs, x, k)
    ensures Outranked(prefs, x, strict) == Ok(Flatten(ItemsOf(prefs[..k])) + (if strict then [] else Items(prefs[k])))
  {
    FirstWithUnique(prefs, x, FirstTie(prefs, x), k);
  }

  /** The helper on ties with the entity's first tie `k` given: the
      members of the ties before it, and of that tie unless strict. */
  lemma TiesOutrankedAt(fs: seq<seq<Id>>, x: Id, strict: bool, k: nat)
    requires FirstWith(AsTieList(fs), x, k)
    ensures Outranked(AsTieList(fs), x, strict) == Ok(Flatten(fs[..k]) + (if strict then [] else fs[k]))
  {
    OutrankedAt(AsTieList(fs), x, strict, k);
    TieListItems(fs, k);
  }

  /** The helper on the filtered ties, with the entity's first tie `k`:
      the members of the ties before it, and of that tie unless strict. */
  lemma FilteredOutrankedAt(ts: seq<seq<Id>>, keep: set<Id>, x: Id, strict: bool, k: nat)
    requires x in keep && FirstWith(AsTieList(ts), x, k)
    ensures Outranked(AsTieList(FilterTies(ts, keep)), x, strict) == Ok(Flatten(FilterTies(ts[..k + (if strict then 0 else 1)], keep)))
  {
    var fs := FilterTies(ts, keep);
    FirstWithUnique(AsTieList(ts), x, FirstTie(AsTieList(ts), x), k);
    FilterTiesFirst(ts, keep, x);
    TiesOutrankedAt(fs, x, strict, k);
    FilterTiesPrefix(ts, keep, k);
    if strict {
      assert Flatten(fs[..k]) + [] == Flatten(fs[..k]);
    } else {
      FilterTiesSnoc(ts, keep, k);
    }
  }

  /** The helper on filtered ties returns the students of the ties before
      the entity's first tie, and of that tie too unless strict. */
  lemma FilteredOutranked(ts: seq<seq<Id>>, keep: set<Id>, x: Id, strict: bool)
    requires x in keep && x in Flatten(ts)
    ensures Occurs(AsTieList(ts), x)
    ensures var n := FirstTie(AsTieList(ts), x) + (if strict then 0 else 1);
      Outranked(AsTieList(FilterTies(ts, keep)), x, strict) == Ok(Flatten(FilterTies(ts[..n], keep)))
  {
    TieListOccurs(ts, x);
    FilteredOutrankedAt(ts, keep, x, strict, FirstTie(AsTieList(ts), x));
  }

  /** An entity outside the filtered list makes the helper fail. */
  lemma FilteredAbsent(ts: seq<seq<Id>>, keep: set<Id>, x: Id, strict: bool)
    requires x !in Filter(Flatten(ts), keep)
    ensures Outranked(AsTieList(FilterTies(ts, keep)), x, strict) == Err(IndexError)
  {
    FilterTiesFlatten(ts, keep);
    TieListOccurs(FilterTies(ts, keep), x);
  }

  /** Membership in a corrected set. */
  lemma FilteredMembers(ts: seq<seq<Id>>, keep: set<Id>, n: nat)
    requires n <= |ts|
    ensures forall s :: s in Flatten(FilterTies(ts[..n], keep)) <==> s in keep && exists i | 0 <= i < n :: s in ts[i]
  {
    forall s ensures s in Flatten(FilterTies(ts[..n], keep)) <==> s in keep && exists i | 0 <= i < n :: s in ts[i] {
      FilterTiesMember(ts, keep, n, s);
    }
  }

  /** The corrected `T_ijk` and `T*_ijk`: the lecturer's ties, each
      filtered to the students who find the project acceptable, read as
      ties. The set exists iff the projected list does and holds the
      student; it then holds, in the lecturer's order, the accepting
      students of the ties before the student's first tie, and of that tie
      too unless strict, so a tie-mate counts as outranking only in the
      non-strict set. */
  function ProjectedOutrankedCorrected(lecturers: map<Id, seq<seq<Id>>>, students: map<Id, set<Id>>, l: Id, p: Id, x: Id, strict: bool): (r: Result<seq<Id>>)
    ensures var L := ProjectedList(lecturers, students, l, p);
      r.Ok? <==> L.Ok? && x in L.value
    ensures r.Err? ==> r.error == KeyError || r.error == IndexError
    ensures r.Ok? ==> l in lecturers && Occurs(AsTieList(lecturers[l]), x)
    ensures r.Ok? ==> var n := FirstTie(AsTieList(lecturers[l]), x) + (if strict then 0 else 1);
      && r.value == Flatten(FilterTies(lecturers[l][..n], Accepting(students, p)))
      && forall s :: s in r.value <==> s in Accepting(students, p) && exists i | 0 <= i < n :: s in lecturers[l][i]
  {
    var L :- ProjectedList(lecturers, students, l, p);
    var A := Accepting(students, p);
    if x in L then
      FilteredOutranked(lecturers[l], A, x, strict);
      FilteredMembers(lecturers[l], A, FirstTie(AsTieList(lecturers[l]), x) + (if strict then 0 else 1));
      Outranked(AsTieList(FilterTies(lecturers[l], A)), x, strict)
    else
      FilteredAbsent(lecturers[l], A, x, strict);
      Outranked(AsTieList(FilterTies(lecturers[l], A)), x, strict)
  }

  /** Flattening the corrected ties gives back the flat list as written,
      so the correction keeps its students and their order and adds only
      the lecturer's ties. */
  lemma CorrectedKeepsList(lecturers: map<Id, seq<seq<Id>>>, students: map<Id, set<Id>>, l: Id, p: Id)
    requires ProjectedList(lecturers, students, l, p).Ok?
    ensures Flatten(FilterTies(lecturers[l], Accepting(students, p))) == ProjectedList(lecturers, students, l, p).value
  {
    FilterTiesFlatten(lecturers[l], Accepting(students, p));
  }

  /** Read with each id a tie of its own, a list yields the ids up to `x`
      (through `x` unless strict), and fails exactly when `x` is absent. */
  lemma OwnTiesOutranked(L: seq<Id>, x: Id, strict: bool)
    ensures Outranked(AsTies(L), x, strict).Ok? <==> x in L
    ensures x in L ==> Outranked(AsTies(L), x, strict) == Ok(L[..IndexOf(L, x) + (if strict then 0 else 1)])
  {
    if x in L {
      OwnTies(L, x);
    } else {
      forall k | 0 <= k < |L| ensures !Holds(AsTies(L)[k], x) {
        assert AsTies(L)[k].ids == [L[k]];
      }
    }
  }

  /** On a list whose ids are ties of their own, the entities outranking
      `x` are the ids before its first occurrence, and `x` itself when not
      strict. */
  lemma {:induction false} OwnTies(L: seq<Id>, x: Id)
    requires x in L
    ensures Occurs(AsTies(L), x) && FirstTie(AsTies(L), x) == IndexOf(L, x)
    ensures Outranked(AsTies(L), x, false) == Ok(L[..IndexOf(L, x) + 1])
    ensures Outranked(AsTies(L), x, true) == Ok(L[..IndexOf(L, x)])
  {
    var prefs := AsTies(L);
    var k := IndexOf(L, x);
    assert FirstWith(prefs, x, k) by {
      forall j | 0 <= j < k ensures !Holds(prefs[j], x) {
        assert L[..k][j] == L[j];
      }
    }
    FirstWithUnique(prefs, x, FirstTie(prefs, x), k);
    FlattenOwn(L, k);
    assert L[..k] + [] == L[..k];
    assert L[..k] + [L[k]] == L[..k + 1];
  }

  /** The items of the first `k` own-tie entries are the first `k` ids. */
  lemma {:induction false} FlattenOwn(L: seq<Id>, k: nat)
    requires k <= |L|
    ensures Flatten(ItemsOf(AsTies(L)[..k])) == L[..k]
  {
    if k > 0 {
      FlattenOwn(L, k - 1);
      assert ItemsOf(AsTies(L)[..k]) == ItemsOf(AsTies(L)[..k - 1]) + [[L[k - 1]]];
      FlattenAppend(ItemsOf(AsTies(L)[..k - 1]), [L[k - 1]]);
      assert L[..k] == L[..k - 1] + [L[k - 1]];
    }
  }

  /** The terms `self._students[student][1][project]` the loops at lines
      269 and 314 add up, one per student of `T` in order: a student
      without an entry, or without a variable for the project, is a
      KeyError. */
  function PreferredTerms(T: seq<Id>, students: map<Id, set<Id>>, p: Id): (r: Result<seq<(Id, Id)>>)
    ensures r.Ok? <==> forall s | s in T :: s in students && p in students[s]
    ensures r.Ok? ==> |r.value| == |T| && forall i | 0 <= i < |T| :: r.value[i] == (T[i], p)
    ensures r.Err? ==> r.error == KeyError
  {
    if |T| == 0 then Ok([])
    else if T[0] !in students || p !in students[T[0]] then Err(KeyError)
    else
      var rest := PreferredTerms(T[1..], students, p);
      assert forall s | s in T :: s == T[0] || s in T[1..];
      if rest.Err? then Err(rest.error)
      else Ok([(T[0], p)] + rest.value)
  }

  /** As written, a non-empty outranked list is made of characters, so
      when no student id is a single character its first lookup raises
      KeyError. */
  lemma AsWrittenLookupFails(lecturers: map<Id, seq<seq<Id>>>, students: map<Id, set<Id>>, l: Id, p: Id, x: Id, strict: bool)
    requires forall s | s in students :: |s| != 1
    requires ProjectedOutranked(lecturers, students, l, p, x, strict).Ok?
    requires |ProjectedOutranked(lecturers, students, l, p, x, strict).value| > 0
    ensures PreferredTerms(ProjectedOutranked(lecturers, students, l, p, x, strict).value, students, p) == Err(KeyError)
  {
    var T := ProjectedOutranked(lecturers, students, l, p, x, strict).value;
    assert T[0] in T && |T[0]| == 1;
  }

  /** The corrected sets never raise: every student they list has a
      variable for the project. */
  lemma CorrectedLookupOk(lecturers: map<Id, seq<seq<Id>>>, students: map<Id, set<Id>>, l: Id, p: Id, x: Id, strict: bool)
    requires ProjectedOutrankedCorrected(lecturers, students, l, p, x, strict).Ok?
    ensures var T := ProjectedOutrankedCorrected(lecturers, students, l, p, x, strict).value;
      PreferredTerms(T, students, p).Ok? && |PreferredTerms(T, students, p).value| == |T|
  {
    var L := ProjectedList(lecturers, students, l, p).value;
    var T := ProjectedOutrankedCorrected(lecturers, students, l, p, x, strict).value;
    forall s | s in T ensures s in students && p in students[s] {
      assert s in L;
    }
  }

  // ---------------------------------------------------------------------
  // One lecturer, two students

  /** Lecturer l1 ranks s1 before s2, both of whom find p1 acceptable. */
  function TwoLecturers(): map<Id, seq<seq<Id>>> {
    map["l1" := [["s1"], ["s2"]]]
  }

  function TwoStudents(): map<Id, set<Id>> {
    map["s1" := {"p1"}, "s2" := {"p1"}]
  }

  /** Two strings of the same length contain each other only when equal. */
  lemma SameLength(t: string, u: string)
    requires |t| == |u|
    ensures InString(t, u) <==> t == u
  {
    if |u| > 0 {
      InStringShorter(t, u[1..]);
    }
  }

  /** l1's projected list for p1 is [s1, s2]. */
  lemma TwoProjected()
    ensures ProjectedList(TwoLecturers(), TwoStudents(), "l1", "p1") == Ok(["s1", "s2"])
  {
    var ties: seq<seq<Id>> := [["s1"], ["s2"]];
    assert Flatten(ties[1..]) == ["s2"] by {
      assert ties[1..][1..] == [];
    }
    assert Flatten(ties) == ["s1", "s2"];
  }

  /** A two-entry list whose second entry is the first to hold `x`. */
  lemma SecondHolds(a: Entry, b: Entry, x: Id, strict: bool)
    requires !Holds(a, x) && Holds(b, x)
    ensures Outranked([a, b], x, strict) == Ok(Items(a) + (if strict then [] else Items(b)))
  {
    var prefs := [a, b];
    assert prefs[1..] == [b];
    assert Outranked([b], x, strict) == Ok(if strict then [] else Items(b));
  }

  /** A two-entry list whose first entry holds `x`. */
  lemma FirstHolds(a: Entry, b: Entry, x: Id, strict: bool)
    requires Holds(a, x)
    ensures Outranked([a, b], x, strict) == Ok(if strict then [] else Items(a))
  {
  }

  /** The characters `+=` takes from two- and three-character ids. */
  lemma CharsTwo(c: char, d: char)
    ensures Items(Bare([c, d])) == [[c], [d]]
  {
  }

  lemma CharsThree(c: char, d: char, e: char)
    ensures Items(Bare([c, d, e])) == [[c], [d], [e]]
  {
  }

  /** Read as bare strings, s2 is first held by the second entry, after the
      characters of s1. */
  lemma TwoBare()
    ensures Outranked(AsBare(["s1", "s2"]), "s2", false) == Ok(["s", "1", "s", "2"])
  {
    assert AsBare(["s1", "s2"]) == [Bare("s1"), Bare("s2")];
    assert !Holds(Bare("s1"), "s2") by {
      SameLength("s2", "s1");
      assert "s2"[1] != "s1"[1];
    }
    assert Holds(Bare("s2"), "s2") by {
      SameLength("s2", "s2");
    }
    SecondHolds(Bare("s1"), Bare("s2"), "s2", false);
    CharsTwo('s', '1');
    CharsTwo('s', '2');
    assert Items(Bare("s1")) == ["s", "1"];
    assert Items(Bare("s2")) == ["s", "2"];
    assert ["s", "1"] + ["s", "2"] == ["s", "1", "s", "2"];
  }

  /** As written, `T*` for s2 is the characters of "s1" and "s2", so the
      loop at line 314 raises KeyError. */
  lemma OutrankedCharacters()
    ensures ProjectedOutranked(TwoLecturers(), TwoStudents(), "l1", "p1", "s2", false) == Ok(["s", "1", "s", "2"])
    ensures PreferredTerms(["s", "1", "s", "2"], TwoStudents(), "p1") == Err(KeyError)
  {
    CharactersOutranked();
    CharactersLookup();
  }

  lemma CharactersOutranked()
    ensures ProjectedOutranked(TwoLecturers(), TwoStudents(), "l1", "p1", "s2", false) == Ok(["s", "1", "s", "2"])
  {
    TwoProjected();
    TwoBare();
  }

  lemma CharactersLookup()
    ensures PreferredTerms(["s", "1", "s", "2"], TwoStudents(), "p1") == Err(KeyError)
  {
    assert "s" !in TwoStudents() by {
      assert TwoStudents().Keys == {"s1", "s2"};
      assert |"s"| != |"s1"|;
    }
  }

  /** Corrected, `T*` for s2 is [s1, s2] and both lookups succeed. */
  lemma OutrankedIds()
    ensures ProjectedOutrankedCorrected(TwoLecturers(), TwoStudents(), "l1", "p1", "s2", false) == Ok(["s1", "s2"])
    ensures PreferredTerms(["s1", "s2"], TwoStudents(), "p1") == Ok([("s1", "p1"), ("s2", "p1")])
  {
    IdsOutranked();
    TermsTwo("s1", "s2", TwoStudents(), "p1");
  }

  lemma IdsOutranked()
    ensures ProjectedOutrankedCorrected(TwoLecturers(), TwoStudents(), "l1", "p1", "s2", false) == Ok(["s1", "s2"])
  {
    TwoProjected();
    IdsFirst();
    CorrectedAt(TwoLecturers(), TwoStudents(), "l1", "p1", "s2", false, 1);
    IdsFlatten();
  }

  /** s2 is first listed in l1's second tie. */
  lemma IdsFirst()
    ensures FirstWith(AsTieList([["s1"], ["s2"]]), "s2", 1)
  {
    assert "s1" != "s2" by { assert "s1"[1] != "s2"[1]; }
  }

  /** l1's first two ties, filtered to the students accepting p1. */
  lemma IdsFlatten()
    ensures Flatten(FilterTies([["s1"], ["s2"]][..2], Accepting(TwoStudents(), "p1"))) == ["s1", "s2"]
  {
    AcceptingTwo();
    FlattenTwo([["s1"], ["s2"]], Accepting(TwoStudents(), "p1"));
  }

  /** The corrected set with the student's first tie `k` given. */
  lemma CorrectedAt(lecturers: map<Id, seq<seq<Id>>>, students: map<Id, set<Id>>, l: Id, p: Id, x: Id, strict: bool, k: nat)
    requires ProjectedList(lecturers, students, l, p).Ok? && x in ProjectedList(lecturers, students, l, p).value
    requires FirstWith(AsTieList(lecturers[l]), x, k)
    ensures ProjectedOutrankedCorrected(lecturers, students, l, p, x, strict) == Ok(Flatten(FilterTies(lecturers[l][..k + (if strict then 0 else 1)], Accepting(students, p))))
  {
    FirstWithUnique(AsTieList(lecturers[l]), x, FirstTie(AsTieList(lecturers[l]), x), k);
  }

  /** Both students find p1 acceptable. */
  lemma AcceptingTwo()
    ensures "s1" in Accepting(TwoStudents(), "p1") && "s2" in Accepting(TwoStudents(), "p1")
  {
  }

  /** Two ties whose members are all kept flatten to their members. */
  lemma FlattenTwo(ts: seq<seq<Id>>, keep: set<Id>)
    requires |ts| == 2 && forall i, s | 0 <= i < 2 && s in ts[i] :: s in keep
    ensures Flatten(FilterTies(ts[..2], keep)) == ts[0] + ts[1]
  {
    FilterAll(ts[0], keep);
    FilterAll(ts[1], keep);
    assert ts[..2] == ts;
    var fs := FilterTies(ts, keep);
    assert fs == [ts[0], ts[1]];
    assert fs[1..] == [ts[1]];
    assert fs[1..][1..] == [];
    assert Flatten(fs[1..]) == ts[1] + [];
  }

  /** Filtering keeps a list whose members are all kept. */
  lemma {:induction false} FilterAll(xs: seq<Id>, keep: set<Id>)
    requires forall s | s in xs :: s in keep
    ensures Filter(xs, keep) == xs
  {
    if |xs| > 0 {
      FilterAll(xs[1..], keep);
      assert xs == [xs[0]] + xs[1..];
    }
  }

  // ---------------------------------------------------------------------
  // One lecturer with a tie

  /** Lecturer l1 ranks s1 and s2 in one tie. */
  function TiedLecturers(): map<Id, seq<seq<Id>>> {
    map["l1" := [["s1", "s2"]]]
  }

  /** In the tie's first entry both students are first listed. */
  lemma TiedFirst(x: Id)
    requires x == "s1" || x == "s2"
    ensures Occurs(AsTieList([["s1", "s2"]]), x) && FirstTie(AsTieList([["s1", "s2"]]), x) == 0
  {
    assert Holds(AsTieList([["s1", "s2"]])[0], x);
  }

  /** With l1 indifferent between s1 and s2, neither outranks the other
      strictly, and each set that is not strict holds both. */
  lemma TiedOutranked(x: Id)
    requires x == "s1" || x == "s2"
    ensures ProjectedOutrankedCorrected(TiedLecturers(), TwoStudents(), "l1", "p1", x, true) == Ok([])
    ensures ProjectedOutrankedCorrected(TiedLecturers(), TwoStudents(), "l1", "p1", x, false) == Ok(["s1", "s2"])
  {
    TiedProjected();
    TiedFirst(x);
    CorrectedAt(TiedLecturers(), TwoStudents(), "l1", "p1", x, true, 0);
    CorrectedAt(TiedLecturers(), TwoStudents(), "l1", "p1", x, false, 0);
    TiedFiltered();
  }

  /** The tie filtered to the students accepting p1 is the whole tie. */
  lemma TiedFiltered()
    ensures Flatten(FilterTies([["s1", "s2"]][..0], Accepting(TwoStudents(), "p1"))) == []
    ensures Flatten(FilterTies([["s1", "s2"]][..1], Accepting(TwoStudents(), "p1"))) == ["s1", "s2"]
  {
    AcceptingTwo();
    var ts: seq<seq<Id>> := [["s1", "s2"]];
    FilterAll(ts[0], Accepting(TwoStudents(), "p1"));
    var fs := FilterTies(ts[..1], Accepting(TwoStudents(), "p1"));
    assert fs == [["s1", "s2"]];
    assert fs[1..] == [];
    assert FilterTies(ts[..0], Accepting(TwoStudents(), "p1")) == [];
  }

  /** l1's projected list for p1 is [s1, s2], the tie flattened. */
  lemma TiedProjected()
    ensures ProjectedList(TiedLecturers(), TwoStudents(), "l1", "p1") == Ok(["s1", "s2"])
  {
    var ties: seq<seq<Id>> := [["s1", "s2"]];
    assert ties[1..] == [];
    assert Flatten(ties) == ["s1", "s2"] + [];
    AcceptingTwo();
    FilterAll(["s1", "s2"], Accepting(TwoStudents(), "p1"));
    assert forall s | s in ["s1", "s2"] :: s in TwoStudents();
  }

  /** As written, the strict set for s2 is the characters of s1 although
      l1 is indifferent between them. */
  lemma TiedAsWritten()
    ensures ProjectedOutranked(TiedLecturers(), TwoStudents(), "l1", "p1", "s2", true) == Ok(["s", "1"])
  {
    TiedProjected();
    assert AsBare(["s1", "s2"]) == [Bare("s1"), Bare("s2")];
    assert !Holds(Bare("s1"), "s2") by {
      SameLength("s2", "s1");
      assert "s2"[1] != "s1"[1];
    }
    assert Holds(Bare("s2"), "s2") by {
      SameLength("s2", "s2");
    }
    SecondHolds(Bare("s1"), Bare("s2"), "s2", true);
    CharsTwo('s', '1');
    assert Items(Bare("s1")) == ["s", "1"];
    assert ["s", "1"] + [] == ["s", "1"];
  }

  /** Two students who both have a variable for `p` give two terms. */
  lemma TermsTwo(a: Id, b: Id, students: map<Id, set<Id>>, p: Id)
    requires a in students && p in students[a] && b in students && p in students[b]
    ensures PreferredTerms([a, b], students, p) == Ok([(a, p), (b, p)])
  {
    var t := PreferredTerms([a, b], students, p);
    assert t.Ok? && |t.value| == 2;
    assert t.value[0] == (a, p) && t.value[1] == (b, p);
    assert t.value == [(a, p), (b, p)];
  }

  /** A bare id that contains another as a substring hides it: as written,
      s1 is taken to be tied with the s12 ranked before it, so the strict
      set is empty where the corrected one is [s12]. */
  lemma OutrankedSubstring()
    ensures Outranked(AsBare(["s12", "s1"]), "s1", true) == Ok([])
    ensures Outranked(AsBare(["s12", "s1"]), "s1", false) == Ok(["s", "1", "2"])
    ensures Outranked(AsTies(["s12", "s1"]), "s1", true) == Ok(["s12"])
  {
    var L: seq<Id> := ["s12", "s1"];
    assert AsBare(L) == [Bare("s12"), Bare("s1")];
    assert Holds(Bare("s12"), "s1") by {
      assert "s12"[..2] == "s1";
    }
    FirstHolds(Bare("s12"), Bare("s1"), "s1", true);
    FirstHolds(Bare("s12"), Bare("s1"), "s1", false);
    CharsThree('s', '1', '2');
    OwnTiesOutranked(L, "s1", true);
    assert IndexOf(L, "s1") == 1;
    assert L[..1] == ["s12"];
  }
}
