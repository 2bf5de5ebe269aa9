/** The readers of Student/Project Allocation with Ties: preference entries
    with their rank tables (from a file line or from a dictionary), each
    lecturer's project set, and each project's list projected from its
    lecturer's list. */
module SpastReader {
  import opened Wrappers
  import opened Lists
  import opened Ties

  type Id = string

  // ---------------------------------------------------------------------
  // `_read_preferences_ranks` of the file reader

  /** The token holds an opening bracket (`"(" in k`). */
  predicate Opens(k: string) {
    '(' in k
  }

  /** The token holds a closing bracket and no opening one. */
  predicate Closes(k: string) {
    !Opens(k) && ')' in k
  }

  /** The token with its bracket cut off: `k[1:]` after an opening bracket,
      `k[:-1]` before a closing one. */
  function Strip(k: string): (r: string)
    ensures Opens(k) ==> r == k[1..]
    ensures Closes(k) ==> r == k[..|k| - 1]
    ensures !Opens(k) && !Closes(k) ==> r == k
  {
    if Opens(k) then k[1..] else if ')' in k then k[..|k| - 1] else k
  }

  /** An element of the reader's `preferences` list before it is wrapped:
      a string, or a Python list collecting a tie. */
  datatype Group = One(id: string) | Many(ids: seq<string>)

  function GroupIds(g: Group): seq<string> {
    match g
    case One(id) => [id]
    case Many(ids) => ids
  }

  function GroupIdSeq(gs: seq<Group>): (r: seq<seq<string>>)
    ensures |r| == |gs| && forall i | 0 <= i < |gs| :: r[i] == GroupIds(gs[i])
  {
    seq(|gs|, i requires 0 <= i < |gs| => GroupIds(gs[i]))
  }

  /** The ids of a sequence of groups, in order. */
  function Flat(gs: seq<Group>): seq<string> {
    Flatten(GroupIdSeq(gs))
  }

  /** `preferences[-1].append(x)` on an open tie. */
  function AddToLast(gs: seq<Group>, x: string): (r: seq<Group>)
    requires |gs| > 0 && gs[|gs| - 1].Many?
    ensures |r| == |gs| && r[|r| - 1].Many?
  {
    gs[..|gs| - 1] + [Many(gs[|gs| - 1].ids + [x])]
  }

  /** The loop over the tokens from position `pos` on; `open` is
      `open_bracket`, `gs` and `ranks` what has been built so far. */
  function ScanFrom(entry: seq<string>, pos: nat, letter: string, open: bool, gs: seq<Group>, ranks: map<string, nat>): (r: Result<(seq<Group>, map<string, nat>)>)
    requires pos <= |entry|
    requires open ==> |gs| > 0 && gs[|gs| - 1].Many?
    decreases |entry| - pos
  {
    if pos == |entry| then Ok((gs, ranks))
    else
      var k := entry[pos];
      var id := letter + Strip(k);
      var ranks' := ranks["p" + Strip(k) := pos];
      if Opens(k) && open then Err(ValueError)
      else if Opens(k) then ScanFrom(entry, pos + 1, letter, true, gs + [Many([id])], ranks')
      else if Closes(k) && !open then Err(ValueError)
      else if Closes(k) then ScanFrom(entry, pos + 1, letter, false, AddToLast(gs, id), ranks')
      else if !open then ScanFrom(entry, pos + 1, letter, false, gs + [One(id)], ranks')
      else ScanFrom(entry, pos + 1, letter, true, AddToLast(gs, id), ranks')
  }

  /** Lists become tuples, and every element is wrapped as an entry. */
  function Wrap(gs: seq<Group>): (r: seq<Entity>)
    ensures |r| == |gs|
    ensures forall i | 0 <= i < |gs| :: Ids(r[i]) == GroupIds(gs[i]) && (r[i].Tie? <==> gs[i].Many?)
  {
    seq(|gs|, i requires 0 <= i < |gs| => match gs[i] case One(id) => Single(id) case Many(ids) => Tie(ids))
  }

  /** `_read_preferences_ranks(entry, letter)`. */
  function ReadPreferencesRanks(entry: seq<string>, letter: string): (r: Result<(seq<Entity>, map<string, nat>)>)
  {
    var (gs, ranks) :- ScanFrom(entry, 0, letter, false, [], map[]);
    Ok((Wrap(gs), ranks))
  }

  /** Opening minus closing brackets among the first `n` tokens. */
  function Depth(entry: seq<string>, n: nat): int
    requires n <= |entry|
  {
    if n == 0 then 0
    else Depth(entry, n - 1) + (if Opens(entry[n - 1]) then 1 else if Closes(entry[n - 1]) then -1 else 0)
  }

  /** No bracket opens inside a tie, and none closes outside one; a tie may
      be left open at the end. */
  ghost predicate Bracketed(entry: seq<string>, from: nat) {
    forall i | from <= i < |entry| ::
      && (Opens(entry[i]) ==> Depth(entry, i) == 0)
      && (Closes(entry[i]) ==> Depth(entry, i) == 1)
  }

  /** Each id prefixed with `letter`. */
  function Prefixed(entry: seq<string>, letter: string): (r: seq<string>)
    ensures |r| == |entry|
  {
    seq(|entry|, i requires 0 <= i < |entry| => letter + Strip(entry[i]))
  }

  /** The keys the reader ranks: `"p"` and the id, whatever the letter. */
  function RankKeys(entry: seq<string>): (r: seq<string>)
    ensures |r| == |entry|
  {
    seq(|entry|, i requires 0 <= i < |entry| => "p" + Strip(entry[i]))
  }

  lemma FlatAppend(gs: seq<Group>, g: Group)
    ensures Flat(gs + [g]) == Flat(gs) + GroupIds(g)
  {
    assert GroupIdSeq(gs + [g]) == GroupIdSeq(gs) + [GroupIds(g)];
    FlattenAppend(GroupIdSeq(gs), GroupIds(g));
  }

  lemma FlatAddToLast(gs: seq<Group>, x: string)
    requires |gs| > 0 && gs[|gs| - 1].Many?
    ensures Flat(AddToLast(gs, x)) == Flat(gs) + [x]
  {
    var init := gs[..|gs| - 1];
    assert gs == init + [gs[|gs| - 1]];
    FlatAppend(init, gs[|gs| - 1]);
    FlatAppend(init, Many(gs[|gs| - 1].ids + [x]));
  }

  lemma RankKeysStep(entry: seq<string>, pos: nat)
    requires pos < |entry|
    ensures RankTable(RankKeys(entry)[..pos + 1]) == RankTable(RankKeys(entry)[..pos])["p" + Strip(entry[pos]) := pos]
  {
    assert RankKeys(entry)[..pos + 1][..pos] == RankKeys(entry)[..pos];
  }

  lemma PrefixedStep(entry: seq<string>, letter: string, pos: nat)
    requires pos < |entry|
    ensures Prefixed(entry, letter)[..pos + 1] == Prefixed(entry, letter)[..pos] + [letter + Strip(entry[pos])]
  {
  }

  /** The scan from `pos` on, started in the state the earlier tokens
      leave, fails exactly when a later bracket is misplaced. */
  lemma {:induction false} ScanFromOk(entry: seq<string>, pos: nat, letter: string, open: bool, gs: seq<Group>, ranks: map<string, nat>)
    requires pos <= |entry|
    requires open ==> |gs| > 0 && gs[|gs| - 1].Many?
    requires Depth(entry, pos) == (if open then 1 else 0)
    ensures ScanFrom(entry, pos, letter, open, gs, ranks).Ok? <==> Bracketed(entry, pos)
    decreases |entry| - pos
  {
    if pos < |entry| {
      var k := entry[pos];
      var id := letter + Strip(k);
      var ranks' := ranks["p" + Strip(k) := pos];
      if Opens(k) && open {
        assert !Bracketed(entry, pos);
      } else if Opens(k) {
        ScanFromOk(entry, pos + 1, letter, true, gs + [Many([id])], ranks');
        BracketedStep(entry, pos);
      } else if Closes(k) && !open {
        assert !Bracketed(entry, pos);
      } else if Closes(k) {
        ScanFromOk(entry, pos + 1, letter, false, AddToLast(gs, id), ranks');
        BracketedStep(entry, pos);
      } else if !open {
        ScanFromOk(entry, pos + 1, letter, false, gs + [One(id)], ranks');
        BracketedStep(entry, pos);
      } else {
        ScanFromOk(entry, pos + 1, letter, true, AddToLast(gs, id), ranks');
        BracketedStep(entry, pos);
      }
    }
  }

  /** One more token keeps the ids and the rank table those of the tokens
      read so far. */
  lemma ContentStep(entry: seq<string>, pos: nat, letter: string, gs: seq<Group>, gs': seq<Group>, ranks: map<string, nat>)
    requires pos < |entry|
    requires Flat(gs) == Prefixed(entry, letter)[..pos]
    requires Flat(gs') == Flat(gs) + [letter + Strip(entry[pos])]
    requires ranks == RankTable(RankKeys(entry)[..pos])
    ensures Flat(gs') == Prefixed(entry, letter)[..pos + 1]
    ensures ranks["p" + Strip(entry[pos]) := pos] == RankTable(RankKeys(entry)[..pos + 1])
  {
    RankKeysStep(entry, pos);
    PrefixedStep(entry, letter, pos);
  }

  /** A scan that succeeds from `pos` on completes the ids and the rank
      table of the earlier tokens. */
  lemma {:induction false} ScanFromContent(entry: seq<string>, pos: nat, letter: string, open: bool, gs: seq<Group>, ranks: map<string, nat>)
    requires pos <= |entry|
    requires open ==> |gs| > 0 && gs[|gs| - 1].Many?
    requires Flat(gs) == Prefixed(entry, letter)[..pos]
    requires ranks == RankTable(RankKeys(entry)[..pos])
    ensures ScanFrom(entry, pos, letter, open, gs, ranks).Ok? ==>
      && Flat(ScanFrom(entry, pos, letter, open, gs, ranks).value.0) == Prefixed(entry, letter)
      && ScanFrom(entry, pos, letter, open, gs, ranks).value.1 == RankTable(RankKeys(entry))
    decreases |entry| - pos
  {
    if pos == |entry| {
      assert Prefixed(entry, letter)[..pos] == Prefixed(entry, letter);
      assert RankKeys(entry)[..pos] == RankKeys(entry);
    } else {
      var k := entry[pos];
      var id := letter + Strip(k);
      var ranks' := ranks["p" + Strip(k) := pos];
      if Opens(k) && open {
      } else if Opens(k) {
        FlatAppend(gs, Many([id]));
        ContentStep(entry, pos, letter, gs, gs + [Many([id])], ranks);
        ScanFromContent(entry, pos + 1, letter, true, gs + [Many([id])], ranks');
      } else if Closes(k) && !open {
      } else if Closes(k) || open {
        FlatAddToLast(gs, id);
        ContentStep(entry, pos, letter, gs, AddToLast(gs, id), ranks);
        ScanFromContent(entry, pos + 1, letter, !Closes(k), AddToLast(gs, id), ranks');
      } else {
        FlatAppend(gs, One(id));
        ContentStep(entry, pos, letter, gs, gs + [One(id)], ranks);
        ScanFromContent(entry, pos + 1, letter, false, gs + [One(id)], ranks');
      }
    }
  }

  lemma BracketedStep(entry: seq<string>, pos: nat)
    requires pos < |entry|
    requires Opens(entry[pos]) ==> Depth(entry, pos) == 0
    requires Closes(entry[pos]) ==> Depth(entry, pos) == 1
    ensures Bracketed(entry, pos) <==> Bracketed(entry, pos + 1)
  {
  }

  /** The ties of a list of entries, as id sequences. */
  function EntryIds(prefs: seq<Entity>): (r: seq<seq<string>>)
    ensures |r| == |prefs| && forall i | 0 <= i < |prefs| :: r[i] == Ids(prefs[i])
  {
    seq(|prefs|, i requires 0 <= i < |prefs| => Ids(prefs[i]))
  }

  /** The reader accepts a line exactly when its brackets never nest and
      never close an unopened tie; it then lists every token's id, prefixed
      with `letter`, in order, and ranks `"p"` + id by the token's position
      (the last position when an id repeats). */
  lemma ReadPreferencesRanksSpec(entry: seq<string>, letter: string)
    ensures ReadPreferencesRanks(entry, letter).Ok? <==> Bracketed(entry, 0)
    ensures ReadPreferencesRanks(entry, letter).Ok? ==>
      && Flatten(EntryIds(ReadPreferencesRanks(entry, letter).value.0)) == Prefixed(entry, letter)
      && ReadPreferencesRanks(entry, letter).value.1 == RankTable(RankKeys(entry))
  {
    assert Prefixed(entry, letter)[..0] == [];
    assert RankKeys(entry)[..0] == [];
    assert GroupIdSeq([]) == [];
    ScanFromOk(entry, 0, letter, false, [], map[]);
    ScanFromContent(entry, 0, letter, false, [], map[]);
    var r := ScanFrom(entry, 0, letter, false, [], map[]);
    if r.Ok? {
      assert EntryIds(Wrap(r.value.0)) == GroupIdSeq(r.value.0);
    }
  }

  lemma StripFacts()
    ensures Opens("(1") && Strip("(1") == "1"
    ensures !Opens("2") && !Closes("2") && Strip("2") == "2"
    ensures !Opens("2)") && Closes("2)") && Strip("2)") == "2"
  {
    assert "(1"[0] == '(';
    assert "2)"[1] == ')';
    assert "(1"[1..] == "1";
    assert "2)"[..1] == "2";
  }

  /** One step of the loop on a token that opens a tie. */
  lemma ScanOpens(entry: seq<string>, pos: nat, letter: string, gs: seq<Group>, ranks: map<string, nat>)
    requires pos < |entry| && Opens(entry[pos])
    ensures ScanFrom(entry, pos, letter, false, gs, ranks)
      == ScanFrom(entry, pos + 1, letter, true, gs + [Many([letter + Strip(entry[pos])])], ranks["p" + Strip(entry[pos]) := pos])
  {
  }

  /** One step of the loop on a token inside an open tie. */
  lemma ScanInside(entry: seq<string>, pos: nat, letter: string, gs: seq<Group>, ranks: map<string, nat>)
    requires pos < |entry| && !Opens(entry[pos]) && !Closes(entry[pos]) && |gs| > 0 && gs[|gs| - 1].Many?
    ensures ScanFrom(entry, pos, letter, true, gs, ranks)
      == ScanFrom(entry, pos + 1, letter, true, AddToLast(gs, letter + Strip(entry[pos])), ranks["p" + Strip(entry[pos]) := pos])
  {
  }

  /** One step of the loop on a token that closes the open tie. */
  lemma ScanCloses(entry: seq<string>, pos: nat, letter: string, gs: seq<Group>, ranks: map<string, nat>)
    requires pos < |entry| && !Opens(entry[pos]) && Closes(entry[pos]) && |gs| > 0 && gs[|gs| - 1].Many?
    ensures ScanFrom(entry, pos, letter, true, gs, ranks)
      == ScanFrom(entry, pos + 1, letter, false, AddToLast(gs, letter + Strip(entry[pos])), ranks["p" + Strip(entry[pos]) := pos])
  {
  }

  /** Adding to the single tie `[x]`. */
  lemma AddToOne(x: string, y: string)
    ensures AddToLast([Many([x])], y) == [Many([x, y])]
  {
    assert [Many([x])][..0] == [];
    assert [x] + [y] == [x, y];
  }

  /** A line of two tokens, the first opening a tie: both ids land in
      that tie, whether or not the second token closes it. */
  lemma TwoTied(o: string, m: string, letter: string)
    requires Opens(o) && !Opens(m)
    ensures ReadPreferencesRanks([o, m], letter)
      == Ok(([Tie([letter + Strip(o), letter + Strip(m)])], map["p" + Strip(o) := 0]["p" + Strip(m) := 1]))
  {
    var e := [o, m];
    var x, y := letter + Strip(o), letter + Strip(m);
    ScanOpens(e, 0, letter, [], map[]);
    assert [] + [Many([x])] == [Many([x])];
    if Closes(m) {
      ScanCloses(e, 1, letter, [Many([x])], map["p" + Strip(o) := 0]);
    } else {
      ScanInside(e, 1, letter, [Many([x])], map["p" + Strip(o) := 0]);
    }
    AddToOne(x, y);
    assert Wrap([Many([x, y])]) == [Tie([x, y])];
  }

  /** An unclosed tie at the end of a line is not reported. */
  lemma UnclosedAccepted()
    ensures ReadPreferencesRanks(["(1", "2"], "p") == Ok(([Tie(["p1", "p2"])], map["p1" := 0, "p2" := 1]))
  {
    StripFacts();
    TwoTied("(1", "2", "p");
    assert "p" + "1" == "p1" && "p" + "2" == "p2";
  }

  /** A lecturer's line: the list holds "s" ids, the rank table "p" keys,
      so no listed student has a rank; and tied entries get different ranks. */
  lemma LecturerRanksAsWritten()
    ensures ReadPreferencesRanks(["(1", "2)"], "s") == Ok(([Tie(["s1", "s2"])], map["p1" := 0, "p2" := 1]))
  {
    StripFacts();
    TwoTied("(1", "2)", "s");
    assert "s" + "1" == "s1" && "s" + "2" == "s2" && "p" + "1" == "p1" && "p" + "2" == "p2";
  }

  // ---------------------------------------------------------------------
  // Rank by tie index, as the dictionary reader builds it

  /** Every id listed in some tie is mapped to the index of the last tie
      that lists it. */
  ghost predicate TieIndexed(rank: map<string, nat>, ties: seq<seq<string>>) {
    && (forall x | x in rank :: rank[x] < |ties| && x in ties[rank[x]])
    && (forall g, x | 0 <= g < |ties| && x in ties[g] :: x in rank && g <= rank[x])
  }

  /** `rank[x] = i` for each `x` of `ids` in turn. */
  function SetIds(rank: map<string, nat>, ids: seq<string>, i: nat): map<string, nat>
    decreases |ids|
  {
    if |ids| == 0 then rank else SetIds(rank[ids[0] := i], ids[1..], i)
  }

  lemma {:induction false} SetIdsFacts(rank: map<string, nat>, ids: seq<string>, i: nat)
    ensures forall x :: x in SetIds(rank, ids, i) <==> x in rank || x in ids
    ensures forall x | x in ids :: SetIds(rank, ids, i)[x] == i
    ensures forall x | x in rank && x !in ids :: SetIds(rank, ids, i)[x] == rank[x]
    decreases |ids|
  {
    if |ids| > 0 {
      SetIdsFacts(rank[ids[0] := i], ids[1..], i);
      assert forall x :: x in ids <==> x == ids[0] || x in ids[1..];
    }
  }

  /** `rank[x] = i` for every member `x` of the i-th tie, later ties
      overwriting earlier ones. */
  function TieRanks(ties: seq<seq<string>>): map<string, nat> {
    if |ties| == 0 then map[]
    else
      var n := |ties| - 1;
      SetIds(TieRanks(ties[..n]), ties[n], n)
  }

  lemma {:induction false} TieRanksIndexed(ties: seq<seq<string>>)
    ensures TieIndexed(TieRanks(ties), ties)
  {
    if |ties| > 0 {
      var n := |ties| - 1;
      TieRanksIndexed(ties[..n]);
      var init := TieRanks(ties[..n]);
      SetIdsFacts(init, ties[n], n);
      assert forall g | 0 <= g < n :: ties[..n][g] == ties[g];
      var r := TieRanks(ties);
      forall x | x in r
        ensures r[x] < |ties| && x in ties[r[x]]
      {
        if x !in ties[n] {
          assert x in init;
        }
      }
      forall g, x | 0 <= g < |ties| && x in ties[g]
        ensures x in r && g <= r[x]
      {
        if x !in ties[n] {
          assert x in ties[..n][g];
        }
      }
    }
  }

  /** `_read_preferences_ranks` with the rank table the dictionary reader
      builds: keyed by the ids as listed, valued by the tie index. */
  function ReadPreferencesTieRanks(entry: seq<string>, letter: string): (r: Result<(seq<Entity>, map<string, nat>)>)
    ensures r.Ok? <==> ReadPreferencesRanks(entry, letter).Ok?
    ensures r.Ok? ==> r.value.0 == ReadPreferencesRanks(entry, letter).value.0
    ensures r.Ok? ==> TieIndexed(r.value.1, EntryIds(r.value.0))
  {
    var (prefs, _) :- ReadPreferencesRanks(entry, letter);
    TieRanksIndexed(EntryIds(prefs));
    Ok((prefs, TieRanks(EntryIds(prefs))))
  }

  /** With the corrected table every listed student has a rank, and the
      members of a tie share it. */
  lemma LecturerRanksCorrected()
    ensures ReadPreferencesTieRanks(["(1", "2)"], "s").Ok?
    ensures var rank := ReadPreferencesTieRanks(["(1", "2)"], "s").value.1;
      "s1" in rank && "s2" in rank && rank["s1"] == rank["s2"] == 0
  {
    LecturerRanksAsWritten();
    var r := ReadPreferencesTieRanks(["(1", "2)"], "s");
    assert EntryIds(r.value.0) == [["s1", "s2"]];
    assert "s1" in EntryIds(r.value.0)[0] && "s2" in EntryIds(r.value.0)[0];
  }

  /** A dictionary entry: an int, or a list of ints (both kept as the
      decimal strings the f-strings produce). */
  datatype DictEntry = DOne(n: string) | DMany(ns: seq<string>)

  /** The entry a dictionary element becomes. */
  function DictEntity(d: DictEntry, letter: string): (e: Entity)
    ensures e.Tie? <==> d.DMany?
    ensures d.DOne? ==> Ids(e) == [letter + d.n]
    ensures d.DMany? ==> |Ids(e)| == |d.ns| && forall j | 0 <= j < |d.ns| :: Ids(e)[j] == letter + d.ns[j]
  {
    match d
    case DOne(n) => Single(letter + n)
    case DMany(ns) => Tie(seq(|ns|, j requires 0 <= j < |ns| => letter + ns[j]))
  }

  /** The dictionary reader's update of `rank` for the i-th element:
      `rank[letter + x] = i` for an int, the same for each int of a list. */
  function DictRank(rank: map<string, nat>, d: DictEntry, letter: string, i: nat): map<string, nat> {
    match d
    case DOne(x) => rank[letter + x := i]
    case DMany(_) => SetIds(rank, Ids(DictEntity(d, letter)), i)
  }

  /** The dictionary reader's loop over a list: the entries in order, and
      the rank table. */
  function DictPrefs(v: seq<DictEntry>, letter: string): (seq<Entity>, map<string, nat>) {
    if |v| == 0 then ([], map[])
    else
      var n := |v| - 1;
      var prev := DictPrefs(v[..n], letter);
      (prev.0 + [DictEntity(v[n], letter)], DictRank(prev.1, v[n], letter, n))
  }

  lemma DictRankIsSetIds(rank: map<string, nat>, d: DictEntry, letter: string, i: nat)
    ensures DictRank(rank, d, letter, i) == SetIds(rank, Ids(DictEntity(d, letter)), i)
  {
    if d.DOne? {
      assert Ids(DictEntity(d, letter))[1..] == [];
    }
  }

  lemma TieRanksAppend(ties: seq<seq<string>>, t: seq<string>)
    ensures TieRanks(ties + [t]) == SetIds(TieRanks(ties), t, |ties|)
  {
    assert (ties + [t])[..|ties|] == ties;
  }

  lemma EntryIdsAppend(prefs: seq<Entity>, e: Entity)
    ensures EntryIds(prefs + [e]) == EntryIds(prefs) + [Ids(e)]
  {
  }

  /** The dictionary reader wraps every element in order and ranks every
      listed id by the index of the last element that lists it. */
  lemma {:induction false} DictPrefsSpec(v: seq<DictEntry>, letter: string)
    ensures |DictPrefs(v, letter).0| == |v|
    ensures forall i | 0 <= i < |v| :: DictPrefs(v, letter).0[i] == DictEntity(v[i], letter)
    ensures DictPrefs(v, letter).1 == TieRanks(EntryIds(DictPrefs(v, letter).0))
    ensures TieIndexed(DictPrefs(v, letter).1, EntryIds(DictPrefs(v, letter).0))
  {
    DictPrefsEntries(v, letter);
    DictPrefsRanks(v, letter);
    TieRanksIndexed(EntryIds(DictPrefs(v, letter).0));
  }

  lemma {:induction false} DictPrefsEntries(v: seq<DictEntry>, letter: string)
    ensures |DictPrefs(v, letter).0| == |v|
    ensures forall i | 0 <= i < |v| :: DictPrefs(v, letter).0[i] == DictEntity(v[i], letter)
  {
    if |v| > 0 {
      var n := |v| - 1;
      DictPrefsEntries(v[..n], letter);
      assert DictPrefs(v, letter).0 == DictPrefs(v[..n], letter).0 + [DictEntity(v[n], letter)];
    }
  }

  lemma {:induction false} DictPrefsRanks(v: seq<DictEntry>, letter: string)
    ensures DictPrefs(v, letter).1 == TieRanks(EntryIds(DictPrefs(v, letter).0))
  {
    if |v| > 0 {
      var n := |v| - 1;
      var prev := DictPrefs(v[..n], letter);
      var e := DictEntity(v[n], letter);
      DictPrefsRanks(v[..n], letter);
      DictPrefsEntries(v[..n], letter);
      EntryIdsAppend(prev.0, e);
      TieRanksAppend(EntryIds(prev.0), Ids(e));
      DictRankIsSetIds(prev.1, v[n], letter, n);
    }
  }

  /** The corrected file reader and the dictionary reader agree on lines
      that describe the same entries. */
  lemma FileAgreesWithDictionary(entry: seq<string>, v: seq<DictEntry>, letter: string)
    requires ReadPreferencesTieRanks(entry, letter).Ok?
    requires ReadPreferencesTieRanks(entry, letter).value.0 == DictPrefs(v, letter).0
    ensures ReadPreferencesTieRanks(entry, letter).value == DictPrefs(v, letter)
  {
    DictPrefsSpec(v, letter);
  }

  // ---------------------------------------------------------------------
  // Lecturers' projects and the projected lists

  /** How many entries of a student's list contain the project, by `in`:
      substring search on a single entry, member equality on a tie. */
  function CountContaining(prefs: seq<Entity>, p: Id): (r: nat)
    ensures r <= |prefs|
    ensures r > 0 <==> exists i | 0 <= i < |prefs| :: Contains(prefs[i], VStr(p)) == Ok(true)
  {
    if |prefs| == 0 then 0
    else
      var n := |prefs| - 1;
      assert forall i | 0 <= i < n :: prefs[..n][i] == prefs[i];
      CountContaining(prefs[..n], p) + (if Contains(prefs[n], VStr(p)) == Ok(true) then 1 else 0)
  }

  /** `[x] * n`. */
  function Repeat(x: Id, n: nat): (r: seq<Id>)
    ensures |r| == n && forall i | 0 <= i < n :: r[i] == x
  {
    if n == 0 then [] else [x] + Repeat(x, n - 1)
  }

  /** The students of a lecturer's list, ties flattened, in order. */
  function Students(lecList: seq<Entity>): seq<Id> {
    Flatten(EntryIds(lecList))
  }

  /** The projected list as built: for each student in the lecturer's order,
      one copy per entry of the student's list that contains the project;
      `self.students[stu]` raises KeyError for an unknown student. */
  function Projected(studs: seq<Id>, students: map<Id, seq<Entity>>, p: Id): (r: Result<seq<Id>>)
    ensures r.Ok? <==> forall i | 0 <= i < |studs| :: studs[i] in students
    ensures r.Ok? ==> forall x :: x in r.value <==> x in studs && x in students && CountContaining(students[x], p) > 0
  {
    if |studs| == 0 then Ok([])
    else if studs[0] !in students then Err(KeyError)
    else
      var rest := Projected(studs[1..], students, p);
      if rest.Err? then rest
      else Ok(Repeat(studs[0], CountContaining(students[studs[0]], p)) + rest.value)
  }

  /** The student lists the project itself, in a single entry or a tie. */
  predicate Names(prefs: seq<Entity>, p: Id) {
    exists i | 0 <= i < |prefs| :: p in Ids(prefs[i])
  }

  /** The projected list L_k^j as defined: the lecturer's students, in
      order, restricted to those who list the project. */
  function ProjectedIntended(studs: seq<Id>, students: map<Id, seq<Entity>>, p: Id): (r: Result<seq<Id>>)
    ensures r.Ok? <==> forall i | 0 <= i < |studs| :: studs[i] in students
    ensures r.Ok? ==> forall x :: x in r.value <==> x in studs && x in students && Names(students[x], p)
    ensures r.Ok? && NoDup(studs) ==> NoDup(r.value)
  {
    if |studs| == 0 then Ok([])
    else if studs[0] !in students then Err(KeyError)
    else
      var rest := ProjectedIntended(studs[1..], students, p);
      if rest.Err? then rest
      else
        assert NoDup(studs) ==> studs[0] !in studs[1..] && NoDup(studs[1..]);
        Ok((if Names(students[studs[0]], p) then [studs[0]] else []) + rest.value)
  }

  /** A student whose only entry is a longer id containing the project's
      id (as "p12" contains "p1") lands on the project's list, though the
      student does not list the project. */
  lemma ProjectedSubstring(s: Id, p: Id, q: Id)
    requires IsSubstring(p, q) && p != q
    ensures Projected([s], map[s := [Single(q)]], p) == Ok([s])
    ensures ProjectedIntended([s], map[s := [Single(q)]], p).Ok? && ProjectedIntended([s], map[s := [Single(q)]], p).value == []
  {
    var prefs := [Single(q)];
    var m := map[s := prefs];
    assert CountContaining(prefs, p) == 1 by {
      assert prefs[..0] == [];
    }
    assert !Names(prefs, p) by {
      assert Ids(prefs[0]) == [q];
    }
    assert [s][1..] == [];
    assert Repeat(s, 1) == [s];
    var none: seq<Id> := [];
    assert Projected([s], m, p) == Ok(Repeat(s, 1) + none);
    assert ProjectedIntended([s], m, p) == Ok(none + none);
  }

  /** The record of a project once read: the quota is stored under the key
      `quotaKey` ("upper_quota" in both readers). */
  datatype Project = Project(quotaKey: string, quota: int, lecturer: Id, list: seq<Id>, rank: map<Id, nat>)

  /** The record of a lecturer once read. */
  datatype Lecturer = Lecturer(quotaKey: string, quota: int, projects: set<Id>, list: seq<Entity>, rank: map<Id, nat>)

  /** The key under which both readers store quotas. */
  const QuotaKey: string := "upper_quota"

  /** The projects of `order` offered by lecturer `l`. */
  function OfferedBy(order: seq<Id>, projects: map<Id, Project>, l: Id): (r: set<Id>)
    ensures forall p :: p in r <==> p in order && p in projects && projects[p].lecturer == l
  {
    if |order| == 0 then {}
    else
      assert forall p :: p in order <==> p == order[0] || p in order[1..];
      (if order[0] in projects && projects[order[0]].lecturer == l then {order[0]} else {}) + OfferedBy(order[1..], projects, l)
  }

  /** Updating a project's list or rank does not change who offers it. */
  lemma OfferedByFrame(order: seq<Id>, projects: map<Id, Project>, projects1: map<Id, Project>, l: Id)
    requires projects1.Keys == projects.Keys
    requires forall q | q in projects :: projects1[q].lecturer == projects[q].lecturer
    ensures OfferedBy(order, projects1, l) == OfferedBy(order, projects, l)
  {
  }

  /** The projected list of a project: its lecturer is looked up, then
      the lecturer's list is projected; either lookup can fail with
      KeyError. */
  function ProjectedFor(p: Id, students: map<Id, seq<Entity>>, projects: map<Id, Project>, lecturers: map<Id, Lecturer>): Result<seq<Id>>
    requires p in projects
  {
    var lec := projects[p].lecturer;
    if lec !in lecturers then Err(KeyError) else Projected(Students(lecturers[lec].list), students, p)
  }

  /** A project's record once its projected list is known. */
  function WithList(projects: map<Id, Project>, p: Id, pl: seq<Id>): (r: map<Id, Project>)
    requires p in projects
    ensures r.Keys == projects.Keys
    ensures forall q | q in projects && q != p :: r[q] == projects[q]
  {
    projects[p := projects[p].(list := pl, rank := RankTable(pl))]
  }

  /** The lecturers once `p` is added to its lecturer's project set. */
  function WithProject(lecturers: map<Id, Lecturer>, lec: Id, p: Id): (r: map<Id, Lecturer>)
    requires lec in lecturers
    ensures r.Keys == lecturers.Keys
    ensures forall l | l in lecturers :: r[l].list == lecturers[l].list
    ensures forall l | l in lecturers && l != lec :: r[l] == lecturers[l]
    ensures r[lec] == lecturers[lec].(projects := lecturers[lec].projects + {p})
  {
    lecturers[lec := lecturers[lec].(projects := lecturers[lec].projects + {p})]
  }

  /** The final loop of both readers, over the projects in key order: add
      the project to its lecturer's set, then project the lecturer's list
      (rank = position, the last one for a repeated student). */
  function UpdateProjects(order: seq<Id>, students: map<Id, seq<Entity>>, projects: map<Id, Project>, lecturers: map<Id, Lecturer>): Result<(map<Id, Project>, map<Id, Lecturer>)>
    requires forall i | 0 <= i < |order| :: order[i] in projects
    decreases |order|
  {
    if |order| == 0 then Ok((projects, lecturers))
    else
      var p := order[0];
      var res := ProjectedFor(p, students, projects, lecturers);
      if res.Err? then Err(res.error)
      else UpdateProjects(order[1..], students, WithList(projects, p, res.value), WithProject(lecturers, projects[p].lecturer, p))
  }

  /** Only the lecturer fields and the lecturers' lists decide the
      projected lists. */
  lemma ProjectedForFrame(q: Id, students: map<Id, seq<Entity>>, projects: map<Id, Project>, lecturers: map<Id, Lecturer>, projects1: map<Id, Project>, lecturers1: map<Id, Lecturer>)
    requires q in projects && q in projects1 && projects1[q].lecturer == projects[q].lecturer
    requires lecturers1.Keys == lecturers.Keys
    requires forall l | l in lecturers :: lecturers1[l].list == lecturers[l].list
    ensures ProjectedFor(q, students, projects1, lecturers1) == ProjectedFor(q, students, projects, lecturers)
  {
  }

  /** The loop fails exactly when some project's lecturer is unknown or its
      lecturer lists an unknown student. */
  lemma {:induction false} UpdateProjectsOk(order: seq<Id>, students: map<Id, seq<Entity>>, projects: map<Id, Project>, lecturers: map<Id, Lecturer>)
    requires forall i | 0 <= i < |order| :: order[i] in projects
    ensures UpdateProjects(order, students, projects, lecturers).Ok? <==>
      forall p | p in order :: p in projects && ProjectedFor(p, students, projects, lecturers).Ok?
    decreases |order|
  {
    if |order| > 0 {
      var p := order[0];
      var res := ProjectedFor(p, students, projects, lecturers);
      if res.Ok? {
        var projects1 := WithList(projects, p, res.value);
        var lecturers1 := WithProject(lecturers, projects[p].lecturer, p);
        UpdateProjectsOk(order[1..], students, projects1, lecturers1);
        forall q | q in order
          ensures q in projects && q in projects1
          ensures ProjectedFor(q, students, projects, lecturers) == ProjectedFor(q, students, projects1, lecturers1)
        {
          assert q == p || q in order[1..];
          ProjectedForFrame(q, students, projects, lecturers, projects1, lecturers1);
        }
        assert forall q :: q in order <==> q == p || q in order[1..];
      }
    }
  }

  /** Each lecturer's set gains exactly the projects it offers; nothing
      else of a lecturer changes. */
  lemma UpdateProjectsLecturers(order: seq<Id>, students: map<Id, seq<Entity>>, projects: map<Id, Project>, lecturers: map<Id, Lecturer>)
    requires forall i | 0 <= i < |order| :: order[i] in projects
    ensures UpdateProjects(order, students, projects, lecturers).Ok? ==>
      var lecturers' := UpdateProjects(order, students, projects, lecturers).value.1;
      && lecturers'.Keys == lecturers.Keys
      && forall l | l in lecturers :: lecturers'[l] == lecturers[l].(projects := lecturers[l].projects + OfferedBy(order, projects, l))
  {
    forall l | l in lecturers {
      UpdateProjectsLecturer(order, students, projects, lecturers, l);
    }
    if |order| == 0 {
    } else {
      UpdateProjectsLecturer(order, students, projects, lecturers, order[0]);
    }
  }

  lemma {:induction false} UpdateProjectsLecturer(order: seq<Id>, students: map<Id, seq<Entity>>, projects: map<Id, Project>, lecturers: map<Id, Lecturer>, l: Id)
    requires forall i | 0 <= i < |order| :: order[i] in projects
    ensures UpdateProjects(order, students, projects, lecturers).Ok? ==>
      var lecturers' := UpdateProjects(order, students, projects, lecturers).value.1;
      && lecturers'.Keys == lecturers.Keys
      && (l in lecturers ==> lecturers'[l] == lecturers[l].(projects := lecturers[l].projects + OfferedBy(order, projects, l)))
    decreases |order|
  {
    if |order| > 0 {
      var p := order[0];
      var res := ProjectedFor(p, students, projects, lecturers);
      if res.Ok? {
        var lec := projects[p].lecturer;
        var projects1 := WithList(projects, p, res.value);
        UpdateProjectsLecturer(order[1..], students, projects1, WithProject(lecturers, lec, p), l);
        if l in lecturers {
          OfferedByFrame(order[1..], projects, projects1, l);
          var rest := OfferedBy(order[1..], projects, l);
          assert OfferedBy(order, projects, l) == (if l == lec then {p} else {}) + rest;
          AddProjectsStep(lecturers, lec, p, l, rest);
        }
      }
    }
  }

  lemma AddProjectsStep(lecturers: map<Id, Lecturer>, lec: Id, p: Id, l: Id, rest: set<Id>)
    requires lec in lecturers && l in lecturers
    ensures var lecturers1 := WithProject(lecturers, lec, p);
      lecturers1[l].(projects := lecturers1[l].projects + rest)
        == lecturers[l].(projects := lecturers[l].projects + ((if l == lec then {p} else {}) + rest))
  {
  }

  /** Only the list and rank of a project change, and a project not
      visited does not change at all. */
  lemma {:induction false} UpdateProjectsKeep(order: seq<Id>, students: map<Id, seq<Entity>>, projects: map<Id, Project>, lecturers: map<Id, Lecturer>)
    requires forall i | 0 <= i < |order| :: order[i] in projects
    ensures UpdateProjects(order, students, projects, lecturers).Ok? ==>
      var projects' := UpdateProjects(order, students, projects, lecturers).value.0;
      && projects'.Keys == projects.Keys
      && (forall p | p in projects :: projects'[p].(list := projects[p].list, rank := projects[p].rank) == projects[p])
      && (forall p | p in projects && p !in order :: projects'[p] == projects[p])
    decreases |order|
  {
    if |order| > 0 {
      var p := order[0];
      var res := ProjectedFor(p, students, projects, lecturers);
      if res.Ok? {
        UpdateProjectsKeep(order[1..], students, WithList(projects, p, res.value), WithProject(lecturers, projects[p].lecturer, p));
      }
    }
  }

  /** A visited project gets its projected list and the position table of
      that list. */
  lemma {:induction false} UpdateProjectsLists(order: seq<Id>, students: map<Id, seq<Entity>>, projects: map<Id, Project>, lecturers: map<Id, Lecturer>)
    requires forall i | 0 <= i < |order| :: order[i] in projects
    ensures UpdateProjects(order, students, projects, lecturers).Ok? ==>
      var projects' := UpdateProjects(order, students, projects, lecturers).value.0;
      forall p | p in order ::
        && p in projects && p in projects'
        && ProjectedFor(p, students, projects, lecturers) == Ok(projects'[p].list)
        && projects'[p].rank == RankTable(projects'[p].list)
    decreases |order|
  {
    if |order| > 0 {
      var p := order[0];
      var res := ProjectedFor(p, students, projects, lecturers);
      if res.Ok? {
        var projects1 := WithList(projects, p, res.value);
        var lecturers1 := WithProject(lecturers, projects[p].lecturer, p);
        UpdateProjectsLists(order[1..], students, projects1, lecturers1);
        UpdateProjectsKeep(order[1..], students, projects1, lecturers1);
        var r := UpdateProjects(order, students, projects, lecturers);
        if r.Ok? {
          var projects' := r.value.0;
          forall q | q in order
            ensures q in projects && q in projects'
            ensures ProjectedFor(q, students, projects, lecturers) == Ok(projects'[q].list)
            ensures projects'[q].rank == RankTable(projects'[q].list)
          {
            ProjectedForFrame(q, students, projects, lecturers, projects1, lecturers1);
            assert q == p || q in order[1..];
          }
        }
      }
    }
  }
}
