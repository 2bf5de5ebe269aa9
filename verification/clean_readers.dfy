/** The readers that clean what they read: the stable-marriage dictionary
    reader of the main tree, and the stable-marriage file reader and both
    hospitals/residents readers of the FixesSMHR tree. Each builds the two
    sides as the plain readers do, then makes acceptability mutual in two
    passes and ranks each cleaned list by position. */
module CleanReaders {
  import opened Wrappers
  import opened Lists
  import opened Text
  import opened Readers
  import Cleaning
  import SMEngine
  import HREngine

  type Prefs = map<Id, seq<Id>>

  /** A side whose lists are ranked by position. */
  function Ranked(P: Prefs): (r: map<Id, Agent>)
    ensures r.Keys == P.Keys && forall k | k in P :: r[k] == AsRead(P[k])
  {
    map k | k in P :: AsRead(P[k])
  }

  /** The hospitals' lists. */
  function HospitalLists(H: map<Id, HREngine.Hospital>): (r: Prefs)
    ensures r.Keys == H.Keys && forall h | h in H :: r[h] == H[h].list
  {
    map h | h in H :: H[h].list
  }

  /** The hospitals with their cleaned lists, each ranked by position,
      capacities kept. */
  function Recapped(H: map<Id, HREngine.Hospital>, P: Prefs): (r: map<Id, HREngine.Hospital>)
    requires P.Keys == H.Keys
    ensures r.Keys == H.Keys
    ensures forall h | h in H :: r[h] == HREngine.Hospital(H[h].capacity, P[h], RankTable(P[h]))
  {
    map h | h in H :: HREngine.Hospital(H[h].capacity, P[h], RankTable(P[h]))
  }

  /** Both passes over two sides as read; an agent listed but absent from
      the other side raises KeyError. */
  function CleanRead(A: map<Id, Agent>, B: map<Id, Agent>): (r: Result<(map<Id, Agent>, map<Id, Agent>)>)
    ensures r.Ok? <==> Cleaning.Known(ListsOf(A), ListsOf(B)) && Cleaning.Known(ListsOf(B), ListsOf(A))
    ensures r.Err? ==> r.error == KeyError
    ensures r.Ok? ==> r.value.0.Keys == A.Keys && r.value.1.Keys == B.Keys
  {
    var c := Cleaning.Clean(ListsOf(A), ListsOf(B));
    if c.Err? then Err(KeyError)
    else Ok((Ranked(c.value.0), Ranked(c.value.1)))
  }

  // ---------------------------------------------------------------------
  // Stable marriage
  // ---------------------------------------------------------------------

  /** `stableMarriageProblem/dictionaryReader.py`: the `men` and `women`
      sections (an absent one reads as empty), then both passes. */
  function ReadSMDict(M: map<string, seq<string>>, W: map<string, seq<string>>): Result<(map<Id, Agent>, map<Id, Agent>)> {
    CleanRead(DictSide(M, "m", "w"), DictSide(W, "w", "m"))
  }

  /** The FixesSMHR `stableMarriageProblem/fileReader.py`: the file as the
      plain reader reads it, then both passes. */
  function ReadSMFileCleaned(file: seq<string>): Result<(map<Id, Agent>, map<Id, Agent>)> {
    var (men, women) :- ReadSMFile(file);
    CleanRead(men, women)
  }

  /** What the cleaning readers produce, as the engine's instance. */
  function SMInstance(men: map<Id, Agent>, women: map<Id, Agent>): SMEngine.Instance {
    SMEngine.Instance(ListsOf(men), ListsOf(women))
  }

  /** Ranking lists and taking them back gives the lists. */
  lemma ListsRanked(P: Prefs)
    ensures ListsOf(Ranked(P)) == P
  {
  }

  /** After cleaning, `w` is on `m`'s list exactly when `m` is on `w`'s,
      and exactly when both listed each other as read. */
  lemma CleanReadMutual(A: map<Id, Agent>, B: map<Id, Agent>)
    requires CleanRead(A, B).Ok?
    ensures var (A', B') := CleanRead(A, B).value;
      && (forall a, b | a in A' && b in B' :: b in A'[a].list <==> a in B'[b].list)
      && (forall a, b | a in A' && b in A'[a].list :: b in B' && b in A[a].list && a in B[b].list)
      && (forall b, a | b in B' && a in B'[b].list :: a in A' && a in B[b].list && b in A[a].list)
  {
    var c := Cleaning.Clean(ListsOf(A), ListsOf(B)).value;
    Cleaning.CleanSymmetric(ListsOf(A), ListsOf(B));
    ListsRanked(c.0);
    ListsRanked(c.1);
  }

  /** Cleaning keeps each list's order, and each cleaned list is ranked by
      position. */
  lemma CleanReadOrder(A: map<Id, Agent>, B: map<Id, Agent>)
    requires CleanRead(A, B).Ok?
    ensures var (A', B') := CleanRead(A, B).value;
      && (forall a | a in A' :: Cleaning.Subseq(A'[a].list, A[a].list) && A'[a].rank == RankTable(A'[a].list))
      && (forall b | b in B' :: Cleaning.Subseq(B'[b].list, B[b].list) && B'[b].rank == RankTable(B'[b].list))
  {
    Cleaning.CleanOrder(ListsOf(A), ListsOf(B));
  }

  /** Pairs listed on both sides survive the cleaning. */
  lemma CleanReadKeepsMutual(A: map<Id, Agent>, B: map<Id, Agent>, a: Id, b: Id)
    requires CleanRead(A, B).Ok?
    requires a in A && b in A[a].list && b in B && a in B[b].list
    ensures b in CleanRead(A, B).value.0[a].list && a in CleanRead(A, B).value.1[b].list
  {
    Cleaning.CleanKeepsMutual(ListsOf(A), ListsOf(B), a, b);
  }

  /** Reading what a cleaning reader produced cleans nothing more. */
  lemma CleanReadIdempotent(A: map<Id, Agent>, B: map<Id, Agent>)
    requires CleanRead(A, B).Ok?
    ensures var (A', B') := CleanRead(A, B).value; CleanRead(A', B') == Ok((A', B'))
  {
    var c := Cleaning.Clean(ListsOf(A), ListsOf(B)).value;
    Cleaning.CleanIdempotent(ListsOf(A), ListsOf(B));
    ListsRanked(c.0);
    ListsRanked(c.1);
  }

  /** Lists without repetitions, side by side. */
  ghost predicate NoRepeats(side: map<Id, Agent>) {
    forall k | k in side :: NoDup(side[k].list)
  }

  /** The cleaning readers hand the stable-marriage engine an instance it
      can run on: acceptability is mutual and no list repeats an agent,
      provided none did as read. */
  lemma CleanReadWellFormed(A: map<Id, Agent>, B: map<Id, Agent>)
    requires CleanRead(A, B).Ok? && NoRepeats(A) && NoRepeats(B)
    ensures SMEngine.WellFormed(SMInstance(CleanRead(A, B).value.0, CleanRead(A, B).value.1))
  {
    var c := Cleaning.Clean(ListsOf(A), ListsOf(B)).value;
    Cleaning.CleanSymmetric(ListsOf(A), ListsOf(B));
    Cleaning.CleanOrder(ListsOf(A), ListsOf(B));
    ListsRanked(c.0);
    ListsRanked(c.1);
  }

  /** Prefixing keeps a list free of repetitions. */
  lemma PrefixedNoDup(letter: string, ts: seq<string>)
    requires NoDup(ts)
    ensures NoDup(Prefixed(letter, ts))
  {
    PrefixInjective(letter);
    var r := Prefixed(letter, ts);
    forall i, j | 0 <= i < j < |r| ensures r[i] != r[j] {
      assert r[i] == letter + ts[i] && r[j] == letter + ts[j];
    }
  }

  /** A dictionary side whose lists have no repetitions reads into one. */
  lemma DictSideNoRepeats(D: map<string, seq<string>>, letter: string, prefix: string)
    requires forall k | k in D :: NoDup(D[k])
    ensures NoRepeats(DictSide(D, letter, prefix))
  {
    var r := DictSide(D, letter, prefix);
    forall x | x in r ensures NoDup(r[x].list) {
      var k :| k in D && x == letter + k;
      PrefixedNoDup(prefix, D[k]);
    }
  }

  /** The FixesSMHR file reader and the dictionary reader agree: the file a
      dictionary is written as, with any trailing lines, reads as the
      dictionary does. */
  lemma SMCleanedFileAgreesWithDict(M: map<string, seq<string>>, W: map<string, seq<string>>,
                                    mOrder: seq<string>, wOrder: seq<string>, extra: seq<string>)
    requires Enumerates(mOrder, M.Keys) && AllWords(M)
    requires Enumerates(wOrder, W.Keys) && AllWords(W)
    ensures ReadSMFileCleaned(SMText(M, W, mOrder, wOrder, extra)) == ReadSMDict(M, W)
  {
    SMFileRoundTrip(M, W, mOrder, wOrder, extra);
  }

  /** The one-sided instance: man 1 lists woman 1, who lists nobody. */
  function OneSidedMen(): map<string, seq<string>> { map["1" := ["1"]] }
  function OneSidedWomen(): map<string, seq<string>> { map["1" := []] }

  /** Man 1 as read: he lists woman 1. */
  function M1Listing(): map<Id, Agent> { map["m1" := AsRead(["w1"])] }

  /** Man 1 after cleaning: his list is empty. */
  function M1Alone(): map<Id, Agent> { map["m1" := AsRead([])] }

  /** Woman 1, who lists nobody. */
  function W1Alone(): map<Id, Agent> { map["w1" := AsRead([])] }

  /** A one-key dictionary side reads as one agent. */
  lemma SingletonSide(k: string, vs: seq<string>, letter: string, prefix: string)
    ensures DictSide(map[k := vs], letter, prefix) == map[letter + k := AsRead(Prefixed(prefix, vs))]
  {
    var r := DictSide(map[k := vs], letter, prefix);
    assert letter + k in r;
    forall x | x in r ensures x == letter + k {
      var j :| j in map[k := vs] && x == letter + j;
    }
  }

  /** The dictionary reader reads the men of the one-sided instance as they are listed. */
  lemma OneSidedMenRead()
    ensures DictSide(OneSidedMen(), "m", "w") == M1Listing()
  {
    SingletonSide("1", ["1"], "m", "w");
    assert "m" + "1" == "m1";
    assert Prefixed("w", ["1"]) == ["w1"] by { assert "w" + "1" == "w1"; }
  }

  /** The dictionary reader reads woman 1 with an empty list. */
  lemma OneSidedWomenRead()
    ensures DictSide(OneSidedWomen(), "w", "m") == W1Alone()
  {
    SingletonSide("1", [], "w", "m");
    assert "w" + "1" == "w1";
  }

  /** The file reader, which does not clean, keeps man 1's one-sided listing. */
  lemma OneSidedFile()
    ensures ReadSMFile(SMText(OneSidedMen(), OneSidedWomen(), ["1"], ["1"], [])) == Ok((M1Listing(), W1Alone()))
  {
    var M, W := OneSidedMen(), OneSidedWomen();
    assert IsWord("1") by { assert NotSpace("1"[0]); }
    assert Enumerates(["1"], M.Keys) && Enumerates(["1"], W.Keys);
    SMFileRoundTrip(M, W, ["1"], ["1"], []);
    OneSidedMenRead();
    OneSidedWomenRead();
  }

  /** The first pass empties man 1's list. */
  lemma OneSidedMenPass()
    ensures Cleaning.CleanSide(map["m1" := ["w1"]], map["w1" := []]) == Ok(map["m1" := []])
  {
    var A, B := map["m1" := ["w1"]], map["w1" := []];
    assert Cleaning.Known(A, B);
    var A' := Cleaning.CleanSide(A, B).value;
    assert "m1" !in B["w1"];
    assert A'.Keys == {"m1"};
    assert A' == map["m1" := []];
  }

  /** The second pass leaves woman 1's empty list empty. */
  lemma OneSidedWomenPass()
    ensures Cleaning.CleanSide(map["w1" := []], map["m1" := []]) == Ok(map["w1" := []])
  {
    assert Cleaning.Known(map["w1" := []], map["m1" := []]);
    var B' := Cleaning.CleanSide(map["w1" := []], map["m1" := []]).value;
    assert B'.Keys == {"w1"};
    assert B' == map["w1" := []];
  }

  /** A single agent's side and its list. */
  lemma SingletonLists(k: Id, list: seq<Id>)
    ensures ListsOf(map[k := AsRead(list)]) == map[k := list]
    ensures Ranked(map[k := list]) == map[k := AsRead(list)]
  {
  }

  /** Cleaning the one-sided instance drops man 1's listing and leaves woman 1 as she is. */
  lemma OneSidedCleaned()
    ensures CleanRead(M1Listing(), W1Alone()) == Ok((M1Alone(), W1Alone()))
  {
    SingletonLists("m1", ["w1"]);
    SingletonLists("m1", []);
    SingletonLists("w1", []);
    OneSidedMenPass();
    OneSidedWomenPass();
  }

  /** The main tree's stable-marriage file reader does not clean: on the
      file of the one-sided instance it keeps `w1` on `m1`'s list, while the
      dictionary reader drops it, and the instance it hands the engine is
      not mutual. */
  lemma SMFileKeepsOneSided()
    ensures ReadSMFile(SMText(OneSidedMen(), OneSidedWomen(), ["1"], ["1"], [])) == Ok((M1Listing(), W1Alone()))
    ensures ReadSMDict(OneSidedMen(), OneSidedWomen()) == Ok((M1Alone(), W1Alone()))
    ensures !SMEngine.WellFormed(SMInstance(M1Listing(), W1Alone()))
  {
    OneSidedFile();
    OneSidedMenRead();
    OneSidedWomenRead();
    OneSidedCleaned();
    OneSidedNotMutual();
  }

  /** The instance as read is not mutual: `m1` lists `w1`, who does not
      list him. */
  lemma OneSidedNotMutual()
    ensures !SMEngine.WellFormed(SMInstance(M1Listing(), W1Alone()))
  {
    SingletonLists("m1", ["w1"]);
    SingletonLists("w1", []);
    var I := SMInstance(M1Listing(), W1Alone());
    assert I.proposers == map["m1" := ["w1"]] && I.receivers == map["w1" := []];
    assert "m1" in I.proposers && "w1" in I.proposers["m1"] && "m1" !in I.receivers["w1"];
  }

  // ---------------------------------------------------------------------
  // Hospitals/residents
  // ---------------------------------------------------------------------

  /** Both passes over residents and hospitals, capacities kept. */
  function CleanHR(R: map<Id, Agent>, H: map<Id, HREngine.Hospital>)
    : (r: Result<(map<Id, Agent>, map<Id, HREngine.Hospital>)>)
    ensures r.Ok? <==> Cleaning.Known(ListsOf(R), HospitalLists(H)) && Cleaning.Known(HospitalLists(H), ListsOf(R))
    ensures r.Err? ==> r.error == KeyError
    ensures r.Ok? ==> r.value.0.Keys == R.Keys && r.value.1.Keys == H.Keys
  {
    var c := Cleaning.Clean(ListsOf(R), HospitalLists(H));
    if c.Err? then Err(KeyError)
    else Ok((Ranked(c.value.0), Recapped(H, c.value.1)))
  }

  /** The FixesSMHR `hospitalResidentsProblem/fileReader.py`. */
  function ReadHRFileCleaned(file: seq<string>): Result<(map<Id, Agent>, map<Id, HREngine.Hospital>)> {
    var (residents, hospitals) :- ReadHRFile(file);
    CleanHR(residents, hospitals)
  }

  /** The FixesSMHR `hospitalResidentsProblem/dictionaryReader.py`: a
      hospital entry missing `capacity` or `preferences` raises KeyError
      before any cleaning. */
  function ReadHRDictCleaned(R: map<string, seq<string>>, H: map<string, Entry>)
    : Result<(map<Id, Agent>, map<Id, HREngine.Hospital>)>
  {
    var (residents, hospitals) :- ReadHRTDict(R, H);
    CleanHR(residents, hospitals)
  }

  /** The instance a hospitals/residents reader hands the engine. */
  function HRInstance(R: map<Id, Agent>, H: map<Id, HREngine.Hospital>): HREngine.Instance {
    HREngine.Instance(ListsOf(R), H)
  }

  /** Taking back the lists of recapped hospitals gives the lists. */
  lemma ListsRecapped(H: map<Id, HREngine.Hospital>, P: Prefs)
    requires P.Keys == H.Keys
    ensures HospitalLists(Recapped(H, P)) == P
  {
  }

  /** After cleaning, `h` is on `r`'s list exactly when `r` is on `h`'s,
      and exactly when both listed each other as read. */
  lemma CleanHRMutual(R: map<Id, Agent>, H: map<Id, HREngine.Hospital>)
    requires CleanHR(R, H).Ok?
    ensures var (R', H') := CleanHR(R, H).value;
      && (forall r, h | r in R' && h in H' :: h in R'[r].list <==> r in H'[h].list)
      && (forall r, h | r in R' && h in R'[r].list :: h in H' && h in R[r].list && r in H[h].list)
      && (forall h, r | h in H' && r in H'[h].list :: r in R' && r in H[h].list && h in R[r].list)
  {
    var c := Cleaning.Clean(ListsOf(R), HospitalLists(H)).value;
    Cleaning.CleanSymmetric(ListsOf(R), HospitalLists(H));
    ListsRanked(c.0);
    ListsRecapped(H, c.1);
  }

  /** Capacities are kept; every list keeps its order and is ranked by
      position. */
  lemma CleanHROrder(R: map<Id, Agent>, H: map<Id, HREngine.Hospital>)
    requires CleanHR(R, H).Ok?
    ensures var (R', H') := CleanHR(R, H).value;
      && (forall r | r in R' :: Cleaning.Subseq(R'[r].list, R[r].list) && R'[r].rank == RankTable(R'[r].list))
      && (forall h | h in H' :: Cleaning.Subseq(H'[h].list, H[h].list) && H'[h].rank == RankTable(H'[h].list)
                               && H'[h].capacity == H[h].capacity)
  {
    Cleaning.CleanOrder(ListsOf(R), HospitalLists(H));
  }

  /** The cleaning readers hand the hospitals/residents engine an instance
      it can run on, provided no list repeats an agent as read and every
      capacity is at least 1. */
  lemma CleanHRWellFormed(R: map<Id, Agent>, H: map<Id, HREngine.Hospital>)
    requires CleanHR(R, H).Ok? && NoRepeats(R)
    requires forall h | h in H :: NoDup(H[h].list) && H[h].capacity >= 1
    ensures HREngine.WellFormed(HRInstance(CleanHR(R, H).value.0, CleanHR(R, H).value.1))
  {
    var c := Cleaning.Clean(ListsOf(R), HospitalLists(H)).value;
    Cleaning.CleanSymmetric(ListsOf(R), HospitalLists(H));
    Cleaning.CleanOrder(ListsOf(R), HospitalLists(H));
    ListsRanked(c.0);
    ListsRecapped(H, c.1);
  }

  /** The FixesSMHR hospitals/residents file and dictionary readers agree:
      the file a dictionary is written as, with any trailing lines, reads
      as the dictionary does. */
  lemma HRCleanedFileAgreesWithDict(R: map<string, seq<string>>, H: map<string, Entry>,
                                    rOrder: seq<string>, hOrder: seq<string>, extra: seq<string>)
    requires Enumerates(rOrder, R.Keys) && AllWords(R)
    requires Enumerates(hOrder, H.Keys) && HospitalWords(H)
    ensures ReadHRFileCleaned([HeaderText(|rOrder|, |hOrder|)] + SideLines(R, rOrder) + HospitalLines(H, hOrder) + extra)
      == ReadHRDictCleaned(R, H)
  {
    HRFileAgreesWithDict(R, H, rOrder, hOrder, extra);
  }
}
