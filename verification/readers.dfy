/** The readers that store preference lists as read, without cleaning:
    the file readers of the stable-marriage and hospitals/residents problems
    in the main tree, the hospitals/residents dictionary reader of the HRT
    tree, both stable-roommates readers and the SPA-P file reader.

    A file is the list of its lines (`read().splitlines()`); opening it is
    not modelled. A dictionary is a `map` from the `str` of each key to the
    `str` of each listed value: the readers only ever format keys and
    values into ids (`f"m{k}"`). */
module Readers {
  import opened Wrappers
  import opened Lists
  import opened Text
  import HREngine

  type Id = string

  /** An entry of the `men`, `women`, `residents` or `roommates`
      dictionary: the preference list and its rank table. */
  datatype Agent = Agent(list: seq<Id>, rank: map<Id, nat>)

  /** A list as read, with its rank table `{x: i for i, x in enumerate(list)}`. */
  function AsRead(list: seq<Id>): Agent {
    Agent(list, RankTable(list))
  }

  /** The preference lists of a side, without their rank tables. */
  function ListsOf(side: map<Id, Agent>): (r: map<Id, seq<Id>>)
    ensures r.Keys == side.Keys && forall k | k in side :: r[k] == side[k].list
  {
    map k | k in side :: side[k].list
  }

  /** `[f"{letter}{t}" for t in ts]`. */
  function Prefixed(letter: string, ts: seq<string>): (r: seq<Id>)
    ensures |r| == |ts|
    ensures forall i | 0 <= i < |ts| :: r[i] == letter + ts[i]
  {
    seq(|ts|, i requires 0 <= i < |ts| => letter + ts[i])
  }

  /** Different words get different ids under the same letter. */
  lemma PrefixInjective(letter: string)
    ensures forall a: string, b: string {:trigger letter + a, letter + b} :: letter + a == letter + b ==> a == b
  {
    forall a: string, b: string | letter + a == letter + b ensures a == b {
      assert a == (letter + a)[|letter|..];
      assert b == (letter + b)[|letter|..];
    }
  }

  // ---------------------------------------------------------------------
  // Headers and lines
  // ---------------------------------------------------------------------

  /** `map(int, ws)`, consumed: ValueError at the first word that is not an
      integer. */
  function ParseAll(ws: seq<string>): (r: Result<seq<int>>)
    ensures r.Ok? <==> forall i | 0 <= i < |ws| :: ParseInt(ws[i]).Some?
    ensures r.Ok? ==> |r.value| == |ws| && forall i | 0 <= i < |ws| :: r.value[i] == ParseInt(ws[i]).value
    ensures r.Err? ==> r.error == ValueError
  {
    if |ws| == 0 then Ok([])
    else
      var x := ParseInt(ws[0]);
      if x.None? then Err(ValueError)
      else
        var rest :- ParseAll(ws[1..]);
        Ok([x.value] + rest)
  }

  /** `a, b, ... = map(int, line.split())` with `k` names: ValueError
      unless the line holds exactly `k` integers. */
  function Header(line: string, k: nat): (r: Result<seq<int>>)
    ensures r.Ok? <==> |Words(line)| == k && forall i | 0 <= i < k :: ParseInt(Words(line)[i]).Some?
    ensures r.Ok? ==> |r.value| == k
    ensures r.Err? ==> r.error == ValueError
  {
    var ws := Words(line);
    if |ws| != k then Err(ValueError) else ParseAll(ws)
  }

  /** A header written as the counts separated by spaces reads back as
      those counts. */
  lemma HeaderRoundTrip(ns: seq<int>)
    ensures Header(Unwords(seq(|ns|, i requires 0 <= i < |ns| => Show(ns[i]))), |ns|) == Ok(ns)
  {
    var ws := seq(|ns|, i requires 0 <= i < |ns| => Show(ns[i]));
    forall i | 0 <= i < |ns| ensures IsWord(ws[i]) && ParseInt(ws[i]) == Some(ns[i]) {
      ParseShow(ns[i]);
    }
    WordsUnwords(ws);
    var r := ParseAll(ws);
    assert r.Ok?;
    assert r.value == ns;
  }

  /** The loop `for elt in lines: d[key] = value` over lines that `parse`
      turns into a key and a value; the first line that fails stops the
      loop with its error, and a later line overwrites an earlier one with
      the same key. */
  function ReadLines<V>(lines: seq<string>, parse: string -> Result<(Id, V)>): (r: Result<map<Id, V>>)
    decreases |lines|
  {
    if |lines| == 0 then Ok(map[])
    else
      var acc :- ReadLines(lines[..|lines| - 1], parse);
      var kv :- parse(lines[|lines| - 1]);
      Ok(acc[kv.0 := kv.1])
  }

  /** The loop succeeds exactly when every line parses. */
  lemma {:induction false} ReadLinesOk<V>(lines: seq<string>, parse: string -> Result<(Id, V)>)
    ensures ReadLines(lines, parse).Ok? <==> forall i | 0 <= i < |lines| :: parse(lines[i]).Ok?
    decreases |lines|
  {
    if |lines| > 0 {
      var init := lines[..|lines| - 1];
      assert forall i | 0 <= i < |init| :: init[i] == lines[i];
      ReadLinesOk(init, parse);
    }
  }

  /** When every line either parses or fails with `e`, the loop can only
      fail with `e`. */
  lemma {:induction false} ReadLinesErrorKind<V>(lines: seq<string>, parse: string -> Result<(Id, V)>, e: Error)
    requires forall i | 0 <= i < |lines| :: parse(lines[i]).Ok? || parse(lines[i]).error == e
    ensures ReadLines(lines, parse).Err? ==> ReadLines(lines, parse).error == e
    decreases |lines|
  {
    if |lines| > 0 {
      var init := lines[..|lines| - 1];
      assert forall i | 0 <= i < |init| :: init[i] == lines[i];
      ReadLinesErrorKind(init, parse, e);
    }
  }

  /** The loop fails with the error of the first line that fails. */
  lemma {:induction false} ReadLinesError<V>(lines: seq<string>, parse: string -> Result<(Id, V)>, i: nat)
    requires i < |lines| && parse(lines[i]).Err?
    requires forall j | 0 <= j < i :: parse(lines[j]).Ok?
    ensures ReadLines(lines, parse) == Err(parse(lines[i]).error)
    decreases |lines|
  {
    var init := lines[..|lines| - 1];
    assert forall j | 0 <= j < |init| :: init[j] == lines[j];
    if i < |lines| - 1 {
      ReadLinesError(init, parse, i);
    } else {
      ReadLinesOk(init, parse);
    }
  }

  /** Every line parses. */
  predicate AllParse<V>(lines: seq<string>, parse: string -> Result<(Id, V)>) {
    forall i | 0 <= i < |lines| :: parse(lines[i]).Ok?
  }

  /** The keys are exactly the keys of the lines. */
  lemma {:induction false} ReadLinesKeys<V>(lines: seq<string>, parse: string -> Result<(Id, V)>)
    requires AllParse(lines, parse)
    ensures ReadLines(lines, parse).Ok?
    ensures forall k :: k in ReadLines(lines, parse).value <==>
      exists i | 0 <= i < |lines| :: parse(lines[i]).value.0 == k
    decreases |lines|
  {
    ReadLinesOk(lines, parse);
    if |lines| > 0 {
      var last := |lines| - 1;
      var init := lines[..last];
      assert forall j | 0 <= j < |init| :: init[j] == lines[j];
      ReadLinesKeys(init, parse);
      forall k ensures k in ReadLines(lines, parse).value <==> exists i | 0 <= i < |lines| :: parse(lines[i]).value.0 == k {
        if k == parse(lines[last]).value.0 {
          assert parse(lines[last]).value.0 == k;
        } else if k in ReadLines(init, parse).value {
          var i :| 0 <= i < |init| && parse(init[i]).value.0 == k;
          assert parse(lines[i]).value.0 == k;
        }
      }
    }
  }

  /** A key takes the value of the last line that carries it. */
  lemma {:induction false} ReadLinesLast<V>(lines: seq<string>, parse: string -> Result<(Id, V)>, i: nat)
    requires AllParse(lines, parse) && i < |lines|
    requires forall j | i < j < |lines| :: parse(lines[j]).value.0 != parse(lines[i]).value.0
    ensures ReadLines(lines, parse).Ok?
    ensures parse(lines[i]).value.0 in ReadLines(lines, parse).value
    ensures ReadLines(lines, parse).value[parse(lines[i]).value.0] == parse(lines[i]).value.1
    decreases |lines|
  {
    ReadLinesOk(lines, parse);
    var last := |lines| - 1;
    var init := lines[..last];
    assert forall j | 0 <= j < |init| :: init[j] == lines[j];
    ReadLinesOk(init, parse);
    if i < last {
      ReadLinesLast(init, parse, i);
    }
  }

  /** The lines a dictionary is written as: one per key, in `order`. */
  function LinesOf(order: seq<string>, line: string -> string): (r: seq<string>)
    ensures |r| == |order| && forall i | 0 <= i < |order| :: r[i] == line(order[i])
  {
    seq(|order|, i requires 0 <= i < |order| => line(order[i]))
  }

  /** `m` holds exactly the keys' ids, each with its key's value. */
  ghost predicate Tabulates<V>(m: map<Id, V>, keys: seq<string>, key: string -> Id, val: string -> V) {
    && (forall k | k in keys :: key(k) in m && m[key(k)] == val(k))
    && (forall x | x in m :: exists k | k in keys :: x == key(k))
  }

  /** Two maps that tabulate the same keys the same way are equal. */
  lemma TabulatesUnique<V>(m1: map<Id, V>, m2: map<Id, V>, keys: seq<string>, key: string -> Id, val: string -> V)
    requires Tabulates(m1, keys, key, val) && Tabulates(m2, keys, key, val)
    ensures m1 == m2
  {
    assert forall x | x in m1 :: x in m2 && m1[x] == m2[x];
    assert forall x | x in m2 :: x in m1;
  }

  /** One more line read by the loop. */
  lemma ReadLinesSnoc<V>(lines: seq<string>, parse: string -> Result<(Id, V)>)
    requires |lines| > 0
    requires ReadLines(lines[..|lines| - 1], parse).Ok? && parse(lines[|lines| - 1]).Ok?
    ensures ReadLines(lines, parse)
      == Ok(ReadLines(lines[..|lines| - 1], parse).value[parse(lines[|lines| - 1]).value.0 := parse(lines[|lines| - 1]).value.1])
  {
  }

  /** A new key's entry added to a tabulation. */
  lemma TabulatesSnoc<V>(m: map<Id, V>, init: seq<string>, o: string, key: string -> Id, val: string -> V)
    requires Tabulates(m, init, key, val)
    requires forall k | k in init :: key(k) != key(o)
    ensures Tabulates(m[key(o) := val(o)], init + [o], key, val)
  {
    var keys := init + [o];
    var m' := m[key(o) := val(o)];
    forall x | x in m' ensures exists k | k in keys :: x == key(k) {
      if x == key(o) {
        assert o in keys;
      } else {
        var k :| k in init && x == key(k);
        assert k in keys;
      }
    }
  }

  /** Reading the lines a dictionary is written as: when every key's line
      parses to that key's id and value, and different keys get different
      ids, the loop builds the dictionary of all keys. */
  lemma {:induction false} ReadLinesOf<V>(order: seq<string>, line: string -> string, parse: string -> Result<(Id, V)>,
                                          key: string -> Id, val: string -> V)
    requires forall k | k in order :: parse(line(k)) == Ok((key(k), val(k)))
    requires forall a, b | a in order && b in order && key(a) == key(b) :: a == b
    requires NoDup(order)
    ensures ReadLines(LinesOf(order, line), parse).Ok?
    ensures Tabulates(ReadLines(LinesOf(order, line), parse).value, order, key, val)
    decreases |order|
  {
    var lines := LinesOf(order, line);
    if |order| > 0 {
      var last := |order| - 1;
      var init := order[..last];
      var o := order[last];
      assert order == init + [o];
      assert lines[..last] == LinesOf(init, line);
      NoDupStep(order);
      ReadLinesOf(init, line, parse, key, val);
      ReadLinesSnoc(lines, parse);
      assert forall k | k in init :: k != o;
      TabulatesSnoc(ReadLines(LinesOf(init, line), parse).value, init, o, key, val);
    }
  }

  /** A line `id x1 x2 ...` of one side: the id with the side's letter, the
      preferences with the other side's letter, in order and ranked by
      position; an empty line has no `entry[0]` (IndexError). */
  function AgentLine(letter: string, prefix: string): string -> Result<(Id, Agent)> {
    line =>
      var e := Words(line);
      if |e| == 0 then Err(IndexError)
      else Ok((letter + e[0], AsRead(Prefixed(prefix, e[1..]))))
  }

  /** A hospital line `id capacity r1 r2 ...`: `int(entry[1])` fails with
      IndexError on a line of one word and ValueError on a non-integer. */
  function HospitalLine(line: string): Result<(Id, HREngine.Hospital)> {
    var e := Words(line);
    if |e| == 0 then Err(IndexError)
    else if |e| < 2 then Err(IndexError)
    else if ParseInt(e[1]).None? then Err(ValueError)
    else
      var list := Prefixed("r", e[2..]);
      Ok(("h" + e[0], HREngine.Hospital(ParseInt(e[1]).value, list, RankTable(list))))
  }

  /** The line an agent with key `k` and list `vs` is written as. */
  function AgentText(k: string, vs: seq<string>): string {
    Unwords([k] + vs)
  }

  /** What the line of an agent reads back as. */
  lemma AgentLineRoundTrip(letter: string, prefix: string, k: string, vs: seq<string>)
    requires IsWord(k) && forall i | 0 <= i < |vs| :: IsWord(vs[i])
    ensures AgentLine(letter, prefix)(AgentText(k, vs)) == Ok((letter + k, AsRead(Prefixed(prefix, vs))))
  {
    WordsUnwords([k] + vs);
    assert ([k] + vs)[1..] == vs;
  }

  /** Every word of every list of the dictionary is a word. */
  ghost predicate AllWords(D: map<string, seq<string>>) {
    && (forall k | k in D :: IsWord(k))
    && (forall k, i | k in D && 0 <= i < |D[k]| :: IsWord(D[k][i]))
  }

  // ---------------------------------------------------------------------
  // Dictionary readers without cleaning
  // ---------------------------------------------------------------------

  /** One side of a dictionary reader: key `k` becomes `letter + k`, each
      listed value gets `prefix`, in order, ranked by position. */
  function DictSide(D: map<string, seq<string>>, letter: string, prefix: string): (r: map<Id, Agent>)
    ensures forall k | k in D :: letter + k in r && r[letter + k] == AsRead(Prefixed(prefix, D[k]))
    ensures forall x | x in r :: exists k | k in D :: x == letter + k
  {
    PrefixInjective(letter);
    map k | k in D :: letter + k := AsRead(Prefixed(prefix, D[k]))
  }

  /** Writing a side of a dictionary as lines, one per key, and reading
      them back with the file reader's loop gives the dictionary reader's
      side. */
  lemma SideRoundTrip(D: map<string, seq<string>>, order: seq<string>, letter: string, prefix: string)
    requires Enumerates(order, D.Keys) && AllWords(D)
    ensures ReadLines(LinesOf(order, k => AgentText(k, if k in D then D[k] else [])), AgentLine(letter, prefix))
      == Ok(DictSide(D, letter, prefix))
  {
    var line := k => AgentText(k, if k in D then D[k] else []);
    var key := k => letter + k;
    var val := k => AsRead(Prefixed(prefix, if k in D then D[k] else []));
    forall k | k in order ensures AgentLine(letter, prefix)(line(k)) == Ok((key(k), val(k))) {
      AgentLineRoundTrip(letter, prefix, k, D[k]);
    }
    PrefixInjective(letter);
    ReadLinesOf(order, line, AgentLine(letter, prefix), key, val);
    TabulatesUnique(ReadLines(LinesOf(order, line), AgentLine(letter, prefix)).value, DictSide(D, letter, prefix), order, key, val);
  }

  // ---------------------------------------------------------------------
  // Stable roommates
  // ---------------------------------------------------------------------

  /** `stableRoommates/fileReader.py`: every line is a roommate `r<id>`
      with its list of `r<id>`s. */
  function ReadSRFile(file: seq<string>): (r: Result<map<Id, Agent>>)
    ensures r.Ok? <==> forall i | 0 <= i < |file| :: |Words(file[i])| > 0
    ensures r.Err? ==> r.error == IndexError
  {
    ReadLinesOk(file, AgentLine("r", "r"));
    ReadLinesErrorKind(file, AgentLine("r", "r"), IndexError);
    ReadLines(file, AgentLine("r", "r"))
  }

  /** `stableRoommates/dictionaryReader.py`. */
  function ReadSRDict(D: map<string, seq<string>>): map<Id, Agent> {
    DictSide(D, "r", "r")
  }

  /** A later line with the same id overwrites an earlier one. */
  lemma SRLaterLineWins(file: seq<string>, i: nat)
    requires ReadSRFile(file).Ok? && i < |file|
    requires forall j | i < j < |file| :: Words(file[j])[0] != Words(file[i])[0]
    ensures var e := Words(file[i]);
      "r" + e[0] in ReadSRFile(file).value && ReadSRFile(file).value["r" + e[0]] == AsRead(Prefixed("r", e[1..]))
  {
    assert AllParse(file, AgentLine("r", "r"));
    forall j | i < j < |file|
      ensures AgentLine("r", "r")(file[j]).value.0 != AgentLine("r", "r")(file[i]).value.0
    {
      PrefixInjective("r");
    }
    ReadLinesLast(file, AgentLine("r", "r"), i);
  }

  /** The two roommates readers agree: a file with one line per key of
      the dictionary reads as the dictionary does. */
  lemma SRFileAgreesWithDict(D: map<string, seq<string>>, order: seq<string>)
    requires Enumerates(order, D.Keys) && AllWords(D)
    ensures ReadSRFile(LinesOf(order, k => AgentText(k, if k in D then D[k] else []))) == Ok(ReadSRDict(D))
  {
    SideRoundTrip(D, order, "r", "r");
  }

  // ---------------------------------------------------------------------
  // Stable marriage and hospitals/residents files
  // ---------------------------------------------------------------------

  /** The shape shared by the stable-marriage and hospitals/residents file
      readers: a header `n1 n2`, then lines `1..n1` for the first side and
      `n1+1..n1+n2` for the second, sliced as Python slices them; later
      lines are ignored. An empty file has no `file[0]` (IndexError). */
  function ReadTwoSections<A, B>(file: seq<string>, pa: string -> Result<(Id, A)>, pb: string -> Result<(Id, B)>)
    : (r: Result<(map<Id, A>, map<Id, B>)>)
    ensures |file| == 0 ==> r == Err(IndexError)
    ensures |file| > 0 && Header(file[0], 2).Err? ==> r == Err(ValueError)
  {
    if |file| == 0 then Err(IndexError)
    else
      var h :- Header(file[0], 2);
      Sections(file, h[0], h[1], pa, pb)
  }

  /** The two sections of a file whose header gave `n1` and `n2`. */
  function Sections<A, B>(file: seq<string>, n1: int, n2: int, pa: string -> Result<(Id, A)>, pb: string -> Result<(Id, B)>)
    : (r: Result<(map<Id, A>, map<Id, B>)>)
  {
    var first :- ReadLines(PySlice(file, 1, n1 + 1), pa);
    var second :- ReadLines(PySlice(file, n1 + 1, n1 + n2 + 1), pb);
    Ok((first, second))
  }

  /** The header line of a file with sections of `n1` and `n2` lines. */
  function HeaderText(n1: int, n2: int): string {
    Unwords([Show(n1), Show(n2)])
  }

  /** The header line reads back as the two lengths. */
  lemma HeaderTextRoundTrip(n1: int, n2: int)
    ensures Header(HeaderText(n1, n2), 2) == Ok([n1, n2])
  {
    HeaderRoundTrip([n1, n2]);
    assert seq(2, i requires 0 <= i < 2 => Show([n1, n2][i])) == [Show(n1), Show(n2)];
  }

  /** The two sections of a written file, as the reader slices them. */
  lemma SectionSlices(h: string, la: seq<string>, lb: seq<string>, extra: seq<string>)
    ensures PySlice([h] + la + lb + extra, 1, |la| + 1) == la
    ensures PySlice([h] + la + lb + extra, |la| + 1, |la| + |lb| + 1) == lb
  {
    var file := [h] + la + lb + extra;
    assert file[1..|la| + 1] == la;
    assert file[|la| + 1..|la| + |lb| + 1] == lb;
  }

  /** A file made of a header giving the sections' lengths, the two
      sections and any further lines reads each section with its own
      line parser. */
  lemma TwoSectionsRoundTrip<A, B>(la: seq<string>, lb: seq<string>, extra: seq<string>,
                                   pa: string -> Result<(Id, A)>, pb: string -> Result<(Id, B)>)
    requires ReadLines(la, pa).Ok? && ReadLines(lb, pb).Ok?
    ensures ReadTwoSections([HeaderText(|la|, |lb|)] + la + lb + extra, pa, pb)
      == Ok((ReadLines(la, pa).value, ReadLines(lb, pb).value))
  {
    HeaderTextRoundTrip(|la|, |lb|);
    SectionsAfter(HeaderText(|la|, |lb|), la, lb, extra, pa, pb);
  }

  /** A file whose first line is a header counting `la` and `lb` is read
      as those two sections, whatever follows them. */
  lemma SectionsAfter<A, B>(hd: string, la: seq<string>, lb: seq<string>, extra: seq<string>,
                            pa: string -> Result<(Id, A)>, pb: string -> Result<(Id, B)>)
    requires Header(hd, 2) == Ok([|la|, |lb|])
    requires ReadLines(la, pa).Ok? && ReadLines(lb, pb).Ok?
    ensures ReadTwoSections([hd] + la + lb + extra, pa, pb)
      == Ok((ReadLines(la, pa).value, ReadLines(lb, pb).value))
  {
    var file := [hd] + la + lb + extra;
    assert file[0] == hd;
    ReadTwoSectionsAt(file, [|la|, |lb|], pa, pb);
    SectionSlices(hd, la, lb, extra);
    SectionsOf(file, |la|, |lb|, la, lb, pa, pb);
  }

  /** Sections whose slices are `la` and `lb` are read as those lines. */
  lemma SectionsOf<A, B>(file: seq<string>, n1: int, n2: int, la: seq<string>, lb: seq<string>,
                         pa: string -> Result<(Id, A)>, pb: string -> Result<(Id, B)>)
    requires PySlice(file, 1, n1 + 1) == la && PySlice(file, n1 + 1, n1 + n2 + 1) == lb
    requires ReadLines(la, pa).Ok? && ReadLines(lb, pb).Ok?
    ensures Sections(file, n1, n2, pa, pb) == Ok((ReadLines(la, pa).value, ReadLines(lb, pb).value))
  {
  }

  /** A file whose header reads as `h` is read as the sections `h` counts. */
  lemma ReadTwoSectionsAt<A, B>(file: seq<string>, h: seq<int>, pa: string -> Result<(Id, A)>, pb: string -> Result<(Id, B)>)
    requires |file| > 0 && Header(file[0], 2) == Ok(h)
    ensures ReadTwoSections(file, pa, pb) == Sections(file, h[0], h[1], pa, pb)
  {
  }

  /** `stableMarriageProblem/fileReader.py`: men `m<id>` listing `w<id>`s,
      then women `w<id>` listing `m<id>`s, kept as read. */
  function ReadSMFile(file: seq<string>): Result<(map<Id, Agent>, map<Id, Agent>)> {
    ReadTwoSections(file, AgentLine("m", "w"), AgentLine("w", "m"))
  }

  /** The lines a side of a dictionary is written as. */
  function SideLines(D: map<string, seq<string>>, order: seq<string>): seq<string> {
    LinesOf(order, k => AgentText(k, if k in D then D[k] else []))
  }

  /** The file a stable-marriage dictionary is written as, with any
      trailing lines. */
  function SMText(M: map<string, seq<string>>, W: map<string, seq<string>>, mOrder: seq<string>, wOrder: seq<string>,
                  extra: seq<string>): seq<string> {
    [HeaderText(|mOrder|, |wOrder|)] + SideLines(M, mOrder) + SideLines(W, wOrder) + extra
  }

  /** The file reader reads a written dictionary as each side read on its
      own, whatever follows the two sections. */
  lemma SMFileRoundTrip(M: map<string, seq<string>>, W: map<string, seq<string>>, mOrder: seq<string>, wOrder: seq<string>,
                        extra: seq<string>)
    requires Enumerates(mOrder, M.Keys) && AllWords(M)
    requires Enumerates(wOrder, W.Keys) && AllWords(W)
    ensures ReadSMFile(SMText(M, W, mOrder, wOrder, extra)) == Ok((DictSide(M, "m", "w"), DictSide(W, "w", "m")))
  {
    SideRoundTrip(M, mOrder, "m", "w");
    SideRoundTrip(W, wOrder, "w", "m");
    TwoSectionsRoundTrip(SideLines(M, mOrder), SideLines(W, wOrder), extra, AgentLine("m", "w"), AgentLine("w", "m"));
  }

  /** The line a hospital with key `k`, capacity `c` and list `vs` is
      written as. */
  function HospitalText(k: string, c: int, vs: seq<string>): string {
    Unwords([k, Show(c)] + vs)
  }

  /** What the line of a hospital reads back as. */
  lemma HospitalLineRoundTrip(k: string, c: int, vs: seq<string>)
    requires IsWord(k) && forall i | 0 <= i < |vs| :: IsWord(vs[i])
    ensures HospitalLine(HospitalText(k, c, vs)) == Ok(("h" + k, AsHospital(Entry(Some(c), Some(vs)))))
  {
    ParseShow(c);
    WordsUnwords([k, Show(c)] + vs);
    assert ([k, Show(c)] + vs)[2..] == vs;
  }

  /** `hospitalResidentsProblem/fileReader.py`: residents `r<id>` listing
      `h<id>`s, then hospitals `h<id>` with a capacity and a list of
      `r<id>`s, kept as read. */
  function ReadHRFile(file: seq<string>): Result<(map<Id, Agent>, map<Id, HREngine.Hospital>)> {
    ReadTwoSections(file, AgentLine("r", "h"), HospitalLine)
  }

  // ---------------------------------------------------------------------
  // The hospitals/residents dictionary reader of the HRT tree
  // ---------------------------------------------------------------------

  /** A dictionary entry with `capacity` and `preferences` keys (a hospital,
      or an SPA lecturer); either key may be missing. */
  datatype Entry = Entry(capacity: Option<int>, preferences: Option<seq<string>>)

  /** A hospital entry with both keys. */
  predicate Complete(e: Entry) {
    e.capacity.Some? && e.preferences.Some?
  }

  /** The hospital a complete entry describes. */
  function AsHospital(e: Entry): HREngine.Hospital
    requires Complete(e)
  {
    var list := Prefixed("r", e.preferences.value);
    HREngine.Hospital(e.capacity.value, list, RankTable(list))
  }

  /** The `hospitals` section: `v["capacity"]` and `v["preferences"]`
      raise KeyError when missing. */
  function HospitalsSide(H: map<string, Entry>): (r: Result<map<Id, HREngine.Hospital>>)
    ensures r.Ok? <==> forall k | k in H :: Complete(H[k])
    ensures r.Err? ==> r.error == KeyError
    ensures r.Ok? ==> forall k | k in H :: "h" + k in r.value && r.value["h" + k] == AsHospital(H[k])
    ensures r.Ok? ==> forall x | x in r.value :: exists k | k in H :: x == "h" + k
  {
    if forall k | k in H :: Complete(H[k]) then
      PrefixInjective("h");
      Ok(map k | k in H :: "h" + k := AsHospital(H[k]))
    else Err(KeyError)
  }

  /** `hospitalsResidentsProblem/dictionaryReader.py` of the HRT tree; an
      absent section reads as an empty one. */
  function ReadHRTDict(R: map<string, seq<string>>, H: map<string, Entry>)
    : (r: Result<(map<Id, Agent>, map<Id, HREngine.Hospital>)>)
    ensures r.Ok? <==> forall k | k in H :: Complete(H[k])
  {
    var hospitals :- HospitalsSide(H);
    Ok((DictSide(R, "r", "h"), hospitals))
  }

  /** The lines the `hospitals` section is written as. */
  function HospitalLines(H: map<string, Entry>, order: seq<string>): seq<string> {
    LinesOf(order, k => if k in H && Complete(H[k]) then HospitalText(k, H[k].capacity.value, H[k].preferences.value) else "")
  }

  /** Every key and every listed value of the `hospitals` section is a
      word. */
  ghost predicate HospitalWords(H: map<string, Entry>) {
    forall k | k in H :: IsWord(k) && Complete(H[k]) &&
      forall i | 0 <= i < |H[k].preferences.value| :: IsWord(H[k].preferences.value[i])
  }

  /** Writing the hospitals as lines and reading them back gives the
      dictionary reader's hospitals. */
  lemma HospitalsRoundTrip(H: map<string, Entry>, order: seq<string>)
    requires Enumerates(order, H.Keys) && HospitalWords(H)
    ensures ReadLines(HospitalLines(H, order), HospitalLine) == HospitalsSide(H)
  {
    var line := k => if k in H && Complete(H[k]) then HospitalText(k, H[k].capacity.value, H[k].preferences.value) else "";
    var key := k => "h" + k;
    var val := k => if k in H && Complete(H[k]) then AsHospital(H[k]) else HREngine.Hospital(0, [], map[]);
    forall k | k in order ensures HospitalLine(line(k)) == Ok((key(k), val(k))) {
      HospitalLineRoundTrip(k, H[k].capacity.value, H[k].preferences.value);
    }
    PrefixInjective("h");
    ReadLinesOf(order, line, HospitalLine, key, val);
    TabulatesUnique(ReadLines(HospitalLines(H, order), HospitalLine).value, HospitalsSide(H).value, order, key, val);
  }

  /** The hospitals/residents file and dictionary readers agree: the file
      a dictionary is written as, with any trailing lines, reads as the
      dictionary does. */
  lemma HRFileAgreesWithDict(R: map<string, seq<string>>, H: map<string, Entry>,
                             rOrder: seq<string>, hOrder: seq<string>, extra: seq<string>)
    requires Enumerates(rOrder, R.Keys) && AllWords(R)
    requires Enumerates(hOrder, H.Keys) && HospitalWords(H)
    ensures ReadHRFile([HeaderText(|rOrder|, |hOrder|)] + SideLines(R, rOrder) + HospitalLines(H, hOrder) + extra)
      == ReadHRTDict(R, H)
  {
    SideRoundTrip(R, rOrder, "r", "h");
    HospitalsRoundTrip(H, hOrder);
    TwoSectionsRoundTrip(SideLines(R, rOrder), HospitalLines(H, hOrder), extra, AgentLine("r", "h"), HospitalLine);
  }

  // ---------------------------------------------------------------------
  // SPA-P
  // ---------------------------------------------------------------------

  /** A student: the project list, and each listed project mapped to 0
      (not assigned). */
  datatype PStudent = PStudent(list: seq<Id>, alloc: map<Id, int>)

  /** A project: capacity, lecturer, students assigned. */
  datatype PProject = PProject(capacity: int, lecturer: Id, count: int)

  /** A lecturer: capacity, project list, students assigned, worst
      project so far. */
  datatype PLecturer = PLecturer(capacity: int, list: seq<Id>, count: int, worst: Option<Id>)

  /** `{f'p{i}': 0 for i in ts}`. */
  function Unassigned(ts: seq<string>): (r: map<Id, int>)
    ensures r.Keys == Elems(Prefixed("p", ts))
    ensures forall p | p in r :: r[p] == 0
  {
    map p | p in Elems(Prefixed("p", ts)) :: 0
  }

  /** A student line `id p1 p2 ...`. */
  function StudentLine(line: string): (r: Result<(Id, PStudent)>)
    ensures r.Ok? <==> |Words(line)| > 0
    ensures r.Err? ==> r.error == IndexError
    ensures r.Ok? ==> r.value.0 == "s" + Words(line)[0] && r.value.1.list == Prefixed("p", Words(line)[1..])
  {
    var e := Words(line);
    if |e| == 0 then Err(IndexError)
    else Ok(("s" + e[0], PStudent(Prefixed("p", e[1..]), Unassigned(e[1..]))))
  }

  /** A project line `id capacity lecturer`: the value is built before the
      key, so `int(line[1])` fails first (IndexError on fewer than two
      words, ValueError on a non-integer), then `line[2]` (IndexError). */
  function ProjectLine(line: string): (r: Result<(Id, PProject)>)
    ensures r.Ok? <==> |Words(line)| >= 3 && ParseInt(Words(line)[1]).Some?
    ensures r.Err? && |Words(line)| >= 2 && ParseInt(Words(line)[1]).None? ==> r.error == ValueError
    ensures r.Err? && (|Words(line)| < 2 || ParseInt(Words(line)[1]).Some?) ==> r.error == IndexError
    ensures r.Ok? ==> var e := Words(line);
      r.value == ("p" + e[0], PProject(ParseInt(e[1]).value, "l" + e[2], 0))
  {
    var e := Words(line);
    if |e| < 2 then Err(IndexError)
    else if ParseInt(e[1]).None? then Err(ValueError)
    else if |e| < 3 then Err(IndexError)
    else Ok(("p" + e[0], PProject(ParseInt(e[1]).value, "l" + e[2], 0)))
  }

  /** A lecturer line `id capacity p1 p2 ...`. */
  function LecturerLine(line: string): (r: Result<(Id, PLecturer)>)
    ensures r.Ok? <==> |Words(line)| >= 2 && ParseInt(Words(line)[1]).Some?
    ensures r.Err? ==> r.error == (if |Words(line)| < 2 then IndexError else ValueError)
    ensures r.Ok? ==> var e := Words(line);
      r.value == ("l" + e[0], PLecturer(ParseInt(e[1]).value, Prefixed("p", e[2..]), 0, None))
  {
    var e := Words(line);
    if |e| < 2 then Err(IndexError)
    else if ParseInt(e[1]).None? then Err(ValueError)
    else Ok(("l" + e[0], PLecturer(ParseInt(e[1]).value, Prefixed("p", e[2..]), 0, None)))
  }

  /** What the SPA-P file reader builds. */
  datatype PInstance = PInstance(students: map<Id, PStudent>, projects: map<Id, PProject>, lecturers: map<Id, PLecturer>)

  /** `SPA_P/fileReader.py`: a header of three integers (students,
      projects, and a lecturer count that is not used), then the students,
      the projects, and every remaining line as a lecturer. */
  function ReadSPAP(file: seq<string>): (r: Result<PInstance>)
    ensures |file| == 0 ==> r == Err(IndexError)
    ensures |file| > 0 && Header(file[0], 3).Err? ==> r == Err(ValueError)
  {
    if |file| == 0 then Err(IndexError)
    else
      var h :- Header(file[0], 3);
      PSections(file, h[0], h[1])
  }

  /** The three sections of a SPA-P file whose header gave `n1` students
      and `n2` projects. */
  function PSections(file: seq<string>, n1: int, n2: int): (r: Result<PInstance>)
    ensures r.Ok? ==>
      && ReadLines(PySlice(file, 1, n1 + 1), StudentLine) == Ok(r.value.students)
      && ReadLines(PySlice(file, n1 + 1, n1 + n2 + 1), ProjectLine) == Ok(r.value.projects)
      && ReadLines(PySlice(file, n1 + n2 + 1, |file|), LecturerLine) == Ok(r.value.lecturers)
  {
    var students :- ReadLines(PySlice(file, 1, n1 + 1), StudentLine);
    var projects :- ReadLines(PySlice(file, n1 + 1, n1 + n2 + 1), ProjectLine);
    var lecturers :- ReadLines(PySlice(file, n1 + n2 + 1, |file|), LecturerLine);
    Ok(PInstance(students, projects, lecturers))
  }

  /** Every value of a map built by the loop is the value of one of its
      lines. */
  lemma {:induction false} ReadLinesValues<V>(lines: seq<string>, parse: string -> Result<(Id, V)>, x: Id)
    requires ReadLines(lines, parse).Ok? && x in ReadLines(lines, parse).value
    ensures exists i | 0 <= i < |lines| :: parse(lines[i]) == Ok((x, ReadLines(lines, parse).value[x]))
    decreases |lines|
  {
    var last := |lines| - 1;
    var init := lines[..last];
    assert forall j | 0 <= j < |init| :: init[j] == lines[j];
    if x == parse(lines[last]).value.0 {
      assert parse(lines[last]) == Ok((x, ReadLines(lines, parse).value[x]));
    } else {
      ReadLinesValues(init, parse, x);
      var i :| 0 <= i < |init| && parse(init[i]) == Ok((x, ReadLines(init, parse).value[x]));
      assert parse(lines[i]) == Ok((x, ReadLines(lines, parse).value[x]));
    }
  }

  /** Students as read have nothing assigned: each assignment table holds
      exactly the listed projects, each mapped to 0. */
  lemma StudentsUnassigned(lines: seq<string>)
    requires ReadLines(lines, StudentLine).Ok?
    ensures var m := ReadLines(lines, StudentLine).value;
      forall s | s in m :: m[s].alloc.Keys == Elems(m[s].list) && forall p | p in m[s].alloc :: m[s].alloc[p] == 0
  {
    var m := ReadLines(lines, StudentLine).value;
    forall s | s in m ensures m[s].alloc.Keys == Elems(m[s].list) && forall p | p in m[s].alloc :: m[s].alloc[p] == 0 {
      ReadLinesValues(lines, StudentLine, s);
    }
  }

  /** Projects as read have no student assigned. */
  lemma ProjectsUnassigned(lines: seq<string>)
    requires ReadLines(lines, ProjectLine).Ok?
    ensures var m := ReadLines(lines, ProjectLine).value; forall p | p in m :: m[p].count == 0
  {
    var m := ReadLines(lines, ProjectLine).value;
    forall p | p in m ensures m[p].count == 0 {
      ReadLinesValues(lines, ProjectLine, p);
    }
  }

  /** Lecturers as read have no student assigned and no worst project. */
  lemma LecturersUnassigned(lines: seq<string>)
    requires ReadLines(lines, LecturerLine).Ok?
    ensures var m := ReadLines(lines, LecturerLine).value; forall l | l in m :: m[l].count == 0 && m[l].worst == None
  {
    var m := ReadLines(lines, LecturerLine).value;
    forall l | l in m ensures m[l].count == 0 && m[l].worst == None {
      ReadLinesValues(lines, LecturerLine, l);
    }
  }

  /** Nobody is assigned yet: every student's assignment table holds
      exactly the listed projects, each mapped to 0; every project and
      lecturer count is 0 and no lecturer has a worst project yet. */
  ghost predicate NobodyAssigned(I: PInstance) {
    && (forall s | s in I.students :: I.students[s].alloc.Keys == Elems(I.students[s].list)
                                     && forall p | p in I.students[s].alloc :: I.students[s].alloc[p] == 0)
    && (forall p | p in I.projects :: I.projects[p].count == 0)
    && (forall l | l in I.lecturers :: I.lecturers[l].count == 0 && I.lecturers[l].worst == None)
  }

  /** The SPA-P reader starts from nobody assigned. */
  lemma SPAPUnassigned(file: seq<string>)
    requires ReadSPAP(file).Ok?
    ensures NobodyAssigned(ReadSPAP(file).value)
  {
    var h := Header(file[0], 3).value;
    assert ReadSPAP(file) == PSections(file, h[0], h[1]);
    SectionsUnassigned(file, h[0], h[1]);
  }

  /** Three sections read without error read as nobody assigned. */
  lemma SectionsUnassigned(file: seq<string>, n1: int, n2: int)
    requires PSections(file, n1, n2).Ok?
    ensures NobodyAssigned(PSections(file, n1, n2).value)
  {
    var I := PSections(file, n1, n2).value;
    assert forall s | s in I.students :: I.students[s].alloc.Keys == Elems(I.students[s].list)
                                       && forall p | p in I.students[s].alloc :: I.students[s].alloc[p] == 0 by {
      StudentsUnassigned(PySlice(file, 1, n1 + 1));
    }
    assert forall p | p in I.projects :: I.projects[p].count == 0 by {
      ProjectsUnassigned(PySlice(file, n1 + 1, n1 + n2 + 1));
    }
    assert forall l | l in I.lecturers :: I.lecturers[l].count == 0 && I.lecturers[l].worst == None by {
      LecturersUnassigned(PySlice(file, n1 + n2 + 1, |file|));
    }
  }
}
