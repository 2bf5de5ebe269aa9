/** The file reader of the Stable Marriage problem with Ties: a header with
    the numbers of men and women, then one line per man and one per woman,
    each an id followed by a preference list in which a parenthesised group
    of ids is a tie. A preference list is a list of tie sets; the reader
    leaves every rank table empty. */
module SmtReader {
  import opened Wrappers
  import opened Lists
  import opened Text

  type Id = string

  predicate IsBracket(c: char) {
    c == '(' || c == ')'
  }

  /** The characters the pattern `\d+|[()]` can match. */
  predicate Matched(c: char) {
    IsDigit(c) || IsBracket(c)
  }

  /** A token of `regex_split`: a bracket, or a run of digits. */
  predicate IsToken(t: string) {
    t == "(" || t == ")" || IsDigits(t)
  }

  /** `regex_split`: the matches of `\d+|[()]`, left to right. Every token
      is a bracket or a digit run, and together they are exactly the
      matchable characters of the line. */
  function RegexSplit(line: string): (r: seq<string>)
    ensures forall i | 0 <= i < |r| :: IsToken(r[i])
    ensures Flatten(r) == Keep(line, Matched)
    decreases |line|
  {
    if |line| == 0 then []
    else if IsDigit(line[0]) then
      var n := Span(line, IsDigit);
      var rest := RegexSplit(line[n..]);
      KeepPrefix(line, n, Matched);
      assert ([line[..n]] + rest)[1..] == rest;
      [line[..n]] + rest
    else if IsBracket(line[0]) then
      var rest := RegexSplit(line[1..]);
      KeepPrefix(line, 1, Matched);
      assert ([line[..1]] + rest)[1..] == rest;
      [line[..1]] + rest
    else RegexSplit(line[1..])
  }

  /** A run of digits is matched whole, as one token. */
  lemma RegexSplitDigits(d: string)
    requires IsDigits(d)
    ensures RegexSplit(d) == [d]
  {
    SpanUnique(d, IsDigit, |d|);
    assert d[..|d|] == d;
  }

  /** Runs are maximal: a character that is not a digit ends the digit run
      before it, and contributes its own token exactly when it is a
      bracket. */
  lemma RegexSplitSep(a: string, c: char, b: string)
    requires !IsDigit(c)
    ensures RegexSplit(a + [c] + b) == RegexSplit(a) + RegexSplit([c]) + RegexSplit(b)
  {
    Associative(a, [c], b);
    RegexSplitAppend(a, [c] + b);
    UnfoldOther([c] + b);
    Front(c, b);
  }

  /** Text that starts with a non-digit splits apart from the text before
      it: no token spans the boundary. */
  lemma {:induction false} RegexSplitAppend(a: string, t: string)
    requires |t| > 0 && !IsDigit(t[0])
    ensures RegexSplit(a + t) == RegexSplit(a) + RegexSplit(t)
    decreases |a|
  {
    if |a| == 0 {
      assert a + t == t;
    } else if IsDigit(a[0]) {
      RegexSplitAppend(a[Span(a, IsDigit)..], t);
      AppendDigitRun(a, t);
    } else {
      RegexSplitAppend(a[1..], t);
      AppendOther(a, t);
    }
  }

  /** The step past a leading digit run, given the split of the rest. */
  lemma AppendDigitRun(a: string, t: string)
    requires |a| > 0 && IsDigit(a[0]) && |t| > 0 && !IsDigit(t[0])
    requires RegexSplit(a[Span(a, IsDigit)..] + t) == RegexSplit(a[Span(a, IsDigit)..]) + RegexSplit(t)
    ensures RegexSplit(a + t) == RegexSplit(a) + RegexSplit(t)
  {
    var m := Span(a, IsDigit);
    DigitRunFront(a, t);
    UnfoldDigit(a);
    Associative([a[..m]], RegexSplit(a[m..]), RegexSplit(t));
  }

  /** The digit run at the front of `a` is the one at the front of `a + t`. */
  lemma DigitRunFront(a: string, t: string)
    requires |a| > 0 && IsDigit(a[0]) && |t| > 0 && !IsDigit(t[0])
    ensures RegexSplit(a + t) == [a[..Span(a, IsDigit)]] + RegexSplit(a[Span(a, IsDigit)..] + t)
  {
    SpanAppend(a, t, IsDigit);
    UnfoldDigit(a + t);
    TakeDrop(a, t, Span(a, IsDigit));
  }

  /** The step past a leading non-digit, given the split of the rest. */
  lemma AppendOther(a: string, t: string)
    requires |a| > 0 && !IsDigit(a[0])
    requires RegexSplit(a[1..] + t) == RegexSplit(a[1..]) + RegexSplit(t)
    ensures RegexSplit(a + t) == RegexSplit(a) + RegexSplit(t)
  {
    UnfoldOther(a + t);
    TakeDrop(a, t, 1);
    UnfoldOther(a);
    Associative(RegexSplit(a[..1]), RegexSplit(a[1..]), RegexSplit(t));
  }

  /** A line starting with a digit yields its digit run first. */
  lemma UnfoldDigit(s: string)
    requires |s| > 0 && IsDigit(s[0])
    ensures RegexSplit(s) == [s[..Span(s, IsDigit)]] + RegexSplit(s[Span(s, IsDigit)..])
  {
  }

  /** A line starting with anything else yields that character's tokens
      first. */
  lemma UnfoldOther(s: string)
    requires |s| > 0 && !IsDigit(s[0])
    ensures RegexSplit(s) == RegexSplit(s[..1]) + RegexSplit(s[1..])
  {
    var h := s[..1];
    assert h[1..] == [] && h[..1] == h;
  }

  /** Opening minus closing brackets among the tokens. */
  function Depth(ts: seq<string>): int {
    if |ts| == 0 then 0 else Delta(ts[0]) + Depth(ts[1..])
  }

  /** Starting `open` brackets deep, every prefix of the tokens stays at
      depth 0 or 1 (no nested tie, no unopened one) and the whole list ends
      at depth 0 (no unclosed one). */
  ghost predicate TiesWellFormed(ts: seq<string>, open: bool) {
    var d := if open then 1 else 0;
    && (forall n | 0 <= n <= |ts| :: 0 <= d + Depth(ts[..n]) <= 1)
    && d + Depth(ts) == 0
  }

  /** The ids the digit tokens stand for. */
  function TokenIds(ts: seq<string>, prefix: string): (r: set<Id>) {
    if |ts| == 0 then {}
    else (if ts[0] == "(" || ts[0] == ")" then {} else {prefix + ts[0]}) + TokenIds(ts[1..], prefix)
  }

  /** The union of a list of tie sets. */
  function Union(gs: seq<set<Id>>): (r: set<Id>) {
    if |gs| == 0 then {} else Union(gs[..|gs| - 1]) + gs[|gs| - 1]
  }

  /** The loop of `_scan_preference_tokens` from a given state: a digit
      token joins the current set, which is appended at once outside a tie
      and at the closing bracket inside one. */
  function Scan(ts: seq<string>, prefix: string, open: bool, cur: set<Id>, prefs: seq<set<Id>>): (r: Result<seq<set<Id>>>)
    ensures r.Ok? <==> TiesWellFormed(ts, open)
    ensures r.Err? ==> r.error in {NestedTiesError, UnopenedTieError, UnclosedTieError}
    ensures r.Ok? && (!open ==> cur == {}) ==> Union(r.value) == Union(prefs) + cur + TokenIds(ts, prefix)
    ensures r.Ok? ==> prefs <= r.value
    decreases |ts|
  {
    if |ts| == 0 then
      if open then Err(UnclosedTieError) else Ok(prefs)
    else
      WellFormedStep(ts, open);
      if ts[0] == "(" then
        if open then Err(NestedTiesError)
        else Scan(ts[1..], prefix, true, cur, prefs)
      else if ts[0] == ")" then
        if !open then Err(UnopenedTieError)
        else
          assert (prefs + [cur])[..|prefs|] == prefs;
          Scan(ts[1..], prefix, false, {}, prefs + [cur])
      else if open then Scan(ts[1..], prefix, true, cur + {prefix + ts[0]}, prefs)
      else
        assert (prefs + [cur + {prefix + ts[0]}])[..|prefs|] == prefs;
        Scan(ts[1..], prefix, false, {}, prefs + [cur + {prefix + ts[0]}])
  }

  /** The bracket count of the first token. */
  function Delta(t: string): int {
    if t == "(" then 1 else if t == ")" then -1 else 0
  }

  /** How the depth condition moves past the first token. */
  lemma WellFormedStep(ts: seq<string>, open: bool)
    requires |ts| > 0
    ensures TiesWellFormed(ts, open) <==>
      var d := (if open then 1 else 0) + Delta(ts[0]);
      0 <= d <= 1 && TiesWellFormed(ts[1..], d == 1)
  {
    var d0 := if open then 1 else 0;
    var d := d0 + Delta(ts[0]);
    assert ts[..0] == [];
    assert ts[..1][1..] == [];
    assert Depth(ts[..1]) == Delta(ts[0]);
    forall n | 1 <= n <= |ts|
      ensures Depth(ts[..n]) == Delta(ts[0]) + Depth(ts[1..][..n - 1])
    {
      assert ts[..n][1..] == ts[1..][..n - 1];
    }
    if TiesWellFormed(ts, open) {
      assert 0 <= d0 + Depth(ts[..1]) <= 1;
      forall n | 0 <= n <= |ts[1..]|
        ensures 0 <= d + Depth(ts[1..][..n]) <= 1
      {
        assert 0 <= d0 + Depth(ts[..n + 1]) <= 1;
      }
    }
    if 0 <= d <= 1 && TiesWellFormed(ts[1..], d == 1) {
      forall n | 0 <= n <= |ts|
        ensures 0 <= d0 + Depth(ts[..n]) <= 1
      {
        if n > 0 {
          assert 0 <= d + Depth(ts[1..][..n - 1]) <= 1;
        }
      }
    }
  }

  /** `_scan_preference_tokens`: the tie sets of a line, the id token
      skipped. */
  function ScanPreferenceTokens(tokens: seq<string>, prefix: string): (r: Result<seq<set<Id>>>)
    ensures r.Ok? <==> TiesWellFormed(Drop(tokens, 1), false)
    ensures r.Ok? ==> Union(r.value) == TokenIds(Drop(tokens, 1), prefix)
  {
    Scan(Drop(tokens, 1), prefix, false, {}, [])
  }

  /** A number on its own is a singleton tie and a bracketed group one
      set. */
  lemma ScanExample()
    ensures ScanPreferenceTokens(["1", "2", "(", "3", "4", ")"], "w") == Ok([{"w2"}, {"w3", "w4"}])
  {
    var ts := ["1", "2", "(", "3", "4", ")"];
    assert Drop(ts, 1) == ["2", "(", "3", "4", ")"];
    ScanSingleExample();
  }

  lemma ScanSingleExample()
    ensures Scan(["2", "(", "3", "4", ")"], "w", false, {}, []) == Ok([{"w2"}, {"w3", "w4"}])
  {
    ScanTieExample();
    assert ["2", "(", "3", "4", ")"][1..] == ["(", "3", "4", ")"];
    assert "w" + "2" == "w2";
    assert {} + {"w2"} == {"w2"};
    assert [] + [{"w2"}] == [{"w2"}];
  }

  lemma ScanTieExample()
    ensures Scan(["(", "3", "4", ")"], "w", false, {}, [{"w2"}]) == Ok([{"w2"}, {"w3", "w4"}])
  {
    var done := [{"w2"}, {"w3", "w4"}];
    assert Scan([], "w", false, {}, done) == Ok(done);
    assert [{"w2"}] + [{"w3", "w4"}] == done;
    assert Scan([")"], "w", true, {"w3", "w4"}, [{"w2"}]) == Ok(done) by {
      assert [")"][1..] == [];
    }
    assert Scan(["4", ")"], "w", true, {"w3"}, [{"w2"}]) == Ok(done) by {
      assert ["4", ")"][1..] == [")"];
      assert "w" + "4" == "w4";
      assert {"w3"} + {"w4"} == {"w3", "w4"};
    }
    assert Scan(["3", "4", ")"], "w", true, {}, [{"w2"}]) == Ok(done) by {
      assert ["3", "4", ")"][1..] == ["4", ")"];
      assert "w" + "3" == "w3";
      assert {} + {"w3"} == {"w3"};
    }
    assert ["(", "3", "4", ")"][1..] == ["3", "4", ")"];
  }

  /** "()" is an empty tie set. */
  lemma EmptyTieExample()
    ensures ScanPreferenceTokens(["1", "(", ")"], "w") == Ok([{}])
  {
    assert Drop(["1", "(", ")"], 1) == ["(", ")"];
    assert ["(", ")"][1..] == [")"];
    assert [")"][1..] == [];
  }

  /** Each bracket error, raised where the depth leaves 0..1. */
  lemma TieErrorExamples()
    ensures ScanPreferenceTokens(["1", "(", "(", ")"], "w") == Err(NestedTiesError)
    ensures ScanPreferenceTokens(["1", ")"], "w") == Err(UnopenedTieError)
    ensures ScanPreferenceTokens(["1", "(", "2"], "w") == Err(UnclosedTieError)
  {
    assert Drop(["1", "(", "(", ")"], 1) == ["(", "(", ")"];
    assert ["(", "(", ")"][1..] == ["(", ")"];
    assert Drop(["1", ")"], 1) == [")"];
    assert Drop(["1", "(", "2"], 1) == ["(", "2"];
    assert ["(", "2"][1..] == ["2"];
    assert ["2"][1..] == [];
  }

  /** A record as the reader stores it: the tie sets and an empty rank. */
  datatype Agent = Agent(list: seq<set<Id>>, rank: map<Id, nat>)

  /** The line's first token is a number, as the id check demands. */
  predicate IdOk(tokens: seq<string>) {
    |tokens| > 0 && IsDigits(tokens[0])
  }

  /** The line is accepted: a numeric id and well-formed ties. */
  ghost predicate LineOk(line: string, prefix: string) {
    var ts := RegexSplit(line);
    IdOk(ts) && ScanPreferenceTokens(ts, prefix).Ok?
  }

  /** The id a line declares. */
  function LineId(line: string, letter: string): Id {
    var ts := RegexSplit(line);
    if |ts| == 0 then letter else letter + ts[0]
  }

  /** The ids the lines declare, in order. */
  function LineIds(lines: seq<string>, letter: string): (r: seq<Id>)
    ensures |r| == |lines|
    ensures forall i | 0 <= i < |lines| :: r[i] == LineId(lines[i], letter)
  {
    seq(|lines|, i requires 0 <= i < |lines| => LineId(lines[i], letter))
  }

  /** Every line is accepted and declares an id neither seen before nor
      repeated. */
  ghost predicate Accepted(lines: seq<string>, letter: string, prefix: string, acc: map<Id, Agent>) {
    && (forall i | 0 <= i < |lines| :: LineOk(lines[i], prefix) && LineId(lines[i], letter) !in acc)
    && NoDup(LineIds(lines, letter))
  }

  /** One side of `_read_data`: each line's id must be numeric and new, and
      its preferences well formed; the first failing check raises. */
  function ReadSide(lines: seq<string>, letter: string, prefix: string, acc: map<Id, Agent>): (r: Result<map<Id, Agent>>)
    ensures r.Err? ==> r.error in {IDMisformatError, RepeatIDError, NestedTiesError, UnopenedTieError, UnclosedTieError}
    decreases |lines|
  {
    if |lines| == 0 then Ok(acc)
    else
      var ts := RegexSplit(lines[0]);
      if !IdOk(ts) then Err(IDMisformatError)
      else
        var id := letter + ts[0];
        if id in acc then Err(RepeatIDError)
        else
          var prefs := ScanPreferenceTokens(ts, prefix);
          if prefs.Err? then Err(prefs.error)
          else ReadSide(lines[1..], letter, prefix, acc[id := Agent(prefs.value, map[])])
  }

  /** How `Accepted` moves past the first line. */
  lemma AcceptedStep(lines: seq<string>, letter: string, prefix: string, acc: map<Id, Agent>, a: Agent)
    requires |lines| > 0
    ensures Accepted(lines, letter, prefix, acc) <==>
      && LineOk(lines[0], prefix) && LineId(lines[0], letter) !in acc
      && Accepted(lines[1..], letter, prefix, acc[LineId(lines[0], letter) := a])
  {
    var ids := LineIds(lines, letter);
    var rest := LineIds(lines[1..], letter);
    var acc' := acc[ids[0] := a];
    assert rest == ids[1..];
    NoDupStep(ids);
    if Accepted(lines, letter, prefix, acc) {
      forall i | 0 <= i < |rest| ensures LineOk(lines[1..][i], prefix) && rest[i] !in acc' {
        assert lines[1..][i] == lines[i + 1];
        assert rest[i] == ids[i + 1];
      }
    }
    if LineOk(lines[0], prefix) && ids[0] !in acc && Accepted(lines[1..], letter, prefix, acc') {
      forall i | 0 <= i < |lines| ensures LineOk(lines[i], prefix) && ids[i] !in acc {
        if i > 0 {
          assert lines[1..][i - 1] == lines[i];
          assert rest[i - 1] == ids[i];
        }
      }
      assert ids[0] !in rest;
    }
  }

  /** A line's record, as a successful read stores it: its tie sets and an
      empty rank. */
  function LineEntry(line: string, prefix: string): Agent {
    var prefs := ScanPreferenceTokens(RegexSplit(line), prefix);
    Agent(if prefs.Ok? then prefs.value else [], map[])
  }

  /** A successful read stores the first line and reads on. */
  lemma ReadSideUnfold(lines: seq<string>, letter: string, prefix: string, acc: map<Id, Agent>)
    requires |lines| > 0 && ReadSide(lines, letter, prefix, acc).Ok?
    ensures ReadSide(lines, letter, prefix, acc) ==
      ReadSide(lines[1..], letter, prefix, acc[LineId(lines[0], letter) := LineEntry(lines[0], prefix)])
  {
  }

  /** The reader accepts the lines exactly when `Accepted` holds. */
  lemma {:induction false} ReadSideOk(lines: seq<string>, letter: string, prefix: string, acc: map<Id, Agent>)
    ensures ReadSide(lines, letter, prefix, acc).Ok? <==> Accepted(lines, letter, prefix, acc)
    decreases |lines|
  {
    if |lines| > 0 {
      var ts := RegexSplit(lines[0]);
      var id := LineId(lines[0], letter);
      var a := Agent(if LineOk(lines[0], prefix) then ScanPreferenceTokens(ts, prefix).value else [], map[]);
      AcceptedStep(lines, letter, prefix, acc, a);
      if LineOk(lines[0], prefix) && id !in acc {
        ReadSideOk(lines[1..], letter, prefix, acc[id := a]);
      }
    }
  }

  /** The reader's keys are those it started with and the lines' ids. */
  lemma {:induction false} ReadSideKeys(lines: seq<string>, letter: string, prefix: string, acc: map<Id, Agent>, x: Id)
    requires ReadSide(lines, letter, prefix, acc).Ok?
    ensures x in ReadSide(lines, letter, prefix, acc).value <==> x in acc || x in LineIds(lines, letter)
    decreases |lines|
  {
    if |lines| > 0 {
      var id := LineId(lines[0], letter);
      ReadSideUnfold(lines, letter, prefix, acc);
      ReadSideKeys(lines[1..], letter, prefix, acc[id := LineEntry(lines[0], prefix)], x);
      assert LineIds(lines, letter) == [id] + LineIds(lines[1..], letter);
    }
  }

  /** Line `i` is stored under its id with its tie sets and an empty rank. */
  lemma {:induction false} ReadSideEntry(lines: seq<string>, letter: string, prefix: string, acc: map<Id, Agent>, i: nat)
    requires ReadSide(lines, letter, prefix, acc).Ok?
    requires i < |lines|
    ensures LineId(lines[i], letter) in ReadSide(lines, letter, prefix, acc).value
    ensures ReadSide(lines, letter, prefix, acc).value[LineId(lines[i], letter)] == LineEntry(lines[i], prefix)
    decreases |lines|
  {
    ReadSideUnfold(lines, letter, prefix, acc);
    if i == 0 {
      ReadSideFirst(lines, letter, prefix, acc);
    } else {
      var rest := lines[1..];
      assert rest[i - 1] == lines[i];
      ReadSideEntry(rest, letter, prefix, acc[LineId(lines[0], letter) := LineEntry(lines[0], prefix)], i - 1);
    }
  }

  lemma ReadSideFirst(lines: seq<string>, letter: string, prefix: string, acc: map<Id, Agent>)
    requires ReadSide(lines, letter, prefix, acc).Ok?
    requires |lines| > 0
    ensures LineId(lines[0], letter) in ReadSide(lines, letter, prefix, acc).value
    ensures ReadSide(lines, letter, prefix, acc).value[LineId(lines[0], letter)] == LineEntry(lines[0], prefix)
  {
    var id := LineId(lines[0], letter);
    var acc' := acc[id := LineEntry(lines[0], prefix)];
    ReadSideUnfold(lines, letter, prefix, acc);
    ReadSideOk(lines, letter, prefix, acc);
    ReadSideOk(lines[1..], letter, prefix, acc');
    assert id !in LineIds(lines[1..], letter) by {
      NoDupStep(LineIds(lines, letter));
      assert LineIds(lines[1..], letter) == LineIds(lines, letter)[1..];
    }
    ReadSideKept(lines[1..], letter, prefix, acc', id);
  }

  /** A key no line declares keeps its value. */
  lemma {:induction false} ReadSideKept(lines: seq<string>, letter: string, prefix: string, acc: map<Id, Agent>, x: Id)
    requires ReadSide(lines, letter, prefix, acc).Ok?
    requires x in acc && x !in LineIds(lines, letter)
    ensures x in ReadSide(lines, letter, prefix, acc).value
    ensures ReadSide(lines, letter, prefix, acc).value[x] == acc[x]
    decreases |lines|
  {
    if |lines| > 0 {
      var id := LineId(lines[0], letter);
      ReadSideUnfold(lines, letter, prefix, acc);
      assert LineIds(lines, letter) == [id] + LineIds(lines[1..], letter);
      ReadSideKept(lines[1..], letter, prefix, acc[id := LineEntry(lines[0], prefix)], x);
    }
  }

  /** The header: exactly two integers. */
  function ReadHeader(line: string): (r: Result<(int, int)>)
    ensures r.Ok? <==> |Words(line)| == 2 && ParseInt(Words(line)[0]).Some? && ParseInt(Words(line)[1]).Some?
    ensures r.Ok? ==> r.value == (ParseInt(Words(line)[0]).value, ParseInt(Words(line)[1]).value)
    ensures r.Err? ==> r.error == ParticipantQuantityError
  {
    var ws := Words(line);
    if |ws| != 2 then Err(ParticipantQuantityError)
    else
      var a := ParseInt(ws[0]);
      var b := ParseInt(ws[1]);
      if a.None? || b.None? then Err(ParticipantQuantityError)
      else Ok((a.value, b.value))
  }

  /** The men's lines, `file[1:n+1]`. */
  function MenLines(file: seq<string>, n: int): seq<string> {
    PySlice(file, 1, n + 1)
  }

  /** The women's lines, `file[n+1:n+m+1]`. */
  function WomenLines(file: seq<string>, n: int, m: int): seq<string> {
    PySlice(file, n + 1, n + m + 1)
  }

  /** `_read_data` on the file's lines: the header, then the men's lines and
      the women's lines, Python slices of whatever counts the header gives;
      an empty file is an IndexError. */
  function ReadData(file: seq<string>): (r: Result<(map<Id, Agent>, map<Id, Agent>)>)
    ensures |file| == 0 ==> r == Err(IndexError)
    ensures |file| > 0 && ReadHeader(file[0]).Err? ==> r == Err(ParticipantQuantityError)
    ensures r.Err? ==> r.error in {IndexError, ParticipantQuantityError, IDMisformatError, RepeatIDError, NestedTiesError, UnopenedTieError, UnclosedTieError}
  {
    if |file| == 0 then Err(IndexError)
    else
      var header := ReadHeader(file[0]);
      if header.Err? then Err(header.error)
      else
        var (n, m) := header.value;
        var men := ReadSide(MenLines(file, n), "m", "w", map[]);
        if men.Err? then Err(men.error)
        else
          var women := ReadSide(WomenLines(file, n, m), "w", "m", map[]);
          if women.Err? then Err(women.error)
          else Ok((men.value, women.value))
  }

  /** The file is read exactly when its header holds two integers and both
      sides' lines are accepted. */
  lemma ReadDataOk(file: seq<string>)
    requires |file| > 0 && ReadHeader(file[0]).Ok?
    ensures ReadData(file).Ok? <==>
      var (n, m) := ReadHeader(file[0]).value;
      Accepted(MenLines(file, n), "m", "w", map[]) && Accepted(WomenLines(file, n, m), "w", "m", map[])
  {
    var (n, m) := ReadHeader(file[0]).value;
    ReadSideOk(MenLines(file, n), "m", "w", map[]);
    ReadSideOk(WomenLines(file, n, m), "w", "m", map[]);
  }

  /** The men are keyed by the ids of the men's lines. */
  lemma ReadDataMen(file: seq<string>, x: Id)
    requires ReadData(file).Ok?
    ensures x in ReadData(file).value.0 <==> x in LineIds(MenLines(file, ReadHeader(file[0]).value.0), "m")
  {
    ReadSideKeys(MenLines(file, ReadHeader(file[0]).value.0), "m", "w", map[], x);
  }

  /** The reader leaves every rank table empty. */
  lemma ReadDataRanks(file: seq<string>)
    requires ReadData(file).Ok?
    ensures forall x | x in ReadData(file).value.0 :: ReadData(file).value.0[x].rank == map[]
    ensures forall x | x in ReadData(file).value.1 :: ReadData(file).value.1[x].rank == map[]
  {
    var (n, m) := ReadHeader(file[0]).value;
    EmptyRanks(MenLines(file, n), "m", "w", map[]);
    EmptyRanks(WomenLines(file, n, m), "w", "m", map[]);
  }

  /** Every record the reader builds has an empty rank table. */
  lemma {:induction false} EmptyRanks(lines: seq<string>, letter: string, prefix: string, acc: map<Id, Agent>)
    requires forall x | x in acc :: acc[x].rank == map[]
    requires ReadSide(lines, letter, prefix, acc).Ok?
    ensures forall x | x in ReadSide(lines, letter, prefix, acc).value :: ReadSide(lines, letter, prefix, acc).value[x].rank == map[]
    decreases |lines|
  {
    if |lines| > 0 {
      ReadSideUnfold(lines, letter, prefix, acc);
      EmptyRanks(lines[1..], letter, prefix, acc[LineId(lines[0], letter) := LineEntry(lines[0], prefix)]);
    }
  }
}
