/** The string handling the file readers share: `str.split()`, `int(...)`
    on a decimal literal, and `str.isdigit()`, on ASCII text. */
module Text {
  import opened Wrappers
  import opened Lists

  predicate IsDigit(c: char) {
    '0' <= c <= '9'
  }

  /** The ASCII characters `str.isspace()` accepts. */
  predicate IsSpace(c: char) {
    c == ' ' || 9 <= c as int <= 13 || 28 <= c as int <= 31
  }

  predicate NotSpace(c: char) {
    !IsSpace(c)
  }

  /** `s.isdigit()`: non-empty and all digits. */
  predicate IsDigits(s: string) {
    |s| > 0 && forall i | 0 <= i < |s| :: IsDigit(s[i])
  }

  /** The characters of `s` satisfying `p`, in order. */
  function Keep(s: string, p: char -> bool): (r: string)
    ensures |r| <= |s|
  {
    if |s| == 0 then ""
    else (if p(s[0]) then [s[0]] else []) + Keep(s[1..], p)
  }

  /** The length of the longest prefix of `s` whose characters satisfy `p`. */
  function Span(s: string, p: char -> bool): (n: nat)
    ensures n <= |s|
    ensures forall i | 0 <= i < n :: p(s[i])
    ensures n == |s| || !p(s[n])
  {
    if |s| == 0 || !p(s[0]) then 0 else 1 + Span(s[1..], p)
  }

  /** The span is the only length whose prefix satisfies `p` and is not
      followed by a character that does. */
  lemma SpanUnique(s: string, p: char -> bool, k: nat)
    requires k <= |s| && forall i | 0 <= i < k :: p(s[i])
    requires k == |s| || !p(s[k])
    ensures Span(s, p) == k
  {
  }

  /** Text that starts with a character failing `p` does not extend the
      span of the text before it. */
  lemma SpanAppend(a: string, t: string, p: char -> bool)
    requires |t| > 0 && !p(t[0])
    ensures Span(a + t, p) == Span(a, p)
  {
    var s := a + t;
    var m := Span(a, p);
    assert forall i | 0 <= i < m :: s[i] == a[i];
    assert s[m] == if m < |a| then a[m] else t[0];
    SpanUnique(s, p, m);
  }

  /** Keeping characters across a prefix all of which are kept. */
  lemma {:induction false} KeepPrefix(s: string, n: nat, p: char -> bool)
    requires n <= |s|
    requires forall i | 0 <= i < n :: p(s[i])
    ensures Keep(s, p) == s[..n] + Keep(s[n..], p)
  {
    if n > 0 {
      var t := s[1..];
      KeepPrefix(t, n - 1, p);
      assert Keep(s, p) == [s[0]] + Keep(t, p);
      assert t[n - 1..] == s[n..];
      assert s[..n] == [s[0]] + t[..n - 1];
    }
  }

  /** `s.split()`: the maximal runs of non-space characters, in order. */
  function Words(s: string): (r: seq<string>)
    ensures forall i | 0 <= i < |r| :: |r[i]| > 0 && forall k | 0 <= k < |r[i]| :: !IsSpace(r[i][k])
    ensures Flatten(r) == Keep(s, NotSpace)
    decreases |s|
  {
    if |s| == 0 then []
    else if IsSpace(s[0]) then Words(s[1..])
    else
      var n := Span(s, NotSpace);
      var rest := Words(s[n..]);
      KeepPrefix(s, n, NotSpace);
      assert ([s[..n]] + rest)[1..] == rest;
      [s[..n]] + rest
  }

  function DigitValue(c: char): (d: nat)
    requires IsDigit(c)
    ensures d < 10
  {
    c as int - '0' as int
  }

  /** The value of a string of decimal digits. */
  function DecimalValue(ds: string): (v: nat)
    requires forall i | 0 <= i < |ds| :: IsDigit(ds[i])
  {
    if |ds| == 0 then 0
    else 10 * DecimalValue(ds[..|ds| - 1]) + DigitValue(ds[|ds| - 1])
  }

  /** `int(s)` on a decimal literal with an optional sign; anything else is
      the ValueError, here `None`. */
  function ParseInt(s: string): (r: Option<int>)
    ensures r.Some? <==> IsDigits(s) || (|s| > 1 && (s[0] == '+' || s[0] == '-') && IsDigits(s[1..]))
    ensures r.Some? && IsDigits(s) ==> r.value >= 0
  {
    if IsDigits(s) then Some(DecimalValue(s) as int)
    else if |s| > 1 && s[0] == '+' && IsDigits(s[1..]) then Some(DecimalValue(s[1..]))
    else if |s| > 1 && s[0] == '-' && IsDigits(s[1..]) then var v: int := DecimalValue(s[1..]); Some(-v)
    else None
  }

  /** The decimal digits of `n`, as `str(n)` writes them. */
  function Decimal(n: nat): (s: string)
    ensures IsDigits(s)
  {
    if n < 10 then [('0' as int + n) as char]
    else Decimal(n / 10) + [('0' as int + n % 10) as char]
  }

  /** Reading back what `str` writes gives the number: `int(str(n)) == n`. */
  lemma {:induction false} ParseDecimal(n: nat)
    ensures ParseInt(Decimal(n)) == Some(n)
    ensures DecimalValue(Decimal(n)) == n
  {
    var s := Decimal(n);
    if n < 10 {
      assert s[..0] == [];
    } else {
      ParseDecimal(n / 10);
      assert s[..|s| - 1] == Decimal(n / 10);
      assert DigitValue(s[|s| - 1]) == n % 10;
      assert DecimalValue(s) == 10 * (n / 10) + n % 10;
    }
  }

  /** A word as `str.split()` yields it: non-empty and free of whitespace. */
  predicate IsWord(w: string) {
    |w| > 0 && forall i | 0 <= i < |w| :: NotSpace(w[i])
  }

  /** A single word splits into itself. */
  lemma WordsWord(w: string)
    requires IsWord(w)
    ensures Words(w) == [w]
  {
    SpanUnique(w, NotSpace, |w|);
    assert w[..|w|] == w;
  }

  /** Runs are maximal: a whitespace character separates the words before
      it from those after it, whatever surrounds it. */
  lemma WordsSpace(a: string, c: char, b: string)
    requires IsSpace(c)
    ensures Words(a + [c] + b) == Words(a) + Words(b)
  {
    Associative(a, [c], b);
    WordsAppend(a, [c] + b);
    UnfoldSpace([c] + b);
    Front(c, b);
  }

  /** Text that starts with whitespace splits apart from the text before
      it: no word spans the boundary. */
  lemma {:induction false} WordsAppend(a: string, t: string)
    requires |t| > 0 && IsSpace(t[0])
    ensures Words(a + t) == Words(a) + Words(t)
    decreases |a|
  {
    if |a| == 0 {
      assert a + t == t;
    } else if IsSpace(a[0]) {
      WordsAppend(a[1..], t);
      AppendSpace(a, t);
    } else {
      WordsAppend(a[Span(a, NotSpace)..], t);
      AppendWord(a, t);
    }
  }

  /** The step past leading whitespace, given the split of the rest. */
  lemma AppendSpace(a: string, t: string)
    requires |a| > 0 && IsSpace(a[0])
    requires Words(a[1..] + t) == Words(a[1..]) + Words(t)
    ensures Words(a + t) == Words(a) + Words(t)
  {
    UnfoldSpace(a + t);
    TakeDrop(a, t, 1);
    UnfoldSpace(a);
  }

  /** The step past a leading word, given the split of the rest. */
  lemma AppendWord(a: string, t: string)
    requires |a| > 0 && !IsSpace(a[0]) && |t| > 0 && IsSpace(t[0])
    requires Words(a[Span(a, NotSpace)..] + t) == Words(a[Span(a, NotSpace)..]) + Words(t)
    ensures Words(a + t) == Words(a) + Words(t)
  {
    var m := Span(a, NotSpace);
    SpanAppend(a, t, NotSpace);
    UnfoldWord(a + t);
    TakeDrop(a, t, m);
    UnfoldWord(a);
    Associative([a[..m]], Words(a[m..]), Words(t));
  }

  /** Leading whitespace is skipped. */
  lemma UnfoldSpace(s: string)
    requires |s| > 0 && IsSpace(s[0])
    ensures Words(s) == Words(s[1..])
  {
  }

  /** A line starting with a word yields that word first. */
  lemma UnfoldWord(s: string)
    requires |s| > 0 && !IsSpace(s[0])
    ensures Words(s) == [s[..Span(s, NotSpace)]] + Words(s[Span(s, NotSpace)..])
  {
  }

  /** Cutting `a + t` within `a`. */
  lemma TakeDrop(a: string, t: string, m: nat)
    requires m <= |a|
    ensures (a + t)[..m] == a[..m] && (a + t)[m..] == a[m..] + t
  {
  }

  /** The first character of `[c] + b`, and the rest. */
  lemma Front(c: char, b: string)
    ensures ([c] + b)[..1] == [c] && ([c] + b)[1..] == b
  {
  }

  lemma Associative<T>(x: seq<T>, y: seq<T>, z: seq<T>)
    ensures x + (y + z) == (x + y) + z
  {
  }

  /** `" ".join(ws)`. */
  function Unwords(ws: seq<string>): (s: string)
    decreases |ws|
  {
    if |ws| == 0 then ""
    else if |ws| == 1 then ws[0]
    else ws[0] + " " + Unwords(ws[1..])
  }

  /** The first word of a line that starts with a word is that word. */
  lemma SpanWord(w: string, rest: string)
    requires IsWord(w) && (|rest| == 0 || IsSpace(rest[0]))
    ensures Span(w + rest, NotSpace) == |w|
  {
    var s := w + rest;
    assert forall i | 0 <= i < |w| :: s[i] == w[i];
    assert |rest| > 0 ==> s[|w|] == rest[0];
  }

  /** Splitting words joined by single spaces gives the words back:
      `" ".join(ws).split() == ws`. */
  lemma {:induction false} WordsUnwords(ws: seq<string>)
    requires forall i | 0 <= i < |ws| :: IsWord(ws[i])
    ensures Words(Unwords(ws)) == ws
    decreases |ws|
  {
    if |ws| == 1 {
      var w := ws[0];
      SpanWord(w, "");
      assert w + "" == w;
      assert w[|w|..] == "";
    } else if |ws| > 1 {
      var w := ws[0];
      var rest := Unwords(ws[1..]);
      var s := w + " " + rest;
      SpanWord(w, " " + rest);
      assert s == w + (" " + rest);
      assert s[..|w|] == w;
      assert s[|w|..] == " " + rest;
      assert (" " + rest)[1..] == rest;
      WordsUnwords(ws[1..]);
    }
  }

  /** `str(i)` for any integer. */
  function Show(i: int): (s: string) {
    if i < 0 then "-" + Decimal(-i) else Decimal(i)
  }

  /** `int(str(i)) == i`, and `str(i)` is a single word. */
  lemma ParseShow(i: int)
    ensures ParseInt(Show(i)) == Some(i)
    ensures IsWord(Show(i))
  {
    if i < 0 {
      ParseNegative(-i);
      DigitsWord(Decimal(-i), "-");
    } else {
      ParseDecimal(i);
      DigitsWord(Decimal(i), "");
    }
  }

  /** `int("-" + str(n)) == -n`. */
  lemma ParseNegative(n: nat)
    ensures ParseInt("-" + Decimal(n)) == Some(-(n as int))
  {
    var s := "-" + Decimal(n);
    ParseDecimal(n);
    assert s[1..] == Decimal(n);
    assert !IsDigit(s[0]);
  }

  /** Digits after an optional sign make a word. */
  lemma DigitsWord(ds: string, sign: string)
    requires IsDigits(ds) && (sign == "" || sign == "-")
    ensures IsWord(sign + ds)
  {
    var s := sign + ds;
    forall k | 0 <= k < |s| ensures NotSpace(s[k]) {
      if k >= |sign| {
        assert s[k] == ds[k - |sign|];
      }
    }
  }
}
