/** The mutual attraction distance between two SPA-P instances, given as
    their mutual attraction matrices: the least total absolute difference
    over all ways of pairing the rows of one matrix with the rows of the
    other. Also the two extreme matrices (mutual agreement and mutual
    disagreement) and the closed form of the distance between them. */
module MutualAttraction {
  import opened Wrappers

  /** An `n` by `l` integer matrix (a numpy array of that shape). */
  datatype Matrix = Matrix(rows: nat, cols: nat, at: seq<seq<int>>)

  /** Every row has the matrix's width: what numpy guarantees. */
  predicate Valid(M: Matrix) {
    |M.at| == M.rows && forall i | 0 <= i < |M.at| :: |M.at[i]| == M.cols
  }

  function Abs(x: int): nat {
    if x < 0 then -x else x
  }

  // ---------------------------------------------------------------------
  // Permutations of range(n)
  // ---------------------------------------------------------------------

  /** `range(n)`. */
  function Range(n: nat): (r: seq<nat>)
    ensures |r| == n && forall i | 0 <= i < n :: r[i] == i
  {
    seq(n, i => i)
  }

  /** `xs` without its element at position `i`. */
  function RemoveAt(xs: seq<nat>, i: nat): (r: seq<nat>)
    requires i < |xs|
    ensures |r| == |xs| - 1
    ensures multiset(r) == multiset(xs) - multiset{xs[i]}
  {
    assert xs == xs[..i] + [xs[i]] + xs[i + 1..];
    xs[..i] + xs[i + 1..]
  }

  /** Every sequence of `ps` with `x` put in front. */
  function Prepend(x: nat, ps: seq<seq<nat>>): (r: seq<seq<nat>>)
    ensures |r| == |ps| && forall k | 0 <= k < |ps| :: r[k] == [x] + ps[k]
  {
    seq(|ps|, k requires 0 <= k < |ps| => [x] + ps[k])
  }

  /** `itertools.permutations(xs)`: for each position in turn, its element
      followed by every permutation of the others. */
  function Perms(xs: seq<nat>): seq<seq<nat>>
    decreases |xs|, 1
  {
    if |xs| == 0 then [[]] else PermsFrom(xs, 0)
  }

  /** The permutations of `xs` that start with the element at position `i`
      or later. */
  function PermsFrom(xs: seq<nat>, i: nat): seq<seq<nat>>
    requires i <= |xs|
    decreases |xs|, 0, |xs| - i
  {
    if i == |xs| then []
    else Prepend(xs[i], Perms(RemoveAt(xs, i))) + PermsFrom(xs, i + 1)
  }

  /** Every listed sequence is a permutation of `xs`. */
  lemma {:induction false} PermsSound(xs: seq<nat>, p: seq<nat>)
    requires p in Perms(xs)
    ensures multiset(p) == multiset(xs)
    decreases |xs|, 1
  {
    if |xs| > 0 {
      PermsFromSound(xs, 0, p);
    }
  }

  /** Every sequence listed from the `i`-th first element on is a rearrangement of `xs`. */
  lemma {:induction false} PermsFromSound(xs: seq<nat>, i: nat, p: seq<nat>)
    requires i <= |xs| && p in PermsFrom(xs, i)
    ensures multiset(p) == multiset(xs)
    decreases |xs|, 0, |xs| - i
  {
    var head := Prepend(xs[i], Perms(RemoveAt(xs, i)));
    if p in head {
      var k :| 0 <= k < |head| && head[k] == p;
      PermsSound(RemoveAt(xs, i), Perms(RemoveAt(xs, i))[k]);
      assert p == [xs[i]] + p[1..];
    } else {
      PermsFromSound(xs, i + 1, p);
    }
  }

  /** The permutations starting later are among those starting earlier. */
  lemma {:induction false} PermsFromGrows(xs: seq<nat>, j: nat, i: nat, p: seq<nat>)
    requires j <= i <= |xs| && p in PermsFrom(xs, i)
    ensures p in PermsFrom(xs, j)
    decreases i - j
  {
    if j < i {
      PermsFromGrows(xs, j + 1, i, p);
    }
  }

  /** Every permutation of `xs` is listed. */
  lemma {:induction false} PermsComplete(xs: seq<nat>, p: seq<nat>)
    requires multiset(p) == multiset(xs)
    ensures p in Perms(xs)
    decreases |xs|
  {
    if |xs| == 0 {
      assert |p| == 0;
    } else {
      assert |p| == |multiset(p)|;
      assert p[0] in multiset(xs);
      var i :| 0 <= i < |xs| && xs[i] == p[0];
      assert p == [p[0]] + p[1..];
      assert multiset(p[1..]) == multiset(p) - multiset{p[0]};
      PermsComplete(RemoveAt(xs, i), p[1..]);
      var rest := Perms(RemoveAt(xs, i));
      var k :| 0 <= k < |rest| && rest[k] == p[1..];
      assert Prepend(xs[i], rest)[k] == p;
      PermsFromGrows(xs, 0, i, p);
    }
  }

  /** `p` is a permutation of `range(n)`. */
  ghost predicate IsPerm(p: seq<nat>, n: nat) {
    multiset(p) == multiset(Range(n))
  }

  /** A permutation of `range(n)` has `n` entries, each below `n`. */
  lemma PermBounds(p: seq<nat>, n: nat)
    requires IsPerm(p, n)
    ensures |p| == n && forall i | 0 <= i < |p| :: p[i] < n
  {
    assert |p| == |multiset(p)| == |multiset(Range(n))| == n;
    forall i | 0 <= i < |p| ensures p[i] < n {
      assert p[i] in multiset(p);
      var j :| 0 <= j < n && Range(n)[j] == p[i];
    }
  }

  /** The listed sequences are exactly the permutations of `range(n)`. */
  lemma PermsOfRange(n: nat, p: seq<nat>)
    ensures p in Perms(Range(n)) <==> IsPerm(p, n)
  {
    if p in Perms(Range(n)) {
      PermsSound(Range(n), p);
    }
    if IsPerm(p, n) {
      PermsComplete(Range(n), p);
    }
  }

  // ---------------------------------------------------------------------
  // The distance
  // ---------------------------------------------------------------------

  /** `np.sum(np.abs(a - b))` over the first `k` entries. */
  function RowCost(a: seq<int>, b: seq<int>, k: nat): nat
    requires k <= |a| && k <= |b|
  {
    if k == 0 then 0 else RowCost(a, b, k - 1) + Abs(a[k - 1] - b[k - 1])
  }

  /** `p` pairs row `i` of `I` with row `p[i]` of `J`, and the shapes
      agree. */
  predicate Pairs(I: Matrix, J: Matrix, p: seq<nat>) {
    && Valid(I) && Valid(J) && I.rows == J.rows && I.cols == J.cols
    && |p| == I.rows && forall i | 0 <= i < |p| :: p[i] < J.rows
  }

  /** The total cost of the pairing `p` over the first `k` rows. */
  function Cost(I: Matrix, J: Matrix, p: seq<nat>, k: nat): nat
    requires Pairs(I, J, p) && k <= |p|
  {
    if k == 0 then 0 else Cost(I, J, p, k - 1) + RowCost(I.at[k - 1], J.at[p[k - 1]], I.cols)
  }

  /** The smallest of a non-empty list: the loop that keeps `min_dist`,
      starting from infinity, and lowers it on a smaller `dist`. */
  function MinOf(xs: seq<int>): (r: int)
    requires |xs| > 0
    ensures r in xs && forall i | 0 <= i < |xs| :: r <= xs[i]
  {
    if |xs| == 1 then xs[0]
    else
      var m := MinOf(xs[..|xs| - 1]);
      assert forall i | 0 <= i < |xs| - 1 :: xs[..|xs| - 1][i] == xs[i];
      if xs[|xs| - 1] < m then xs[|xs| - 1] else m
  }

  /** The costs of the listed permutations of `range(n)`, in order. */
  function Costs(I: Matrix, J: Matrix): (r: seq<int>)
    requires Valid(I) && Valid(J) && I.rows == J.rows && I.cols == J.cols
    ensures |r| == |Perms(Range(I.rows))|
    ensures forall k | 0 <= k < |r| :: Pairs(I, J, Perms(Range(I.rows))[k])
                                    && r[k] == Cost(I, J, Perms(Range(I.rows))[k], I.rows)
  {
    var ps := Perms(Range(I.rows));
    PermsValid(I, J);
    seq(|ps|, k requires 0 <= k < |ps| => Cost(I, J, ps[k], I.rows))
  }

  /** Every listed permutation pairs the rows of `I` with rows of `J`. */
  lemma PermsValid(I: Matrix, J: Matrix)
    requires Valid(I) && Valid(J) && I.rows == J.rows && I.cols == J.cols
    ensures forall p | p in Perms(Range(I.rows)) :: Pairs(I, J, p)
  {
    forall p | p in Perms(Range(I.rows)) ensures Pairs(I, J, p) {
      PermsOfRange(I.rows, p);
      PermBounds(p, I.rows);
    }
  }

  /** `mutual_attraction_distance`: AssertionError unless the shapes agree,
      else the least cost over the permutations of the rows. */
  function Distance(I: Matrix, J: Matrix): (r: Result<int>)
    requires Valid(I) && Valid(J)
    ensures r.Err? <==> I.rows != J.rows || I.cols != J.cols
    ensures r.Err? ==> r.error == AssertionError
    ensures r.Ok? ==> r.value >= 0
  {
    if I.rows != J.rows || I.cols != J.cols then Err(AssertionError)
    else
      assert Range(I.rows) in Perms(Range(I.rows)) by {
        PermsOfRange(I.rows, Range(I.rows));
      }
      Ok(MinOf(Costs(I, J)))
  }

  /** The distance is the cost of some pairing of the rows, and no pairing
      costs less. */
  lemma DistanceIsLeast(I: Matrix, J: Matrix, p: seq<nat>)
    requires Valid(I) && Valid(J) && Distance(I, J).Ok?
    ensures exists q | q in Perms(Range(I.rows)) :: IsPerm(q, I.rows) && Pairs(I, J, q)
                                                  && Distance(I, J).value == Cost(I, J, q, I.rows)
    ensures IsPerm(p, I.rows) ==> Pairs(I, J, p) && Distance(I, J).value <= Cost(I, J, p, I.rows)
  {
    var cs := Costs(I, J);
    var ps := Perms(Range(I.rows));
    var k :| 0 <= k < |cs| && cs[k] == MinOf(cs);
    PermsOfRange(I.rows, ps[k]);
    if IsPerm(p, I.rows) {
      PermsOfRange(I.rows, p);
      var j :| 0 <= j < |ps| && ps[j] == p;
    }
  }

  /** A matrix is at distance zero from itself. */
  lemma DistanceSelf(I: Matrix)
    requires Valid(I)
    ensures Distance(I, I) == Ok(0)
  {
    DistanceIsLeast(I, I, Range(I.rows));
    IdentityCostsNothing(I, I.rows);
  }

  /** Pairing every row with itself costs nothing. */
  lemma {:induction false} IdentityCostsNothing(I: Matrix, k: nat)
    requires Valid(I) && k <= I.rows
    ensures Pairs(I, I, Range(I.rows)) && Cost(I, I, Range(I.rows), k) == 0
  {
    if k > 0 {
      IdentityCostsNothing(I, k - 1);
      RowSelf(I.at[k - 1], I.cols);
    }
  }

  /** A row is at distance 0 from itself. */
  lemma {:induction false} RowSelf(a: seq<int>, k: nat)
    requires k <= |a|
    ensures RowCost(a, a, k) == 0
  {
    if k > 0 {
      RowSelf(a, k - 1);
    }
  }

  // ---------------------------------------------------------------------
  // Mutual agreement and disagreement
  // ---------------------------------------------------------------------

  /** `mutual_agreement_matrix(n, l)`: `n` rows, each `[1, 2, ..., l]`. */
  function Agreement(n: nat, l: nat): (M: Matrix)
    ensures Valid(M) && M.rows == n && M.cols == l
    ensures forall i, j | 0 <= i < n && 0 <= j < l :: M.at[i][j] == j + 1
  {
    Matrix(n, l, seq(n, i => seq(l, j => j + 1)))
  }

  /** `mutual_disagreement_matrix(n, l)`: `n` rows, each `[l, l-1, ..., 1]`. */
  function Disagreement(n: nat, l: nat): (M: Matrix)
    ensures Valid(M) && M.rows == n && M.cols == l
    ensures forall i, j | 0 <= i < n && 0 <= j < l :: M.at[i][j] == l - j
  {
    Matrix(n, l, seq(n, i => seq(l, j => l - j)))
  }

  /** `MAD_distance_between_Ma_Md(n, l)`: `n(l²-1)/2` for odd `l`,
      `n·l²/2` for even `l` (floor division, as Python's `//`). */
  function ClosedForm(n: int, l: int): int {
    if l % 2 == 1 then n * (l * l - 1) / 2 else n * (l * l) / 2
  }

  /** `Σ_{j<k} |2j + c|`. */
  function Odd(c: int, k: nat): nat {
    if k == 0 then 0 else Odd(c, k - 1) + Abs(2 * (k - 1) + c)
  }

  /** Taking the first term off the front. */
  lemma {:induction false} OddFront(c: int, k: nat)
    ensures Odd(c, k + 1) == Abs(c) + Odd(c + 2, k)
  {
    if k > 0 {
      OddFront(c, k - 1);
    }
  }

  /** The row cost of agreement against disagreement, `Σ_{j<l} |2j+1-l|`,
      is `l²/2` rounded down. */
  lemma {:induction false} OddRow(l: nat)
    ensures Odd(1 - l, l) == (l * l) / 2
    decreases l
  {
    if l >= 2 {
      var m := l - 2;
      OddRow(m);
      OddFront(-1 - m, m + 1);
      assert Odd(1 - l, l) == m + 1 + Odd(1 - m, m + 1);
      assert Odd(1 - m, m + 1) == Odd(1 - m, m) + m + 1;
      SquareStep(m);
    }
  }

  /** `(m + 2)^2 / 2` grows from `m^2 / 2` by `2m + 2`, for odd and even `m` alike. */
  lemma SquareStep(m: nat)
    ensures ((m + 2) * (m + 2)) / 2 == (m * m) / 2 + 2 * m + 2
  {
    assert (m + 2) * (m + 2) == m * m + 2 * (2 * m + 2);
  }

  /** One agreement row against one disagreement row, over `k` entries. */
  lemma {:induction false} RowAgainst(l: nat, k: nat)
    requires k <= l
    ensures RowCost(seq(l, j => j + 1), seq(l, j => l - j), k) == Odd(1 - l, k)
  {
    if k > 0 {
      RowAgainst(l, k - 1);
    }
  }

  /** Every pairing costs `k` times the row cost, over the first `k` rows. */
  lemma {:induction false} AgainstAnyPairing(n: nat, l: nat, p: seq<nat>, k: nat)
    requires Pairs(Agreement(n, l), Disagreement(n, l), p) && k <= n
    ensures Cost(Agreement(n, l), Disagreement(n, l), p, k) == k * Odd(1 - l, l)
  {
    if k > 0 {
      var A, D, r := Agreement(n, l), Disagreement(n, l), Odd(1 - l, l);
      assert Cost(A, D, p, k - 1) == (k - 1) * r by {
        AgainstAnyPairing(n, l, p, k - 1);
      }
      assert RowCost(A.at[k - 1], D.at[p[k - 1]], l) == r by {
        RowAgainst(l, l);
        assert A.at[k - 1] == seq(l, j => j + 1);
        assert D.at[p[k - 1]] == seq(l, j => l - j);
      }
      assert k * r == (k - 1) * r + r;
    }
  }

  /** `n · ⌊l²/2⌋` is the closed form. */
  lemma ClosedFormIs(n: nat, l: nat)
    ensures n * ((l * l) / 2) == ClosedForm(n, l)
  {
    if l % 2 == 1 {
      var h := l / 2;
      assert l == 2 * h + 1;
      assert l * l - 1 == 2 * (2 * h * h + 2 * h);
      assert (l * l) / 2 == 2 * h * h + 2 * h;
      assert n * (l * l - 1) == 2 * (n * (2 * h * h + 2 * h));
    } else {
      var h := l / 2;
      assert l * l == 2 * (2 * h * h);
      assert n * (l * l) == 2 * (n * (2 * h * h));
    }
  }

  /** The distance between the agreement and disagreement matrices is the
      closed form: the identity the library checks against. */
  lemma AgreementDisagreement(n: nat, l: nat)
    ensures Distance(Agreement(n, l), Disagreement(n, l)) == Ok(ClosedForm(n, l))
  {
    var A := Agreement(n, l);
    var D := Disagreement(n, l);
    var cs := Costs(A, D);
    PermsOfRange(n, Range(n));
    OddRow(l);
    ClosedFormIs(n, l);
    forall k | 0 <= k < |cs| ensures cs[k] == ClosedForm(n, l) {
      AgainstAnyPairing(n, l, Perms(Range(n))[k], n);
    }
    assert MinOf(cs) in cs;
  }
}
