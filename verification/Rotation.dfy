/** Exchanging two adjacent blocks of an array in place by following gcd cycles:
    `gcd` and `permute_args` of getopt.cpp.

    Positions are counted from the start of the window.  With `n` words in the first block
    and `k` in the second, the word at `p` belongs at `p - n` or `p + k`.  Cut the window into
    rows of `g` words, `g` being the greatest common divisor of `n` and `k`: the exchange then
    leaves the column of a word alone and moves its row inside a ring of `(n + k) / g` rows.
    Every column turns out to be a single cycle. */
module Rotation {

  // ----- the greatest common divisor -----

  /** Euclid's recursion, the meaning of the loop in `gcd`. */
  function Gcd(a: nat, b: nat): (g: nat)
    requires b > 0
    ensures 0 < g <= b
    decreases b
  {
    if a % b == 0 then b else Gcd(b, a % b)
  }

  method ComputeGcd(a: nat, b: nat) returns (g: nat)
    requires b > 0
    ensures g == Gcd(a, b)
  {
    var x, y := a, b;
    var c := x % y;
    while c != 0
      invariant y > 0 && c == x % y
      invariant Gcd(x, y) == Gcd(a, b)
      decreases c
    {
      x := y;
      y := c;
      c := x % y;
    }
    return y;
  }

  /** The quotients by the gcd, and coefficients showing that they are coprime. */
  ghost predicate Bezout(n: nat, k: nat, g: nat, u: nat, v: nat, x: int, y: int) {
    g > 0 && n == g * u && k == g * v && u * x + v * y == 1
  }

  lemma {:induction false} GcdBezout(n: nat, k: nat) returns (u: nat, v: nat, x: int, y: int)
    requires k > 0
    ensures Bezout(n, k, Gcd(n, k), u, v, x, y)
    decreases k
  {
    var g := Gcd(n, k);
    var q := n / k;
    if n % k == 0 {
      u, v, x, y := q, 1, 0, 1;
    } else {
      var u', v', x', y' := GcdBezout(k, n % k);
      u, v, x, y := BezoutStep(n, k, n % k, q, g, u', v', x', y');
    }
  }

  lemma BezoutStep(n: nat, k: nat, r: nat, q: nat, g: nat, u: nat, v: nat, x: int, y: int)
    returns (u': nat, v': nat, x': int, y': int)
    requires n == k * q + r && Bezout(k, r, g, u, v, x, y)
    ensures Bezout(n, k, g, u', v', x', y')
  {
    QuotientStep(g, u, v, q);
    CoefficientStep(u, v, x, y, q);
    NonNegative(u, q);
    u', v', x', y' := u * q + v, u, y, x - q * y;
  }

  lemma NonNegative(a: nat, b: nat)
    ensures a * b >= 0
  {
  }

  lemma QuotientStep(g: int, u: int, v: int, q: int)
    ensures g * (u * q + v) == (g * u) * q + g * v
  {
    var t := u * q;
    assert g * (t + v) == g * t + g * v;
  }

  lemma CoefficientStep(u: int, v: int, x: int, y: int, q: int)
    ensures (u * q + v) * y + u * (x - q * y) == u * x + v * y
  {
    var t := q * y;
    assert (u * q + v) * y == u * t + v * y;
  }

  /** `Gcd` divides both arguments, and every common divisor divides it. */
  lemma GcdIsGreatest(n: nat, k: nat, d: nat)
    requires k > 0
    ensures n % Gcd(n, k) == 0 && k % Gcd(n, k) == 0
    ensures 0 < d && n % d == 0 && k % d == 0 ==> Gcd(n, k) % d == 0
  {
    var g := Gcd(n, k);
    var u, v, x, y := GcdBezout(n, k);
    ModOf(n, g, u, 0);
    ModOf(k, g, v, 0);
    if 0 < d && n % d == 0 && k % d == 0 {
      CommonDivisor(n, k, g, u, v, x, y, d, n / d, k / d);
      ModOf(g, d, n / d * x + k / d * y, 0);
    }
  }

  lemma CommonDivisor(n: nat, k: nat, g: nat, u: nat, v: nat, x: int, y: int, d: nat, a: nat, b: nat)
    requires Bezout(n, k, g, u, v, x, y) && n == d * a && k == d * b
    ensures g == d * (a * x + b * y)
  {
    var one := u * x + v * y;
    assert g * one == g;
    assert g * (u * x + v * y) == (g * u) * x + (g * v) * y;
    assert (d * a) * x + (d * b) * y == d * (a * x + b * y);
  }

  lemma SmallMultiple(d: int, e: int)
    requires -d < d * e < d
    ensures e == 0
  {
  }

  /** The remainder is pinned by any way of writing the dividend. */
  lemma ModOf(a: int, d: int, q: int, r: int)
    requires d > 0 && a == d * q + r && 0 <= r < d
    ensures a % d == r && a / d == q
  {
    var e := a / d - q;
    assert d * e == r - a % d;
    SmallMultiple(d, e);
  }

  // ----- one column: a ring of u + v rows -----

  /** The row a row is moved to. */
  function Hop(u: nat, v: nat, w: nat): (w': nat)
    requires w < u + v
    ensures w' < u + v
  {
    if w >= u then w - u else w + v
  }

  /** The row a row came from. */
  function Back(u: nat, v: nat, w: nat): (w': nat)
    requires w < u + v
    ensures w' < u + v && Hop(u, v, w') == w
  {
    if w >= v then w - v else w + u
  }

  /** The row reached from row `u` in `t` hops. */
  function Orbit(u: nat, v: nat, t: nat): (w: nat)
    requires v > 0
    ensures w < u + v
  {
    if t == 0 then u else Hop(u, v, Orbit(u, v, t - 1))
  }

  /** The orbit is one cycle: distinct stops that reach every row, and then row `u` again. */
  ghost predicate OneCycle(u: nat, v: nat) {
    && v > 0
    && (forall s: nat, t: nat | s < t < u + v :: Orbit(u, v, s) != Orbit(u, v, t))
    && (forall w: nat | w < u + v :: Reached(u, v, w))
    && Orbit(u, v, u + v) == u
  }

  ghost predicate Reached(u: nat, v: nat, w: nat)
    requires v > 0
  {
    exists t: nat | t < u + v :: Orbit(u, v, t) == w
  }

  ghost predicate Inverse(u: nat, v: nat, z: int, m: int) {
    v > 0 && v * z == 1 + m * (u + v)
  }

  lemma BezoutInverse(u: nat, v: nat, x: int, y: int)
    requires v > 0 && u * x + v * y == 1
    ensures Inverse(u, v, y - x, -x)
  {
    assert v * (y - x) == v * y - v * x;
    assert -x * (u + v) == -(u * x) - v * x;
  }

  lemma {:induction false} OrbitClosed(u: nat, v: nat, t: nat) returns (q: int)
    requires v > 0
    ensures u + t * v == (u + v) * q + Orbit(u, v, t)
  {
    if t == 0 {
      q := 0;
    } else {
      var q' := OrbitClosed(u, v, t - 1);
      q := if Orbit(u, v, t - 1) >= u then q' + 1 else q';
      assert t * v == (t - 1) * v + v;
      assert (u + v) * (q' + 1) == (u + v) * q' + (u + v);
    }
  }

  /** Multiplying by `v` and then by its inverse changes nothing in the ring. */
  lemma CancelInverse(t: int, v: int, z: int, m: int, l: int, q: int)
    requires v * z == 1 + m * l
    ensures (t * v - l * q) * z == l * (t * m - q * z) + t
  {
    var e := v * z;
    assert (t * v - l * q) * z == t * e - l * (q * z);
    assert t * (1 + m * l) == t + l * (t * m);
  }

  lemma OrbitIndex(u: nat, v: nat, z: int, m: int, t: nat)
    requires Inverse(u, v, z, m) && t < u + v
    ensures ((Orbit(u, v, t) - u) * z) % (u + v) == t
  {
    var q := OrbitClosed(u, v, t);
    CancelInverse(t, v, z, m, u + v, q);
    ModOf((Orbit(u, v, t) - u) * z, u + v, t * m - q * z, t);
  }

  lemma OrbitReaches(u: nat, v: nat, z: int, m: int, w: nat)
    requires Inverse(u, v, z, m) && w < u + v
    ensures Reached(u, v, w)
  {
    var l, d := u + v, w - u;
    var t, q := d * z % l, d * z / l;
    assert t == d * z - l * q;
    CancelInverse(d, z, v, m, l, q);
    assert u + t * v == l * (d * m - q * v) + w;
    var p := OrbitClosed(u, v, t);
    ModOf(u + t * v, l, p, Orbit(u, v, t));
    ModOf(u + t * v, l, d * m - q * v, w);
    assert Orbit(u, v, t) == w;
  }

  lemma OrbitReturns(u: nat, v: nat)
    requires v > 0
    ensures Orbit(u, v, u + v) == u
  {
    var l := u + v;
    var p := OrbitClosed(u, v, l);
    ModOf(u + l * v, l, p, Orbit(u, v, l));
    ModOf(u + l * v, l, v, u);
  }

  lemma CoprimeIsOneCycle(u: nat, v: nat, x: int, y: int)
    requires v > 0 && u * x + v * y == 1
    ensures OneCycle(u, v)
  {
    BezoutInverse(u, v, x, y);
    forall s: nat, t: nat | s < t < u + v
      ensures Orbit(u, v, s) != Orbit(u, v, t)
    {
      OrbitIndex(u, v, y - x, -x, s);
      OrbitIndex(u, v, y - x, -x, t);
    }
    forall w: nat | w < u + v ensures Reached(u, v, w) {
      OrbitReaches(u, v, y - x, -x, w);
    }
    OrbitReturns(u, v);
  }

  /** The number of hops from row `u` to row `w`. */
  ghost function Index(u: nat, v: nat, w: nat): (t: nat)
    requires OneCycle(u, v) && w < u + v
    ensures t < u + v && Orbit(u, v, t) == w
  {
    assert Reached(u, v, w);
    var t: nat :| t < u + v && Orbit(u, v, t) == w;
    t
  }

  lemma IndexUnique(u: nat, v: nat, t: nat)
    requires OneCycle(u, v) && t < u + v
    ensures Index(u, v, Orbit(u, v, t)) == t
  {
  }

  /** Which row's word is in row `w` after `j` swaps of the cycle that starts at row `u`. */
  ghost function RowSource(u: nat, v: nat, w: nat, j: nat): (w': nat)
    requires OneCycle(u, v) && w < u + v
    ensures w' < u + v
  {
    if w == u then Orbit(u, v, if j < u + v then j else u + v - 1)
    else if Index(u, v, w) <= j then Back(u, v, w)
    else w
  }

  lemma RowSourceAtStart(u: nat, v: nat, w: nat)
    requires OneCycle(u, v) && w < u + v
    ensures RowSource(u, v, w, 0) == w
  {
    assert Orbit(u, v, 0) == u;
  }

  /** One swap, between row `u` and the next stop of the orbit. */
  lemma RowSourceStep(u: nat, v: nat, w: nat, j: nat)
    requires OneCycle(u, v) && w < u + v && j < u + v
    ensures var next := Orbit(u, v, j + 1);
            RowSource(u, v, w, j + 1) == if w == u then RowSource(u, v, next, j)
                                         else if w == next then RowSource(u, v, u, j)
                                         else RowSource(u, v, w, j)
  {
    var next := Orbit(u, v, j + 1);
    if j + 1 < u + v {
      assert Index(u, v, next) == j + 1;
      assert Orbit(u, v, 0) == u != next;
    }
  }

  /** Once the orbit has come round, every row holds the word that hops to it. */
  lemma RowSourceDone(u: nat, v: nat, w: nat)
    requires OneCycle(u, v) && w < u + v
    ensures RowSource(u, v, w, u + v) == Back(u, v, w)
  {
  }

  // ----- the columns of the window -----

  /** `g * w`, spelled out so that everything below stays linear. */
  function Times(g: nat, w: nat): nat {
    if w == 0 then 0 else Times(g, w - 1) + g
  }

  lemma {:induction false} TimesIsProduct(g: nat, w: nat)
    ensures Times(g, w) == g * w
  {
    if w > 0 {
      TimesIsProduct(g, w - 1);
      assert g * w == g * (w - 1) + g;
    }
  }

  lemma {:induction false} TimesSum(g: nat, a: nat, b: nat)
    ensures Times(g, a + b) == Times(g, a) + Times(g, b)
  {
    if b > 0 {
      TimesSum(g, a, b - 1);
      assert a + b - 1 == a + (b - 1);
    }
  }

  function Row(g: nat, p: nat): nat
    requires g > 0
  {
    if p < g then 0 else Row(g, p - g) + 1
  }

  function Col(g: nat, p: nat): (r: nat)
    requires g > 0
    ensures r < g
  {
    if p < g then p else Col(g, p - g)
  }

  lemma {:induction false} CellParts(g: nat, w: nat, r: nat)
    requires r < g
    ensures Row(g, Times(g, w) + r) == w && Col(g, Times(g, w) + r) == r
  {
    if w > 0 {
      CellParts(g, w - 1, r);
      assert Times(g, w) + r - g == Times(g, w - 1) + r;
    }
  }

  lemma {:induction false} RowCol(g: nat, p: nat)
    requires g > 0
    ensures p == Times(g, Row(g, p)) + Col(g, p)
  {
    if p >= g {
      RowCol(g, p - g);
    }
  }

  /** A window of `g * u` words followed by `g * v` words, seen as `g` columns of `u + v` rows. */
  datatype Columns = Columns(g: nat, u: nat, v: nat) {
    ghost predicate Valid() {
      g > 0 && OneCycle(u, v)
    }

    function Rows(): nat { u + v }

    function Size(): nat { Times(g, u + v) }

    function Cell(w: nat, r: nat): nat { Times(g, w) + r }

    /** The position of the `j`th stop of the `i`th cycle. */
    ghost function Stop(i: nat, j: nat): nat
      requires Valid()
    {
      Cell(Orbit(u, v, j), i)
    }

    lemma CellInRange(w: nat, r: nat)
      requires r < g && w < Rows()
      ensures Cell(w, r) < Size() && Row(g, Cell(w, r)) == w && Col(g, Cell(w, r)) == r
      ensures Cell(w, r) >= Times(g, u) <==> w >= u
    {
      CellParts(g, w, r);
      TimesSum(g, w + 1, Rows() - (w + 1));
      if w >= u {
        TimesSum(g, u, w - u);
      } else {
        TimesSum(g, w + 1, u - (w + 1));
      }
    }

    lemma RowInRange(p: nat)
      requires g > 0 && p < Size()
      ensures Row(g, p) < Rows() && p == Cell(Row(g, p), Col(g, p))
    {
      RowCol(g, p);
      if Row(g, p) >= Rows() {
        TimesSum(g, Rows(), Row(g, p) - Rows());
      }
    }

    /** A hop of the row is what moves the word from one block across the other. */
    lemma HopOfCell(w: nat, r: nat)
      requires r < g && w < Rows()
      ensures var p := Cell(w, r);
              p < Size() && Cell(Hop(u, v, w), r) < Size()
              && Cell(Hop(u, v, w), r) == if p >= Times(g, u) then p - Times(g, u) else p + Times(g, v)
    {
      CellInRange(w, r);
      CellInRange(Hop(u, v, w), r);
      if w >= u {
        TimesSum(g, u, w - u);
      } else {
        TimesSum(g, w, v);
      }
    }

    /** Which word is at `p` when `i` cycles are finished and `j` swaps of the next one are. */
    ghost function Source(p: nat, i: nat, j: nat): (q: nat)
      requires Valid() && p < Size()
      ensures q < Size()
    {
      RowInRange(p);
      var r, w := Col(g, p), Row(g, p);
      var w' := if r < i then Back(u, v, w) else if r > i then w else RowSource(u, v, w, j);
      CellInRange(w', r);
      Cell(w', r)
    }

    lemma SourceAtStart(p: nat)
      requires Valid() && p < Size()
      ensures Source(p, 0, 0) == p
    {
      RowInRange(p);
      RowSourceAtStart(u, v, Row(g, p));
    }

    /** The effect of one swap, between the cycle's starting cell and its next stop. */
    lemma SwapStep(p: nat, i: nat, j: nat, c: nat, next: nat)
      requires Valid() && p < Size() && i < g && j < Rows()
      requires c == Stop(i, 0) && next == Stop(i, j + 1)
      ensures c < Size() && next < Size()
      ensures Source(p, i, j + 1) == if p == c then Source(next, i, j)
                                     else if p == next then Source(c, i, j)
                                     else Source(p, i, j)
    {
      CellInRange(u, i);
      CellInRange(Orbit(u, v, j + 1), i);
      RowInRange(p);
      if Col(g, p) == i {
        RowSourceStep(u, v, Row(g, p), j);
      }
    }

    /** The `g` cycles are disjoint, and each makes `Rows()` distinct stops. */
    lemma StopsDiffer(i: nat, t: nat, i': nat, t': nat)
      requires Valid() && i < g && t < Rows() && i' < g && t' < Rows()
      requires Stop(i, t) == Stop(i', t')
      ensures i == i' && t == t'
    {
      CellInRange(Orbit(u, v, t), i);
      CellInRange(Orbit(u, v, t'), i');
      IndexUnique(u, v, t);
      IndexUnique(u, v, t');
    }

    /** Together they stop at every position of the window, and then are back where they started. */
    lemma StopsCover(p: nat) returns (i: nat, t: nat)
      requires Valid() && p < Size()
      ensures i < g && t < Rows() && Stop(i, t) == p
      ensures Stop(i, Rows()) == Stop(i, 0)
    {
      RowInRange(p);
      i, t := Col(g, p), Index(u, v, Row(g, p));
    }

    /** A finished cycle has put every word of its column in place. */
    lemma ColumnDone(p: nat, i: nat)
      requires Valid() && p < Size() && i < g
      ensures Source(p, i, Rows()) == Source(p, i + 1, 0)
    {
      RowInRange(p);
      RowSourceDone(u, v, Row(g, p));
      RowSourceAtStart(u, v, Row(g, p));
    }

    /** In the end the word at `p` is the one that belongs there. */
    lemma WindowDone(p: nat)
      requires Valid() && p < Size()
      ensures var q := Source(p, g, 0);
              p == if q >= Times(g, u) then q - Times(g, u) else q + Times(g, v)
    {
      RowInRange(p);
      HopOfCell(Back(u, v, Row(g, p)), Col(g, p));
    }
  }

  /** The gcd cuts a window of `n` and `k` words into columns that are single cycles. */
  lemma ColumnsOf(n: nat, k: nat) returns (cs: Columns)
    requires k > 0
    ensures cs.Valid() && cs.g == Gcd(n, k)
    ensures n == Times(cs.g, cs.u) && k == Times(cs.g, cs.v)
    ensures cs.Size() == n + k && (n + k) / cs.g == cs.Rows()
  {
    var g := Gcd(n, k);
    var u, v, x, y := GcdBezout(n, k);
    assert v > 0;
    CoprimeIsOneCycle(u, v, x, y);
    cs := Columns(g, u, v);
    TimesIsProduct(g, u);
    TimesIsProduct(g, v);
    TimesSum(g, u, v);
    assert g * (u + v) == g * u + g * v;
    ModOf(n + k, g, u + v, 0);
  }

  // ----- the exchange -----

  /** The sequence with the blocks `a..b` and `b..c` exchanged. */
  function Exchanged<T>(s: seq<T>, a: nat, b: nat, c: nat): (r: seq<T>)
    requires a <= b <= c <= |s|
    ensures |r| == |s|
  {
    s[..a] + s[b..c] + s[a..b] + s[c..]
  }

  /** `now` is the window `was` with `i` cycles finished and `j` swaps of the next. */
  ghost predicate Progress<T>(was: seq<T>, now: seq<T>, cs: Columns, i: nat, j: nat)
    requires cs.Valid() && |was| == cs.Size()
  {
    |now| == |was| && forall p: nat | p < |was| :: now[p] == was[cs.Source(p, i, j)]
  }

  lemma ProgressStart<T>(was: seq<T>, cs: Columns)
    requires cs.Valid() && |was| == cs.Size()
    ensures Progress(was, was, cs, 0, 0)
  {
    forall p: nat | p < |was| ensures was[p] == was[cs.Source(p, 0, 0)] {
      cs.SourceAtStart(p);
    }
  }

  lemma ProgressSwap<T>(was: seq<T>, now: seq<T>, cs: Columns, i: nat, j: nat, c: nat, next: nat)
    requires cs.Valid() && |was| == cs.Size() && i < cs.g && j < cs.Rows()
    requires c == cs.Stop(i, 0) < |was| && next == cs.Stop(i, j + 1) < |was|
    requires Progress(was, now, cs, i, j)
    ensures Progress(was, now[next := now[c]][c := now[next]], cs, i, j + 1)
  {
    var swapped := now[next := now[c]][c := now[next]];
    forall p: nat | p < |was| ensures swapped[p] == was[cs.Source(p, i, j + 1)] {
      cs.SwapStep(p, i, j, c, next);
    }
  }

  lemma ProgressColumn<T>(was: seq<T>, now: seq<T>, cs: Columns, i: nat)
    requires cs.Valid() && |was| == cs.Size() && i < cs.g
    requires Progress(was, now, cs, i, cs.Rows())
    ensures Progress(was, now, cs, i + 1, 0)
  {
    forall p: nat | p < |was| ensures now[p] == was[cs.Source(p, i + 1, 0)] {
      cs.ColumnDone(p, i);
    }
  }

  lemma ProgressDone<T>(was: seq<T>, now: seq<T>, cs: Columns, n: nat)
    requires cs.Valid() && |was| == cs.Size() && n == Times(cs.g, cs.u) <= |was|
    requires Progress(was, now, cs, cs.g, 0)
    ensures now == was[n..] + was[..n]
  {
    TimesSum(cs.g, cs.u, cs.v);
    forall p: nat | p < |was| ensures now[p] == (was[n..] + was[..n])[p] {
      cs.WindowDone(p);
    }
  }

  /** The array `cur` while the window `start..stop` of `all` is being exchanged. */
  ghost predicate Exchanging<T>(all: seq<T>, cur: seq<T>, start: nat, mid: nat, stop: nat, cs: Columns, i: nat, j: nat)
  {
    && Cut(start, mid, stop, cs) && stop <= |all| == |cur|
    && cur[..start] == all[..start] && cur[stop..] == all[stop..]
    && Progress(all[start..stop], cur[start..stop], cs, i, j)
  }

  ghost predicate Cut(start: nat, mid: nat, stop: nat, cs: Columns) {
    && start <= mid < stop && cs.Valid()
    && Times(cs.g, cs.u) == mid - start && Times(cs.g, cs.v) == stop - mid && cs.Size() == stop - start
  }

  /** The positions of the stops, as `permute_args` steps from one to the next. */
  lemma NextStop(start: nat, mid: nat, stop: nat, cs: Columns, i: nat, j: nat)
    requires Cut(start, mid, stop, cs) && i < cs.g
    ensures start + cs.Stop(i, 0) == mid + i < stop && start + cs.Stop(i, j) < stop
    ensures var pos := start + cs.Stop(i, j);
            start + cs.Stop(i, j + 1) == (if pos >= mid then pos - (mid - start) else pos + (stop - mid)) < stop
  {
    cs.CellInRange(cs.u, i);
    cs.HopOfCell(Orbit(cs.u, cs.v, j), i);
  }

  lemma ExchangingSwap<T>(all: seq<T>, cur: seq<T>, start: nat, mid: nat, stop: nat, cs: Columns, i: nat, j: nat,
                          cstart: nat, pos: nat)
    requires Exchanging(all, cur, start, mid, stop, cs, i, j) && i < cs.g && j < cs.Rows()
    requires cstart == start + cs.Stop(i, 0) < stop && pos == start + cs.Stop(i, j + 1) < stop
    ensures Exchanging(all, cur[pos := cur[cstart]][cstart := cur[pos]], start, mid, stop, cs, i, j + 1)
  {
    var now, c, next := cur[start..stop], cstart - start, pos - start;
    ProgressSwap(all[start..stop], now, cs, i, j, c, next);
    var swapped := cur[pos := cur[cstart]][cstart := cur[pos]];
    assert swapped[start..stop] == now[next := now[c]][c := now[next]];
  }

  lemma ExchangingDone<T>(all: seq<T>, cur: seq<T>, start: nat, mid: nat, stop: nat, cs: Columns)
    requires Exchanging(all, cur, start, mid, stop, cs, cs.g, 0)
    ensures cur == Exchanged(all, start, mid, stop)
  {
    var was := all[start..stop];
    ProgressDone(was, cur[start..stop], cs, mid - start);
    assert was[mid - start..] == all[mid..stop] && was[..mid - start] == all[start..mid];
    assert cur == cur[..start] + cur[start..stop] + cur[stop..];
  }

  method Swap<T>(a: array<T>, pos: nat, cstart: nat)
    requires pos < a.Length && cstart < a.Length
    modifies a
    ensures a[..] == old(a[..])[pos := old(a[cstart])][cstart := old(a[pos])]
  {
    var swap := a[pos];
    a[pos] := a[cstart];
    a[cstart] := swap;
  }

  /** One pass of the outer loop: the words of cycle `i` each move to their place. */
  method FollowCycle<T>(start: nat, mid: nat, stop: nat, cyclelen: nat, i: nat, nargv: array<T>,
                        ghost all: seq<T>, ghost cs: Columns)
    requires stop <= nargv.Length && i < cs.g && cyclelen == cs.Rows()
    requires Exchanging(all, nargv[..], start, mid, stop, cs, i, 0)
    modifies nargv
    ensures Exchanging(all, nargv[..], start, mid, stop, cs, i + 1, 0)
  {
    var nnonopts, nopts := mid - start, stop - mid;
    var cstart := mid + i;
    var pos := cstart;
    NextStop(start, mid, stop, cs, i, 0);
    for j := 0 to cyclelen
      invariant pos == start + cs.Stop(i, j)
      invariant Exchanging(all, nargv[..], start, mid, stop, cs, i, j)
    {
      NextStop(start, mid, stop, cs, i, j);
      if pos >= mid {
        pos := pos - nnonopts;
      } else {
        pos := pos + nopts;
      }
      ExchangingSwap(all, nargv[..], start, mid, stop, cs, i, j, cstart, pos);
      Swap(nargv, pos, cstart);
    }
    ProgressColumn(all[start..stop], nargv[..][start..stop], cs, i);
  }

  method PermuteArgs<T>(nonoptStart: nat, nonoptEnd: nat, optEnd: nat, nargv: array<T>)
    requires nonoptStart <= nonoptEnd < optEnd <= nargv.Length
    modifies nargv
    ensures nargv[..] == Exchanged(old(nargv[..]), nonoptStart, nonoptEnd, optEnd)
  {
    var nnonopts := nonoptEnd - nonoptStart;
    var nopts := optEnd - nonoptEnd;
    var ncycle := ComputeGcd(nnonopts, nopts);
    var cyclelen := (optEnd - nonoptStart) / ncycle;
    ghost var cs := ColumnsOf(nnonopts, nopts);
    ghost var all := nargv[..];
    ProgressStart(all[nonoptStart..optEnd], cs);
    for i := 0 to ncycle
      invariant Exchanging(all, nargv[..], nonoptStart, nonoptEnd, optEnd, cs, i, 0)
    {
      FollowCycle(nonoptStart, nonoptEnd, optEnd, cyclelen, i, nargv, all, cs);
    }
    ExchangingDone(all, nargv[..], nonoptStart, nonoptEnd, optEnd, cs);
  }
}
