/**
 * The `matmul` benchmark: rows pulled off a shared counter, written in place into one flat array.
 * Addition and multiplication are parameters, so the result is the same sum in the same order
 * whatever they round.
 */
module MatmulKernel {
  import opened Wrappers
  import opened WorkPool
  import opened Arithmetic

  /** Two `n` by `n` matrices to multiply, and the arithmetic to do it with. */
  datatype Product<!F> = Product(zero: F, add: (F, F) -> F, mul: (F, F) -> F, a: seq<F>, b: seq<F>, n: nat) {
    predicate Square() {
      |a| == |b| == n * n
    }
  }

  lemma RowEnds(n: nat, i: nat)
    requires i < n
    ensures i * n + n <= n * n
  {
    assert (i + 1) * n <= n * n;
  }

  /** Where the cell of row `i` and column `j` lies in a flat array. */
  function At(n: nat, i: nat, j: nat): (at: nat)
    requires i < n && j < n
    ensures at < n * n
  {
    RowEnds(n, i);
    i * n + j
  }

  lemma RowsAreDisjoint(n: nat, i: nat, j: nat, k: nat, l: nat)
    requires i < n && j < n && k < n && l < n && At(n, i, j) == At(n, k, l)
    ensures i == k && j == l
  {
    ModUnique(At(n, i, j), i, j, n);
    ModUnique(At(n, i, j), k, l, n);
  }

  /** The first `k` terms of row `i` of `a` times column `j` of `b`, added up from the left. */
  function Dot<F>(p: Product<F>, i: nat, j: nat, k: nat): F
    requires p.Square() && i < p.n && j < p.n && k <= p.n
  {
    if k == 0 then p.zero
    else p.add(Dot(p, i, j, k - 1), p.mul(p.a[At(p.n, i, k - 1)], p.b[At(p.n, k - 1, j)]))
  }

  ghost predicate IsTransposed<F>(b: seq<F>, bt: seq<F>, n: nat) {
    |b| == |bt| == n * n && forall i, j | 0 <= i < n && 0 <= j < n :: bt[At(n, j, i)] == b[At(n, i, j)]
  }

  method Transpose<F>(b: seq<F>, n: nat, zero: F) returns (bt: array<F>)
    requires |b| == n * n
    ensures fresh(bt) && IsTransposed(b, bt[..], n)
  {
    bt := new F[n * n](_ => zero);
    for i := 0 to n
      invariant forall k, l | 0 <= k < i && 0 <= l < n :: bt[At(n, l, k)] == b[At(n, k, l)]
    {
      for j := 0 to n
        invariant forall k, l | 0 <= k < i && 0 <= l < n :: bt[At(n, l, k)] == b[At(n, k, l)]
        invariant forall l | 0 <= l < j :: bt[At(n, l, i)] == b[At(n, i, l)]
      {
        forall k, l | 0 <= k < n && 0 <= l < n && At(n, l, k) == At(n, j, i)
          ensures k == i && l == j
        {
          RowsAreDisjoint(n, l, k, j, i);
        }
        bt[At(n, j, i)] := b[At(n, i, j)];
      }
    }
  }

  /** The inner loop: row `i` of `a` against row `j` of the transposed copy. */
  method Cell<F>(p: Product<F>, bt: array<F>, i: nat, j: nat) returns (acc: F)
    requires p.Square() && IsTransposed(p.b, bt[..], p.n) && i < p.n && j < p.n
    ensures acc == Dot(p, i, j, p.n)
  {
    acc := p.zero;
    for k := 0 to p.n
      invariant acc == Dot(p, i, j, k)
    {
      assert bt[..][At(p.n, j, k)] == p.b[At(p.n, k, j)];
      acc := p.add(acc, p.mul(p.a[At(p.n, i, k)], bt[At(p.n, j, k)]));
    }
  }

  /** A cell whose row is not handed out yet, or that the thread holding the row has not reached. */
  ghost predicate Pending(given: nat, claims: seq<Option<nat>>, columns: seq<nat>, i: nat, j: nat) {
    || i >= given
    || exists t :: 0 <= t < |claims| && t < |columns| && claims[t] == Some(i) && columns[t] <= j
  }

  /** Every cell that is not pending holds its dot product. */
  ghost predicate Filled<F>(p: Product<F>, c: seq<F>, given: nat, claims: seq<Option<nat>>, columns: seq<nat>)
    requires p.Square() && |c| == p.n * p.n
  {
    forall i, j | 0 <= i < p.n && 0 <= j < p.n && !Pending(given, claims, columns, i, j) ::
      c[At(p.n, i, j)] == Dot(p, i, j, p.n)
  }

  /** What is pending stays so when thread `t`, which holds no row, gets row `given`. */
  lemma ClaimKeepsPending(given: nat, claims: seq<Option<nat>>, columns: seq<nat>, t: nat, i: nat, j: nat)
    requires |claims| == |columns| > t && claims[t].None? && Pending(given, claims, columns, i, j)
    ensures Pending(given + 1, claims[t := Some(given)], columns[t := 0], i, j)
  {
    var claims', columns' := claims[t := Some(given)], columns[t := 0];
    if i >= given {
      assert i == given ==> claims'[t] == Some(i) && columns'[t] <= j;
    } else {
      var u :| 0 <= u < |claims| && claims[u] == Some(i) && columns[u] <= j;
      assert claims'[u] == Some(i) && columns'[u] <= j;
    }
  }

  /** Cells other than the one thread `t` is at stay pending when it moves on. */
  lemma MoveKeepsPending(given: nat, claims: seq<Option<nat>>, columns: seq<nat>, t: nat, i: nat, j: nat)
    requires |claims| == |columns| > t && Pending(given, claims, columns, i, j)
    requires claims[t] != Some(i) || columns[t] != j
    ensures Pending(given, claims, columns[t := columns[t] + 1], i, j)
  {
    if i < given {
      var u :| 0 <= u < |claims| && claims[u] == Some(i) && columns[u] <= j;
      assert columns[t := columns[t] + 1][u] <= j;
    }
  }

  /** What is pending stays so when thread `t`, past the last column, lets its row go. */
  lemma ReleaseKeepsPending(given: nat, claims: seq<Option<nat>>, columns: seq<nat>, t: nat, i: nat, j: nat)
    requires |claims| == |columns| > t && j < columns[t] && Pending(given, claims, columns, i, j)
    ensures Pending(given, claims[t := None], columns, i, j)
  {
    if i < given {
      var u :| 0 <= u < |claims| && claims[u] == Some(i) && columns[u] <= j;
      assert claims[t := None][u] == Some(i);
    }
  }

  lemma ClaimKeepsFilled<F>(
    p: Product<F>, c: seq<F>, given: nat, claims: seq<Option<nat>>, columns: seq<nat>, t: nat)
    requires p.Square() && |c| == p.n * p.n && |claims| == |columns| > t && claims[t].None?
    requires Filled(p, c, given, claims, columns)
    ensures Filled(p, c, given + 1, claims[t := Some(given)], columns[t := 0])
  {
    forall i: nat, j: nat | Pending(given, claims, columns, i, j)
      ensures Pending(given + 1, claims[t := Some(given)], columns[t := 0], i, j)
    {
      ClaimKeepsPending(given, claims, columns, t, i, j);
    }
  }

  lemma ReleaseKeepsFilled<F>(
    p: Product<F>, c: seq<F>, given: nat, claims: seq<Option<nat>>, columns: seq<nat>, t: nat)
    requires p.Square() && |c| == p.n * p.n && |claims| == |columns| > t && columns[t] >= p.n
    requires Filled(p, c, given, claims, columns)
    ensures Filled(p, c, given, claims[t := None], columns)
  {
    forall i: nat, j: nat | j < p.n && Pending(given, claims, columns, i, j)
      ensures Pending(given, claims[t := None], columns, i, j)
    {
      ReleaseKeepsPending(given, claims, columns, t, i, j);
    }
  }

  lemma OtherCell(n: nat, i: nat, j: nat, k: nat, l: nat)
    requires i < n && j < n && k < n && l < n && (k != i || l != j)
    ensures At(n, k, l) != At(n, i, j)
  {
    if At(n, k, l) == At(n, i, j) { RowsAreDisjoint(n, k, l, i, j); }
  }

  /** A write to one cell touches no other: the rows of two threads never overlap. */
  lemma WriteKeepsFilled<F>(
    p: Product<F>, c: seq<F>, given: nat, claims: seq<Option<nat>>, columns: seq<nat>, t: nat, i: nat, j: nat)
    requires p.Square() && |c| == p.n * p.n && |claims| == |columns| > t
    requires claims[t] == Some(i) && i < p.n && j == columns[t] < p.n && Filled(p, c, given, claims, columns)
    ensures Filled(p, c[At(p.n, i, j) := Dot(p, i, j, p.n)], given, claims, columns[t := j + 1])
  {
    var c' := c[At(p.n, i, j) := Dot(p, i, j, p.n)];
    forall k, l | 0 <= k < p.n && 0 <= l < p.n && !Pending(given, claims, columns[t := j + 1], k, l)
      ensures c'[At(p.n, k, l)] == Dot(p, k, l, p.n)
    {
      if k != i || l != j {
        OtherCell(p.n, i, j, k, l);
        if Pending(given, claims, columns, k, l) {
          MoveKeepsPending(given, claims, columns, t, k, l);
        }
      }
    }
  }

  function Rest(n: nat): nat -> nat {
    (column: nat) => if column < n then n - column else 0
  }

  lemma RestShrinks(n: nat, columns: seq<nat>, t: nat, next: nat)
    requires t < |columns| && columns[t] < n && next == columns[t] + 1
    ensures Sum(columns[t := next], Rest(n)) < Sum(columns, Rest(n))
  {
    SumUpdate(columns, Rest(n), t, next);
    assert Rest(n)(next) == n - next && Rest(n)(columns[t]) == n - columns[t];
  }

  /** What holds between two steps of the threads. */
  ghost predicate Consistent<F>(p: Product<F>, c: seq<F>, pool: Pool, columns: seq<nat>)
    reads pool
  {
    && p.Square() && |c| == p.n * p.n && pool.Valid() && pool.size == p.n && |columns| == pool.threads
    && Filled(p, c, |pool.owner|, pool.claims, columns)
  }

  /** Thread `t` asks for its next row. */
  method AskForRow<F>(p: Product<F>, ghost c: seq<F>, pool: Pool, columns: seq<nat>, t: nat) returns (after: seq<nat>)
    requires Consistent(p, c, pool, columns) && t < pool.threads && !pool.stopped[t] && pool.claims[t].None?
    modifies pool
    ensures Consistent(p, c, pool, after) && pool.Left() < old(pool.Left())
  {
    ClaimKeepsFilled(p, c, |pool.owner|, pool.claims, columns, t);
    after := if pool.next < p.n then columns[t := 0] else columns;
    pool.Claim(t);
  }

  /** One cell worked out and written in place. */
  method PutCell<F>(p: Product<F>, bt: array<F>, c: array<F>, i: nat, j: nat)
    requires p.Square() && c.Length == p.n * p.n && c != bt && IsTransposed(p.b, bt[..], p.n) && i < p.n && j < p.n
    modifies c
    ensures c[..] == old(c[..])[At(p.n, i, j) := Dot(p, i, j, p.n)]
  {
    var acc := Cell(p, bt, i, j);
    c[At(p.n, i, j)] := acc;
  }

  /** Thread `t` writes the next cell of its row. */
  method WriteCell<F>(p: Product<F>, bt: array<F>, c: array<F>, pool: Pool, columns: seq<nat>, t: nat)
    returns (after: seq<nat>)
    requires Consistent(p, c[..], pool, columns) && c != bt && IsTransposed(p.b, bt[..], p.n)
    requires t < pool.threads && pool.claims[t].Some? && columns[t] < p.n
    modifies c
    ensures Consistent(p, c[..], pool, after) && Sum(after, Rest(p.n)) < Sum(columns, Rest(p.n))
  {
    var i, j: nat := pool.claims[t].value, columns[t];
    var next: nat := j + 1;
    WriteKeepsFilled(p, c[..], |pool.owner|, pool.claims, columns, t, i, j);
    RestShrinks(p.n, columns, t, next);
    PutCell(p, bt, c, i, j);
    after := columns[t := next];
  }

  /** Thread `t` is through with its row. */
  method FinishRow<F>(p: Product<F>, ghost c: seq<F>, pool: Pool, columns: seq<nat>, t: nat)
    requires Consistent(p, c, pool, columns) && t < pool.threads && pool.claims[t].Some? && columns[t] >= p.n
    modifies pool
    ensures Consistent(p, c, pool, columns) && pool.Left() < old(pool.Left())
  {
    ReleaseKeepsFilled(p, c, |pool.owner|, pool.claims, columns, t);
    pool.Release(t);
  }

  /** Once every thread has stopped, no cell is pending. */
  lemma StoppedMeansFilled<F>(p: Product<F>, c: seq<F>, pool: Pool, columns: seq<nat>, i: nat, j: nat)
    requires Consistent(p, c, pool, columns) && i < p.n && j < p.n
    requires forall t | 0 <= t < pool.threads :: pool.stopped[t]
    ensures c[At(p.n, i, j)] == Dot(p, i, j, p.n)
  {
    assert pool.stopped[0];
    assert !Pending(|pool.owner|, pool.claims, columns, i, j);
  }

  /**
   * For every interleaving of the threads, down to single cells: each cell of the product is the
   * plain row-by-column sum, taken in order.
   */
  method MatmulParallel<F>(p: Product<F>, threads: nat) returns (c: array<F>)
    requires p.Square()
    ensures c.Length == p.n * p.n
    ensures forall i, j | 0 <= i < p.n && 0 <= j < p.n :: c[At(p.n, i, j)] == Dot(p, i, j, p.n)
  {
    var bt := Transpose(p.b, p.n, p.zero);
    c := new F[p.n * p.n](_ => p.zero);
    var pool := new Pool(p.n, Max(threads, 1));
    var columns: seq<nat> := seq<nat>(pool.threads, _ => 0);
    while exists t :: 0 <= t < pool.threads && !pool.stopped[t]
      invariant fresh(pool) && fresh(c) && fresh(bt) && c != bt
      invariant Consistent(p, c[..], pool, columns) && IsTransposed(p.b, bt[..], p.n)
      decreases pool.Left(), Sum(columns, Rest(p.n))
    {
      var t :| 0 <= t < pool.threads && !pool.stopped[t];
      if pool.claims[t].None? {
        columns := AskForRow(p, c[..], pool, columns, t);
      } else if columns[t] < p.n {
        columns := WriteCell(p, bt, c, pool, columns, t);
      } else {
        FinishRow(p, c[..], pool, columns, t);
      }
    }
    forall i, j | 0 <= i < p.n && 0 <= j < p.n
      ensures c[..][At(p.n, i, j)] == Dot(p, i, j, p.n)
    {
      StoppedMeansFilled(p, c[..], pool, columns, i, j);
    }
  }

  // ---- multiplying by one ----------------------------------------------

  /** Cells of an identity matrix; adding zero and multiplying by one or zero do what they should. */
  ghost predicate Neutral<F>(p: Product<F>, one: F, x: F) {
    && p.add(p.zero, x) == x && p.add(x, p.zero) == x
    && p.mul(x, one) == x && p.mul(one, x) == x && p.mul(x, p.zero) == p.zero && p.mul(p.zero, x) == p.zero
  }

  ghost predicate IsIdentity<F>(m: seq<F>, n: nat, zero: F, one: F)
    requires |m| == n * n
  {
    forall i, j | 0 <= i < n && 0 <= j < n :: m[At(n, i, j)] == if i == j then one else zero
  }

  lemma {:induction false} DotWithIdentityRight<F>(p: Product<F>, one: F, i: nat, j: nat, k: nat)
    requires p.Square() && i < p.n && j < p.n && k <= p.n
    requires IsIdentity(p.b, p.n, p.zero, one) && forall x :: Neutral(p, one, x)
    ensures Dot(p, i, j, k) == if j < k then p.a[At(p.n, i, j)] else p.zero
  {
    if k > 0 {
      DotWithIdentityRight(p, one, i, j, k - 1);
      assert Neutral(p, one, p.a[At(p.n, i, k - 1)]) && Neutral(p, one, p.zero) && Neutral(p, one, Dot(p, i, j, k - 1));
    }
  }

  lemma {:induction false} DotWithIdentityLeft<F>(p: Product<F>, one: F, i: nat, j: nat, k: nat)
    requires p.Square() && i < p.n && j < p.n && k <= p.n
    requires IsIdentity(p.a, p.n, p.zero, one) && forall x :: Neutral(p, one, x)
    ensures Dot(p, i, j, k) == if i < k then p.b[At(p.n, i, j)] else p.zero
  {
    if k > 0 {
      DotWithIdentityLeft(p, one, i, j, k - 1);
      assert Neutral(p, one, p.b[At(p.n, k - 1, j)]) && Neutral(p, one, p.zero) && Neutral(p, one, Dot(p, i, j, k - 1));
    }
  }

  /** A product with the identity on either side is the other matrix, cell by cell. */
  lemma ProductWithIdentity<F>(p: Product<F>, one: F, i: nat, j: nat)
    requires p.Square() && i < p.n && j < p.n && forall x :: Neutral(p, one, x)
    ensures IsIdentity(p.b, p.n, p.zero, one) ==> Dot(p, i, j, p.n) == p.a[At(p.n, i, j)]
    ensures IsIdentity(p.a, p.n, p.zero, one) ==> Dot(p, i, j, p.n) == p.b[At(p.n, i, j)]
  {
    if IsIdentity(p.b, p.n, p.zero, one) { DotWithIdentityRight(p, one, i, j, p.n); }
    if IsIdentity(p.a, p.n, p.zero, one) { DotWithIdentityLeft(p, one, i, j, p.n); }
  }
}
