/**
 * Threads that claim work items from a shared atomic counter (crates/c0mpute-bench/src/lib.rs).
 * A kernel runs its threads by picking, again and again, any thread that has not stopped.
 */
module WorkPool {
  import opened Wrappers

  // ---- sums ------------------------------------------------------------

  function Sum<T>(s: seq<T>, g: T -> nat): nat {
    if s == [] then 0 else Sum(s[..|s| - 1], g) + g(s[|s| - 1])
  }

  lemma {:induction false} SumUpdate<T>(s: seq<T>, g: T -> nat, i: nat, v: T)
    requires i < |s|
    ensures Sum(s[i := v], g) + g(s[i]) == Sum(s, g) + g(v)
  {
    var front := s[..|s| - 1];
    if i == |s| - 1 {
      assert s[i := v][..|s| - 1] == front;
    } else {
      SumUpdate(front, g, i, v);
      assert s[i := v][..|s| - 1] == front[i := v];
    }
  }

  lemma {:induction false} SumAppend<T>(s: seq<T>, t: seq<T>, g: T -> nat)
    ensures Sum(s + t, g) == Sum(s, g) + Sum(t, g)
  {
    if t == [] {
      assert s + t == s;
    } else {
      SumAppend(s, t[..|t| - 1], g);
      assert (s + t)[..|s + t| - 1] == s + t[..|t| - 1];
    }
  }

  lemma SumPush<T>(s: seq<T>, x: T, g: T -> nat)
    ensures Sum(s + [x], g) == Sum(s, g) + g(x)
  {
    assert (s + [x])[..|s|] == s;
  }

  lemma SumPrefix<T>(s: seq<T>, i: nat, g: T -> nat)
    requires i < |s|
    ensures Sum(s[..i + 1], g) == Sum(s[..i], g) + g(s[i])
  {
    assert s[..i + 1] == s[..i] + [s[i]];
    SumPush(s[..i], s[i], g);
  }

  lemma {:induction false} SumAtLeast<T>(s: seq<T>, g: T -> nat, i: nat)
    requires i < |s|
    ensures g(s[i]) <= Sum(s, g)
  {
    if i < |s| - 1 { SumAtLeast(s[..|s| - 1], g, i); }
  }

  lemma {:induction false} SumOfZeros<T>(s: seq<T>, g: T -> nat)
    requires forall i | 0 <= i < |s| :: g(s[i]) == 0
    ensures Sum(s, g) == 0
  {
    if s != [] { SumOfZeros(s[..|s| - 1], g); }
  }

  // ---- the pool --------------------------------------------------------

  function Busy(): Option<nat> -> nat {
    (c: Option<nat>) => if c.Some? then 1 else 0
  }

  function Going(): bool -> nat {
    (stopped: bool) => if stopped then 0 else 1
  }

  function NoClaims(threads: nat): seq<Option<nat>> {
    seq<Option<nat>>(threads, _ => None)
  }

  class Pool {
    const size: nat
    const threads: nat
    /** The atomic counter: the next index to hand out. */
    var next: nat
    /** The item each thread is working on. */
    var claims: seq<Option<nat>>
    var stopped: seq<bool>
    /** Which thread claimed each index handed out so far. */
    ghost var owner: seq<nat>

    ghost predicate Valid()
      reads this
    {
      && |claims| == |stopped| == threads > 0
      && |owner| == Min(next, size)
      && (forall t | 0 <= t < threads && claims[t].Some? :: claims[t].value < |owner| && owner[claims[t].value] == t)
      && (forall t | 0 <= t < threads && stopped[t] :: claims[t].None? && next >= size)
    }

    ghost function Left(): nat
      reads this
    {
      2 * Max(size - next, 0) + Sum(claims, Busy()) + Sum(stopped, Going())
    }

    constructor (size: nat, threads: nat)
      requires threads > 0
      ensures Valid() && this.size == size && this.threads == threads && next == 0
      ensures claims == NoClaims(threads) && stopped == seq(threads, _ => false)
    {
      this.size, this.threads, this.next := size, threads, 0;
      this.claims := NoClaims(threads);
      this.stopped := seq(threads, _ => false);
      this.owner := [];
    }

    /** `fetch_add` and the bounds check: thread `t` gets the next index, or stops. */
    method Claim(t: nat)
      requires Valid() && t < threads && !stopped[t] && claims[t].None?
      modifies this
      ensures Valid() && next == old(next) + 1 && Left() < old(Left())
      ensures old(next) < size ==>
                claims == old(claims)[t := Some(old(next))] && stopped == old(stopped) && owner == old(owner) + [t]
      ensures old(next) >= size ==>
                claims == old(claims) && stopped == old(stopped)[t := true] && owner == old(owner)
    {
      var i := next;
      next := next + 1;
      if i >= size {
        SumUpdate(stopped, Going(), t, true);
        stopped := stopped[t := true];
      } else {
        SumUpdate(claims, Busy(), t, Some(i));
        claims := claims[t := Some(i)];
        owner := owner + [t];
      }
    }

    /** Thread `t` is done with its item. */
    method Release(t: nat)
      requires Valid() && t < threads && claims[t].Some?
      modifies this
      ensures Valid() && next == old(next) && stopped == old(stopped) && owner == old(owner)
      ensures claims == old(claims)[t := None] && Left() < old(Left())
    {
      SumUpdate(claims, Busy(), t, None);
      claims := claims[t := None];
    }

    /** No item is ever in the hands of two threads. */
    lemma ClaimsAreDistinct(t: nat, u: nat)
      requires Valid() && t < threads && u < threads && claims[t].Some? && claims[t] == claims[u]
      ensures t == u
    {
    }
  }
}
