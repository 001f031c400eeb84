/** Choosing the next resource of a node's download queue
    (cascade/cascade.py). */
module CascadeQueue {
  import opened Common

  /** A downloading set that no thread leaves during the loop. */
  function Still(d: set<string>): nat -> set<string> {
    (_: nat) => d
  }

  /** The rotation loop as a function. `dl(t)` is the downloading set that the
      t-th check sees under the lock. */
  function Pick(q: seq<string>, seen: set<string>, dl: nat -> set<string>, t: nat): (Option<string>, seq<string>)
    requires q != []
    decreases |Elements(q) - seen|
  {
    var r, rest := q[0], q[1..];
    if r in seen then (None, rest + [r])
    else if r !in dl(t) then (Some(r), rest)
    else
      RotateElements(q);
      assert Elements(rest + [r]) - (seen + {r}) < Elements(q) - seen by {
        assert r in Elements(q) - seen;
      }
      SubsetSmaller(Elements(rest + [r]) - (seen + {r}), Elements(q) - seen);
      Pick(rest + [r], seen + {r}, dl, t + 1)
  }

  lemma RotateElements(q: seq<string>)
    requires q != []
    ensures Elements(q[1..] + [q[0]]) == Elements(q)
    ensures multiset(q[1..] + [q[0]]) == multiset(q)
  {
    assert q == [q[0]] + q[1..];
  }

  function Taken(r: Option<string>): multiset<string> {
    match r
    case None => multiset{}
    case Some(x) => multiset{x}
  }

  /** The rotation neither loses nor duplicates a queue entry, and a resource
      it takes is one that a check found not to be downloading. */
  lemma {:induction false} PickConserves(q: seq<string>, seen: set<string>, dl: nat -> set<string>, t: nat)
    requires q != []
    ensures var (r, q') := Pick(q, seen, dl, t);
      multiset(q') + Taken(r) == multiset(q) &&
      (r.Some? ==> r.value in q && exists u :: u >= t && r.value !in dl(u))
    decreases |Elements(q) - seen|
  {
    var r, rest := q[0], q[1..];
    RotateElements(q);
    assert q == [r] + rest;
    if r !in seen && r in dl(t) {
      var a, b := Elements(rest + [r]) - (seen + {r}), Elements(q) - seen;
      assert r in b && r !in a;
      SubsetSmaller(a, b);
      PickConserves(rest + [r], seen + {r}, dl, t + 1);
    }
  }

  /** With a downloading set that stands still, what is taken is free. */
  lemma PickIsFree(q: seq<string>, d: set<string>)
    requires q != []
    ensures var (r, q') := Pick(q, {}, Still(d), 0);
      multiset(q') + Taken(r) == multiset(q) && (r.Some? ==> r.value !in d)
  {
    PickConserves(q, {}, Still(d), 0);
  }

  predicate FirstFree(q: seq<string>, d: set<string>, k: nat) {
    k < |q| && q[k] !in d && forall j :: 0 <= j < k ==> q[j] in d
  }

  predicate NoRepeat(q: seq<string>, k: nat)
    requires k <= |q|
  {
    forall i, j :: 0 <= i < j < k ==> q[i] != q[j]
  }

  /** While the downloading set stands still: after n rotations. */
  lemma {:induction false} PickAfter(q: seq<string>, d: set<string>, n: nat, t: nat)
    requires n < |q| && NoRepeat(q, n) && forall j :: 0 <= j < n ==> q[j] in d
    ensures q[n..] + q[..n] != []
    ensures Pick(q, {}, Still(d), t) == Pick(q[n..] + q[..n], Elements(q[..n]), Still(d), t + n)
  {
    if n == 0 {
      assert q[0..] + q[..0] == q;
      assert Elements(q[..0]) == {};
    } else {
      PickAfter(q, d, n - 1, t);
      var p := q[n - 1..] + q[..n - 1];
      assert p[0] == q[n - 1];
      assert p[1..] + [p[0]] == q[n..] + q[..n];
      assert q[n - 1] !in q[..n - 1];
      assert Elements(q[..n]) == Elements(q[..n - 1]) + {q[n - 1]} by {
        assert q[..n] == q[..n - 1] + [q[n - 1]];
      }
    }
  }

  /** With a downloading set that stands still and no repeated entry before
      it, the loop takes the first free entry and rotates the entries before
      it to the back. */
  lemma PickFirstFree(q: seq<string>, d: set<string>, k: nat, t: nat)
    requires FirstFree(q, d, k) && NoRepeat(q, k)
    ensures Pick(q, {}, Still(d), t) == (Some(q[k]), q[k + 1..] + q[..k])
  {
    PickAfter(q, d, k, t);
    assert (q[k..] + q[..k])[0] == q[k] && (q[k..] + q[..k])[1..] == q[k + 1..] + q[..k];
    assert q[k] !in q[..k];
  }

  /** When every entry is downloading, nothing is taken. */
  lemma PickNothing(q: seq<string>, d: set<string>, t: nat)
    requires q != [] && NoRepeat(q, |q|) && forall x :: x in q ==> x in d
    ensures Pick(q, {}, Still(d), t) == (None, q[1..] + [q[0]])
  {
    var n := |q| - 1;
    PickAfter(q, d, n, t);
    var p := q[n..] + q[..n];
    assert p[0] == q[n] && p[1..] + [p[0]] == q;
    assert q[n] !in q[..n];
    assert Elements(q[..n]) + {q[n]} == Elements(q) by {
      assert q == q[..n] + [q[n]];
    }
    assert q[0] in q;
  }

  /** The loop itself. `get` is only ever called on a queue that holds an
      entry, so it never blocks. */
  method PickResource(queue: seq<string>, dl: nat -> set<string>) returns (resource: Option<string>, q: seq<string>)
    requires queue != []
    ensures (resource, q) == Pick(queue, {}, dl, 0)
  {
    q := queue;
    var seen: set<string>, t := {}, 0;
    while true
      invariant q != [] && Pick(q, seen, dl, t) == Pick(queue, {}, dl, 0)
      decreases |Elements(q) - seen|
    {
      var r := q[0];
      RotateElements(q);
      ghost var before := Elements(q) - seen;
      q := q[1..];
      if r in seen {
        q := q + [r];
        return None, q;
      }
      assert r in before;
      seen := seen + {r};
      if r !in dl(t) {
        return Some(r), q;
      }
      q := q + [r];
      SubsetSmaller(Elements(q) - seen, before);
      t := t + 1;
    }
  }
}
