/** Datatypes shared by the models. */
module Common {
  datatype Option<+T> = None | Some(value: T)

  datatype Result<+T> = Success(value: T) | Failure(error: string)

  type Byte = x: int | 0 <= x < 256

  type Bytes = seq<Byte>

  function Min(a: int, b: int): int {
    if a <= b then a else b
  }

  function Max(a: int, b: int): int {
    if a <= b then b else a
  }

  /** math.ceil(a / b) on exact integers. */
  function CeilDiv(a: nat, b: nat): nat
    requires b > 0
  {
    (a + b - 1) / b
  }

  /** The ceiling is the only q with (q - 1) * b < a <= q * b. */
  lemma CeilDivUnique(a: nat, b: nat, q: nat)
    requires b > 0 && a <= q * b && (q - 1) * b < a
    ensures CeilDiv(a, b) == q
  {
    var c := a + b - 1;
    assert c == q * b + (c - q * b) && 0 <= c - q * b < b by {
      assert (q - 1) * b == q * b - b;
    }
    DivUnique(c, b, q, c - q * b);
  }

  lemma MulBounds(d: int, b: nat)
    ensures d >= 1 ==> d * b >= b
    ensures d <= -1 ==> d * b + b <= 0
  {
  }

  lemma DivUnique(c: nat, b: nat, q: int, r: int)
    requires b > 0 && c == q * b + r && 0 <= r < b
    ensures c / b == q && c % b == r
  {
    var d := c / b - q;
    assert c == (c / b) * b + c % b;
    assert d * b == r - c % b by {
      assert (c / b - q) * b == (c / b) * b - q * b;
    }
    MulBounds(d, b);
  }

  lemma CeilDivBounds(a: nat, b: nat)
    requires b > 0
    ensures a <= CeilDiv(a, b) * b < a + b
    ensures a > 0 ==> CeilDiv(a, b) > 0
    ensures a > b ==> CeilDiv(a, b) > 1
  {
    var c := a + b - 1;
    assert c == (c / b) * b + c % b;
  }

  lemma MulMono(a: int, b: int, c: nat)
    requires a <= b
    ensures a * c <= b * c
  {
  }

  lemma Member<T>(s: set<T>) returns (x: T)
    requires |s| > 0
    ensures x in s
  {
    x :| x in s;
  }

  function Elements<T(==)>(s: seq<T>): set<T> {
    set x | x in s
  }

  function Last<T>(s: seq<T>): T
    requires s != []
  {
    s[|s| - 1]
  }

  function Front<T>(s: seq<T>): seq<T>
    requires s != []
  {
    s[..|s| - 1]
  }

  lemma {:induction false} SubsetSize<T>(a: set<T>, b: set<T>)
    requires a <= b
    ensures |a| <= |b|
    ensures |a| == |b| ==> a == b
    decreases |a|
  {
    if a != {} {
      var x :| x in a;
      SubsetSize(a - {x}, b - {x});
      assert a == a - {x} + {x} && b == b - {x} + {x};
    }
  }

  lemma SubsetSmaller<T>(a: set<T>, b: set<T>)
    requires a < b
    ensures |a| < |b|
  {
    var x :| x in b && x !in a;
    SubsetSize(a, b - {x});
  }

  function Flatten<T>(ss: seq<seq<T>>): seq<T> {
    if ss == [] then [] else Flatten(ss[..|ss| - 1]) + ss[|ss| - 1]
  }

  lemma {:induction false} FlattenConcat<T>(a: seq<seq<T>>, b: seq<seq<T>>)
    ensures Flatten(a + b) == Flatten(a) + Flatten(b)
  {
    if b == [] {
      assert a + b == a;
    } else {
      var n := |b| - 1;
      assert (a + b)[..|a + b| - 1] == a + b[..n];
      FlattenConcat(a, b[..n]);
    }
  }

  lemma FlattenFirst<T>(ss: seq<seq<T>>)
    requires ss != []
    ensures Flatten(ss) == ss[0] + Flatten(ss[1..])
  {
    var head: seq<seq<T>> := [ss[0]];
    assert head[..0] == [];
    FlattenConcat(head, ss[1..]);
    assert ss == head + ss[1..];
  }
}
