// src/filters/weighted_average_abs.c: the ring of samples kept for each of three axes,
// and which of them the average is taken over. Its floating-point value is not modelled.
module Average {

  import opened CArith

  // The next index around the ring, and what the code computes for it.
  function Next(n: int, i: int): (r: int)
    requires 0 <= i < n
    ensures 0 <= r < n
  {
    if i + 1 == n then 0 else i + 1
  }

  lemma NextIsMod(n: int, i: int)
    requires 0 <= i < n
    ensures (i + 1) % n == Next(n, i)
  {
    if i + 1 == n { ModUnique(n, n, 1, 0); } else { ModUnique(i + 1, n, 0, i + 1); }
  }

  lemma ModUnique(x: int, n: int, q: int, r: int)
    requires 0 <= r < n && x == n * q + r
    ensures x % n == r
  {
    var p, s := x / n, x % n;
    assert x == n * p + s;
    assert n * (p - q) == n * p - n * q == r - s;
    if p > q { MulMonotone(n, 1, p - q); }
    if p < q { MulMonotone(n, p - q, -1); }
    assert p == q;
  }

  // add, on the indices of one axis: the oldest sample goes when they are far apart.
  function Advance(n: int, head: int, tail: int): (r: (int, int))
    requires 0 <= head < n && 0 <= tail < n
    ensures 0 <= r.0 < n && 0 <= r.1 < n
  {
    var apart := if head < tail then tail - head else head - tail;
    (Next(n, head), if apart >= n - 1 then Next(n, tail) else tail)
  }

  // Steps from head to tail around the ring: (tail - head) mod n.
  function Distance(n: int, head: int, tail: int): (d: nat)
    requires 0 <= head < n && 0 <= tail < n
    ensures d < n && (d == 0 <==> head == tail)
  {
    if head <= tail then tail - head else n + tail - head
  }

  // The indices visited from head on until tail.
  function Walk(n: int, head: int, tail: int): (r: seq<int>)
    requires 0 <= head < n && 0 <= tail < n
    decreases Distance(n, head, tail)
  {
    if head == tail then [] else [head] + Walk(n, Next(n, head), tail)
  }

  // The walk stays in the ring and takes exactly the distance from head to tail.
  lemma {:induction false} WalkLaw(n: int, head: int, tail: int)
    requires 0 <= head < n && 0 <= tail < n
    ensures |Walk(n, head, tail)| == Distance(n, head, tail)
    ensures forall k :: 0 <= k < |Walk(n, head, tail)| ==>
              Walk(n, head, tail)[k] == if head + k < n then head + k else head + k - n
    decreases Distance(n, head, tail)
  {
    if head != tail {
      WalkLaw(n, Next(n, head), tail);
    }
  }

  // The indices after k samples since the pen came down.
  function After(n: int, k: nat): (r: (int, int))
    requires n >= 1
    ensures 0 <= r.0 < n && 0 <= r.1 < n
  {
    if k == 0 then (0, 0) else Advance(n, After(n, k - 1).0, After(n, k - 1).1)
  }

  // Which they are: head is the count of samples around the ring, but in a ring of three
  // or more the tail moves once only, on the n-th sample, and never again.
  lemma {:induction false} IndicesAfter(n: int, k: nat)
    requires n >= 1
    ensures After(n, k).0 == k % n && (k < n ==> k % n == k)
    ensures After(n, k).1 == if n == 1 || k < n then 0 else if n == 2 then 1 - k % n else 1
    decreases k
  {
    if k == 0 {
      ModUnique(0, n, 0, 0);
    } else {
      IndicesAfter(n, k - 1);
      NextMod(k - 1, n);
      if k < n { ModUnique(k, n, 0, k); }
      if k == n { ModUnique(k - 1, n, 0, k - 1); }
    }
  }

  lemma NextMod(k: nat, n: int)
    requires n >= 1
    ensures (k + 1) % n == Next(n, k % n)
  {
    var q, r := k / n, k % n;
    assert k == n * q + r;
    if r + 1 == n {
      assert n * (q + 1) == n * q + n;
      ModUnique(k + 1, n, q + 1, 0);
    } else {
      ModUnique(k + 1, n, q, r + 1);
    }
  }

  // How many samples an average is taken over: the last n, as described, it never is,
  // and after k == 1 (mod n) samples of a full ring of three or more it is none at all.
  lemma SamplesAveraged(n: int, k: nat)
    requires n >= 3 && k >= n
    ensures var (head, tail) := After(n, k);
            && 0 <= head < n && 0 <= tail < n
            && |Walk(n, head, tail)| == (if k % n <= 1 then 1 - k % n else n + 1 - k % n)
            && |Walk(n, head, tail)| < n
  {
    IndicesAfter(n, k);
    WalkLaw(n, After(n, k).0, After(n, k).1);
  }

  class Ring {
    const n: int
    const head: array<int>
    const tail: array<int>
    const coord: array2<int>

    ghost predicate Valid()
      reads this, head, tail
    {
      && n >= 1 && head.Length == 3 && tail.Length == 3 && head != tail
      && coord.Length0 == n && coord.Length1 == 3
      && forall c :: 0 <= c < 3 ==> 0 <= head[c] < n && 0 <= tail[c] < n
    }

    // Allocated with all indices zero.
    constructor (n: int)
      requires n >= 1
      ensures Valid() && this.n == n && fresh(head) && fresh(tail) && fresh(coord)
      ensures forall c :: 0 <= c < 3 ==> (head[c], tail[c]) == After(n, 0)
    {
      this.n := n;
      head := new int[3](_ => 0);
      tail := new int[3](_ => 0);
      coord := new int[n, 3]((_, _) => 0);
    }

    method Add(c: int, val: int)
      requires Valid() && 0 <= c < 3
      modifies head, tail, coord
      ensures Valid() && (head[c], tail[c]) == old(Advance(n, head[c], tail[c]))
      ensures forall b :: 0 <= b < 3 && b != c ==> head[b] == old(head[b]) && tail[b] == old(tail[b])
      ensures coord[head[c], c] == val
      ensures forall i, b :: 0 <= i < n && 0 <= b < 3 && (i, b) != (head[c], c) ==> coord[i, b] == old(coord[i, b])
    {
      var apart := if head[c] < tail[c] then tail[c] - head[c] else head[c] - tail[c];
      NextIsMod(n, head[c]);
      NextIsMod(n, tail[c]);
      if apart >= n - 1 {
        tail[c] := (tail[c] + 1) % n;
      }
      head[c] := (head[c] + 1) % n;
      coord[head[c], c] := val;
    }

    // The pen is lifted: all three axes start afresh.
    method PenUp()
      requires Valid()
      modifies head, tail
      ensures Valid() && forall c :: 0 <= c < 3 ==> (head[c], tail[c]) == After(n, 0)
    {
      head[0], tail[0] := 0, 0;
      head[1], tail[1] := 0, 0;
      head[2], tail[2] := 0, 0;
    }

    // The loop of calculate: the indices it reads samples at, in order.
    method Visit(c: int) returns (visited: seq<int>)
      requires Valid() && 0 <= c < 3
      ensures visited == Walk(n, head[c], tail[c])
    {
      visited := [];
      var i := head[c];
      while i != tail[c]
        invariant 0 <= i < n && visited + Walk(n, i, tail[c]) == Walk(n, head[c], tail[c])
        decreases Distance(n, i, tail[c])
      {
        visited := visited + [i];
        NextIsMod(n, i);
        i := (i + 1) % n;
      }
    }
  }
}
