/** What losing, repeating and reading lines does to the order of a queue. */
module TransferQueues {
  import opened Transfer

  /** Once `x` appears, nothing else follows. */
  ghost predicate Fence<T>(q: seq<T>, x: T) {
    forall i, j :: 0 <= i <= j < |q| && q[i] == x ==> q[j] == x
  }

  /** Data frames stand in order of their numbers. */
  ghost predicate Sorted(q: seq<Frame>) {
    forall i, j :: 0 <= i < j < |q| && q[i].Data? && q[j].Data? ==> q[i].seqno <= q[j].seqno
  }

  /** Data frames stand in strictly increasing order: none is there twice. */
  ghost predicate Increasing(q: seq<Frame>) {
    forall i, j :: 0 <= i < j < |q| && q[i].Data? && q[j].Data? ==> q[i].seqno < q[j].seqno
  }

  /** `p` holds nothing that `q` does not hold, in no worse order. */
  ghost predicate Calmer<T(!new)>(p: seq<T>, q: seq<T>) {
    && (forall x :: x in p ==> x in q)
    && (forall x :: Fence(q, x) ==> Fence(p, x))
  }

  ghost predicate CalmerFrames(p: seq<Frame>, q: seq<Frame>) {
    Calmer(p, q) && (Sorted(q) ==> Sorted(p))
  }

  lemma CalmerSame<T(!new)>(q: seq<T>)
    ensures Calmer(q, q)
  {
  }

  lemma WithoutMember<T>(q: seq<T>, i: nat, k: nat) returns (m: nat)
    requires i < |q| && k < |Without(q, i)|
    ensures m < |q| && Without(q, i)[k] == q[m] && m == if k < i then k else k + 1
  {
    m := if k < i then k else k + 1;
  }

  lemma WithoutIsCalmer<T(!new)>(q: seq<T>, i: nat)
    requires i < |q|
    ensures Calmer(Without(q, i), q)
  {
    var p := Without(q, i);
    forall k | 0 <= k < |p|
      ensures p[k] == q[if k < i then k else k + 1] && p[k] in q
    {
      var m := WithoutMember(q, i, k);
    }
  }

  lemma TwiceIsCalmer<T(!new)>(q: seq<T>, i: nat)
    requires i < |q|
    ensures Calmer(Twice(q, i), q)
  {
    var p := Twice(q, i);
    forall k | 0 <= k < |p|
      ensures p[k] == q[if k <= i then k else k - 1]
    {
    }
    forall x | x in p
      ensures x in q
    {
      var k :| 0 <= k < |p| && p[k] == x;
      assert q[if k <= i then k else k - 1] == x;
    }
  }

  lemma TailIsCalmer<T(!new)>(q: seq<T>)
    requires q != []
    ensures Calmer(q[1..], q)
  {
    assert Without(q, 0) == q[1..];
    WithoutIsCalmer(q, 0);
  }

  lemma WithoutStaysSorted(q: seq<Frame>, i: nat)
    requires i < |q|
    ensures Sorted(q) ==> Sorted(Without(q, i))
    ensures Increasing(q) ==> Increasing(Without(q, i))
  {
    var p := Without(q, i);
    forall k | 0 <= k < |p|
      ensures p[k] == q[if k < i then k else k + 1]
    {
    }
  }

  lemma TwiceStaysSorted(q: seq<Frame>, i: nat)
    requires i < |q|
    ensures Sorted(q) ==> Sorted(Twice(q, i))
  {
    var p := Twice(q, i);
    forall k | 0 <= k < |p|
      ensures p[k] == q[if k <= i then k else k - 1]
    {
    }
  }

  lemma TailStaysSorted(q: seq<Frame>)
    requires q != []
    ensures Sorted(q) ==> Sorted(q[1..])
    ensures Increasing(q) ==> Increasing(q[1..])
  {
    assert Without(q, 0) == q[1..];
    WithoutStaysSorted(q, 0);
  }

  lemma FramesWithoutAreCalmer(q: seq<Frame>, i: nat)
    requires i < |q|
    ensures CalmerFrames(Without(q, i), q)
  {
    WithoutIsCalmer(q, i);
    WithoutStaysSorted(q, i);
  }

  lemma FramesTwiceAreCalmer(q: seq<Frame>, i: nat)
    requires i < |q|
    ensures CalmerFrames(Twice(q, i), q)
  {
    TwiceIsCalmer(q, i);
    TwiceStaysSorted(q, i);
  }

  lemma FramesTailIsCalmer(q: seq<Frame>)
    requires q != []
    ensures CalmerFrames(q[1..], q)
  {
    TailIsCalmer(q);
    TailStaysSorted(q);
  }

  /** Appending `x` keeps a fence for `x`, and a fence that no one has reached yet. */
  lemma FenceAppend<T>(q: seq<T>, x: T, y: T)
    requires Fence(q, x) && (x == y || x !in q)
    ensures Fence(q + [y], x)
  {
    forall i, j | 0 <= i <= j < |q + [y]| && (q + [y])[i] == x
      ensures (q + [y])[j] == x
    {
      if j < |q| {
        assert q[i] == x && q[j] == x;
      }
    }
  }

  lemma FenceAbsent<T>(q: seq<T>, x: T)
    requires x !in q
    ensures Fence(q, x)
  {
  }

  /** What stands first behind a fence is all there is. */
  lemma FenceAtHead<T>(q: seq<T>, x: T)
    requires q != [] && Fence(q, x) && q[0] == x
    ensures forall y :: y in q ==> y == x
  {
  }

  lemma SortedAppend(q: seq<Frame>, f: Frame)
    requires forall g :: g in q && g.Data? && f.Data? ==> g.seqno < f.seqno
    ensures Sorted(q) ==> Sorted(q + [f])
    ensures Increasing(q) ==> Increasing(q + [f])
  {
    var p := q + [f];
    forall k | 0 <= k < |q|
      ensures p[k] == q[k] && q[k] in q
    {
    }
  }
}
