/*
 * The two NumPy primitives that sparse_collate is built from, on sequences:
 *   np.repeat(np.arange(len(c)), c)  -- Repeat(c)
 *   np.concatenate(parts)            -- Concat(parts)
 * plus the bookkeeping (Sum, Lengths) that relates them.  Both are defined
 * by peeling off the LAST element, so that "everything contributed by the
 * first n parts" is simply the prefix built from c[..n].
 */
module ArrayOps {

  /** Sum of a sequence of counts. */
  function Sum(c: seq<nat>): nat
  {
    if |c| == 0 then 0 else Sum(c[..|c| - 1]) + c[|c| - 1]
  }

  /** The length of every part, in order (the `[len(i) for i in x_ind]` list). */
  function Lengths<T>(parts: seq<seq<T>>): seq<nat>
  {
    seq(|parts|, i requires 0 <= i < |parts| => |parts[i]|)
  }

  /** `len` copies of `v`. */
  function Fill(v: nat, len: nat): seq<nat>
  {
    seq(len, _ => v)
  }

  /** np.repeat(np.arange(|c|), c): id i written c[i] times, ids ascending. */
  function Repeat(c: seq<nat>): seq<nat>
  {
    if |c| == 0 then [] else Repeat(c[..|c| - 1]) + Fill(|c| - 1, c[|c| - 1])
  }

  /** np.concatenate(parts): the parts joined in order, nothing sorted or dropped. */
  function Concat<T>(parts: seq<seq<T>>): seq<T>
  {
    if |parts| == 0 then [] else Concat(parts[..|parts| - 1]) + parts[|parts| - 1]
  }

  /** Offset at which the contribution of part (or id) i starts. */
  function Start(c: seq<nat>, i: nat): nat
    requires i <= |c|
  {
    Sum(c[..i])
  }

  // ---------------------------------------------------------------------
  // Repeat

  /** The repeated id sequence has one entry per counted item. */
  lemma {:induction false} RepeatLength(c: seq<nat>)
    ensures |Repeat(c)| == Sum(c)
  {
    if |c| > 0 {
      RepeatLength(c[..|c| - 1]);
    }
  }

  /** Every id is a valid index into `c`, and the ids never decrease. */
  lemma {:induction false} RepeatSorted(c: seq<nat>)
    ensures forall k :: 0 <= k < |Repeat(c)| ==> Repeat(c)[k] < |c|
    ensures forall a, b :: 0 <= a <= b < |Repeat(c)| ==> Repeat(c)[a] <= Repeat(c)[b]
  {
    if |c| > 0 {
      var n := |c| - 1;
      var p := Repeat(c[..n]);
      RepeatSorted(c[..n]);
      assert Repeat(c) == p + Fill(n, c[n]);
      forall a, b | 0 <= a <= b < |Repeat(c)|
        ensures Repeat(c)[a] <= Repeat(c)[b] && Repeat(c)[b] <= n
      {
        if b < |p| {
          assert Repeat(c)[a] == p[a] && Repeat(c)[b] == p[b];
        } else if a < |p| {
          assert Repeat(c)[a] == p[a] < n;
        }
      }
    }
  }

  lemma {:induction false} FillCount(v: nat, len: nat, w: nat)
    ensures multiset(Fill(v, len))[w] == if w == v then len else 0
  {
    if len > 0 {
      FillCount(v, len - 1, w);
      assert Fill(v, len) == Fill(v, len - 1) + [v];
    }
  }

  /** Id i occurs exactly c[i] times (zero times when c[i] == 0), and no
      other value occurs at all. */
  lemma {:induction false} RepeatCount(c: seq<nat>, w: nat)
    ensures multiset(Repeat(c))[w] == if w < |c| then c[w] else 0
  {
    if |c| > 0 {
      var n := |c| - 1;
      RepeatCount(c[..n], w);
      FillCount(n, c[n], w);
      assert Repeat(c) == Repeat(c[..n]) + Fill(n, c[n]);
      if w < n {
        assert c[..n][w] == c[w];
      }
    }
  }

  /** The j-th copy of id i sits at Start(c, i) + j. */
  lemma {:induction false} RepeatAt(c: seq<nat>, i: nat, j: nat)
    requires i < |c| && j < c[i]
    ensures Start(c, i) + j < |Repeat(c)|
    ensures Repeat(c)[Start(c, i) + j] == i
  {
    var n := |c| - 1;
    RepeatLength(c[..n]);
    if i < n {
      assert c[..n][..i] == c[..i];
      RepeatAt(c[..n], i, j);
    } else {
      assert c[..i] == c[..n];
    }
  }

  /** Conversely, every position k lies inside the block of the id written
      there: Start(c, id) <= k < Start(c, id) + c[id]. */
  lemma {:induction false} RepeatCovers(c: seq<nat>, k: nat)
    requires k < |Repeat(c)|
    ensures Repeat(c)[k] < |c|
    ensures Start(c, Repeat(c)[k]) <= k < Start(c, Repeat(c)[k]) + c[Repeat(c)[k]]
  {
    var n := |c| - 1;
    RepeatLength(c[..n]);
    if k < |Repeat(c[..n])| {
      RepeatCovers(c[..n], k);
      var i := Repeat(c[..n])[k];
      assert Repeat(c)[k] == i;
      assert c[..n][..i] == c[..i];
    } else {
      assert Repeat(c)[k] == n;
      assert c[..n] == c[..Repeat(c)[k]];
    }
  }

  // ---------------------------------------------------------------------
  // Concat

  lemma LengthsPrefix<T>(p: seq<seq<T>>, n: nat)
    requires n <= |p|
    ensures Lengths(p[..n]) == Lengths(p)[..n]
  {
  }

  /** The joined sequence is exactly as long as all the parts together. */
  lemma {:induction false} ConcatLength<T>(p: seq<seq<T>>)
    ensures |Concat(p)| == Sum(Lengths(p))
  {
    if |p| > 0 {
      var n := |p| - 1;
      ConcatLength(p[..n]);
      LengthsPrefix(p, n);
    }
  }

  /** Element j of part i sits at Start(Lengths(p), i) + j: order is kept. */
  lemma {:induction false} ConcatAt<T>(p: seq<seq<T>>, i: nat, j: nat)
    requires i < |p| && j < |p[i]|
    ensures Start(Lengths(p), i) + j < |Concat(p)|
    ensures Concat(p)[Start(Lengths(p), i) + j] == p[i][j]
  {
    var n := |p| - 1;
    ConcatLength(p[..n]);
    LengthsPrefix(p, n);
    if i < n {
      LengthsPrefix(p[..n], i);
      LengthsPrefix(p, i);
      assert p[..n][..i] == p[..i];
      ConcatAt(p[..n], i, j);
    } else {
      assert Lengths(p)[..i] == Lengths(p[..n]);
    }
  }

  // ---------------------------------------------------------------------
  // Repeat and Concat together

  /** Ids repeated by the part lengths line up with the joined parts: one id
      per joined element, ids below the number of parts, non-decreasing,
      and id i exactly as often as part i has elements. */
  lemma RepeatOfLengths<T>(p: seq<seq<T>>)
    ensures |Repeat(Lengths(p))| == |Concat(p)|
    ensures forall k :: 0 <= k < |Repeat(Lengths(p))| ==> Repeat(Lengths(p))[k] < |p|
    ensures forall a, b :: 0 <= a <= b < |Repeat(Lengths(p))| ==>
              Repeat(Lengths(p))[a] <= Repeat(Lengths(p))[b]
    ensures forall i :: 0 <= i < |p| ==> multiset(Repeat(Lengths(p)))[i] == |p[i]|
  {
    var c := Lengths(p);
    RepeatLength(c);
    ConcatLength(p);
    RepeatSorted(c);
    forall i | 0 <= i < |p|
      ensures multiset(Repeat(c))[i] == |p[i]|
    {
      RepeatCount(c, i);
    }
  }
}
