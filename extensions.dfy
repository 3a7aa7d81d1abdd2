/**
 * The list extension `List<T>.move(fromPos, toPos)`: copy the list, take the
 * element at `fromPos` out and put it back at `toPos` of the shortened copy.
 */
module Extensions {

  /** What `move` returns, written with slices: the list without position
      `fromPos`, with the removed element inserted at `toPos`. */
  function Moved<T>(l: seq<T>, fromPos: int, toPos: int): (r: seq<T>)
    requires 0 <= fromPos < |l| && 0 <= toPos < |l|
    ensures |r| == |l|
    ensures r[toPos] == l[fromPos]
  {
    var rest := l[..fromPos] + l[fromPos + 1..];
    rest[..toPos] + [l[fromPos]] + rest[toPos..]
  }

  /** Position by position: the moved element lands on `toPos`, the elements
      strictly between the two positions shift by one toward `fromPos`, and
      every position outside `[min, max]` keeps its element. */
  lemma MovedAt<T>(l: seq<T>, fromPos: int, toPos: int, k: int)
    requires 0 <= fromPos < |l| && 0 <= toPos < |l| && 0 <= k < |l|
    ensures k == toPos ==> Moved(l, fromPos, toPos)[k] == l[fromPos]
    ensures fromPos < toPos && fromPos <= k < toPos ==> Moved(l, fromPos, toPos)[k] == l[k + 1]
    ensures toPos < fromPos && toPos < k <= fromPos ==> Moved(l, fromPos, toPos)[k] == l[k - 1]
    ensures (k < fromPos && k < toPos) || (k > fromPos && k > toPos) ==> Moved(l, fromPos, toPos)[k] == l[k]
  {
    var rest := l[..fromPos] + l[fromPos + 1..];
    assert forall j :: 0 <= j < |rest| ==> rest[j] == if j < fromPos then l[j] else l[j + 1];
  }

  /** `move` is a permutation: no element is lost or duplicated. */
  lemma MovedIsPermutation<T>(l: seq<T>, fromPos: int, toPos: int)
    requires 0 <= fromPos < |l| && 0 <= toPos < |l|
    ensures multiset(Moved(l, fromPos, toPos)) == multiset(l)
  {
    var rest := l[..fromPos] + l[fromPos + 1..];
    assert l == l[..fromPos] + [l[fromPos]] + l[fromPos + 1..];
    assert multiset(l) == multiset(rest) + multiset{l[fromPos]};
    assert rest == rest[..toPos] + rest[toPos..];
    assert multiset(Moved(l, fromPos, toPos)) == multiset(rest) + multiset{l[fromPos]};
  }

  /** Moving an element onto its own position changes nothing. */
  lemma MovedToSelf<T>(l: seq<T>, i: int)
    requires 0 <= i < |l|
    ensures Moved(l, i, i) == l
  {
    forall k | 0 <= k < |l| ensures Moved(l, i, i)[k] == l[k] {
      MovedAt(l, i, i, k);
    }
  }

  /** Moving back from `toPos` to `fromPos` undoes a move. */
  lemma MovedInverse<T>(l: seq<T>, fromPos: int, toPos: int)
    requires 0 <= fromPos < |l| && 0 <= toPos < |l|
    ensures Moved(Moved(l, fromPos, toPos), toPos, fromPos) == l
  {
    var m := Moved(l, fromPos, toPos);
    forall k | 0 <= k < |l| ensures Moved(m, toPos, fromPos)[k] == l[k] {
      MovedAt(m, toPos, fromPos, k);
      MovedAt(l, fromPos, toPos, k);
      if fromPos < toPos && fromPos < k <= toPos {
        MovedAt(l, fromPos, toPos, k - 1);
      } else if toPos < fromPos && toPos <= k < fromPos {
        MovedAt(l, fromPos, toPos, k + 1);
      }
    }
  }

  /** The two buffer steps of `move` compose to `Moved`: `removed` is the
      list after `removeAt(fromPos)` (its last slot stale) and `r` is
      `removed` shifted right from `toPos` with the element stored there. */
  lemma MovedFromSteps<T>(l: seq<T>, fromPos: int, toPos: int, removed: seq<T>, r: seq<T>)
    requires 0 <= fromPos < |l| && 0 <= toPos < |l|
    requires |removed| == |l| && |r| == |l|
    requires forall k :: 0 <= k < fromPos ==> removed[k] == l[k]
    requires forall k :: fromPos <= k < |l| - 1 ==> removed[k] == l[k + 1]
    requires forall k :: 0 <= k < toPos ==> r[k] == removed[k]
    requires forall k :: toPos < k < |l| ==> r[k] == removed[k - 1]
    requires r[toPos] == l[fromPos]
    ensures r == Moved(l, fromPos, toPos)
  {
    forall k | 0 <= k < |l| ensures r[k] == Moved(l, fromPos, toPos)[k] {
      MovedAt(l, fromPos, toPos, k);
    }
  }

  /** `removeAt(pos)` on a list held in a buffer: the tail after `pos`
      shifts left by one. The last slot keeps its old value and is no longer
      part of the list. */
  method RemoveAt<T>(a: array<T>, pos: int)
    requires 0 <= pos < a.Length
    modifies a
    ensures forall k :: 0 <= k < pos ==> a[k] == old(a[k])
    ensures forall k :: pos <= k < a.Length - 1 ==> a[k] == old(a[k + 1])
  {
    var i := pos;
    while i < a.Length - 1
      invariant pos <= i <= a.Length - 1
      invariant forall k :: 0 <= k < pos ==> a[k] == old(a[k])
      invariant forall k :: pos <= k < i ==> a[k] == old(a[k + 1])
      invariant forall k :: i <= k < a.Length ==> a[k] == old(a[k])
    {
      a[i] := a[i + 1];
      i := i + 1;
    }
  }

  /** The shift half of `add(pos, elem)` on a buffer whose last slot is free:
      the part from `pos` on moves right by one, leaving slot `pos` to be
      overwritten. */
  method ShiftRight<T>(a: array<T>, pos: int)
    requires 0 <= pos < a.Length
    modifies a
    ensures forall k :: 0 <= k < pos ==> a[k] == old(a[k])
    ensures forall k :: pos < k < a.Length ==> a[k] == old(a[k - 1])
  {
    var j := a.Length - 1;
    while j > pos
      invariant pos <= j <= a.Length - 1
      invariant forall k :: 0 <= k <= j ==> a[k] == old(a[k])
      invariant forall k :: j < k < a.Length ==> a[k] == old(a[k - 1])
    {
      a[j] := a[j - 1];
      j := j - 1;
    }
  }

  /** `move` itself: `toMutableList()` copies the list into a buffer,
      `removeAt(fromPos)` shifts the tail left by one and `add(toPos, elem)`
      shifts the part from `toPos` on right by one before storing `elem`.
      The input sequence cannot change; the copy is what is returned. */
  method Move<T>(l: seq<T>, fromPos: int, toPos: int) returns (r: seq<T>)
    requires 0 <= fromPos < |l| && 0 <= toPos < |l|
    ensures r == Moved(l, fromPos, toPos)
  {
    var n := |l|;
    var a := new T[n](i requires 0 <= i < n => l[i]);
    var elem := a[fromPos];
    RemoveAt(a, fromPos);
    ghost var removed := a[..];
    ShiftRight(a, toPos);
    a[toPos] := elem;
    r := a[..];
    MovedFromSteps(l, fromPos, toPos, removed, r);
  }
}
