/** The ready queue and the three operations the simulations perform on it:
    the arrival scan that appends newly arrived processes, the scan that
    finds the first queued process with the smallest key, and the removal of
    the first occurrence of a process. The queue is a sequence of row
    indices, head first. */
module ReadyQueue {
  import opened Registry

  /** The indices i < n whose arrival tick is t, in increasing order: what
      the arrival scan over the first n rows appends at tick t. */
  function Arrivals(rows: seq<Row>, t: int, n: nat): (a: seq<int>)
    requires n <= |rows|
    ensures forall x :: x in a ==> 0 <= x < n && rows[x].arrival == t
  {
    if n == 0 then []
    else Arrivals(rows, t, n - 1) + (if rows[n - 1].arrival == t then [n - 1] else [])
  }

  /** The scan admits process i exactly once at tick t when its arrival is t
      and never otherwise. */
  lemma {:induction false} ArrivalsCount(rows: seq<Row>, t: int, n: nat, i: int)
    requires n <= |rows|
    ensures multiset(Arrivals(rows, t, n))[i] == if 0 <= i < n && rows[i].arrival == t then 1 else 0
  {
    if n > 0 {
      ArrivalsCount(rows, t, n - 1, i);
      var before := Arrivals(rows, t, n - 1);
      var tail: seq<int> := if rows[n - 1].arrival == t then [n - 1] else [];
      assert multiset(Arrivals(rows, t, n)) == multiset(before) + multiset(tail);
    }
  }

  /** Processes that arrive on the same tick are appended in increasing index order. */
  lemma {:induction false} ArrivalsIncreasing(rows: seq<Row>, t: int, n: nat)
    requires n <= |rows|
    ensures forall a, b :: 0 <= a < b < |Arrivals(rows, t, n)| ==> Arrivals(rows, t, n)[a] < Arrivals(rows, t, n)[b]
  {
    if n > 0 {
      ArrivalsIncreasing(rows, t, n - 1);
      var before := Arrivals(rows, t, n - 1);
      assert forall a :: 0 <= a < |before| ==> before[a] in before && before[a] < n - 1;
    }
  }

  /** The position the left-to-right scan for the smallest key settles on:
      it moves to a later position only on a strictly smaller key. */
  function FirstMin(rows: seq<Row>, q: seq<int>, key: Key): (j: nat)
    requires q != []
    requires forall k :: 0 <= k < |q| ==> 0 <= q[k] < |rows|
    ensures j < |q|
    decreases |q|
  {
    if |q| == 1 then 0
    else
      var j := FirstMin(rows, q[..|q| - 1], key);
      if KeyOf(rows[q[|q| - 1]], key) < KeyOf(rows[q[j]], key) then |q| - 1 else j
  }

  /** FirstMin finds the first queued process whose key is smallest: no
      queued key is smaller, and every earlier position has a strictly
      larger key. */
  lemma {:induction false} FirstMinIsFirstMinimum(rows: seq<Row>, q: seq<int>, key: Key)
    requires q != []
    requires forall k :: 0 <= k < |q| ==> 0 <= q[k] < |rows|
    ensures var j := FirstMin(rows, q, key);
      && (forall m :: 0 <= m < |q| ==> KeyOf(rows[q[j]], key) <= KeyOf(rows[q[m]], key))
      && (forall m :: 0 <= m < j ==> KeyOf(rows[q[j]], key) < KeyOf(rows[q[m]], key))
    decreases |q|
  {
    if |q| > 1 {
      var init := q[..|q| - 1];
      FirstMinIsFirstMinimum(rows, init, key);
      assert forall m :: 0 <= m < |init| ==> q[m] == init[m];
    }
  }

  /** The two properties of FirstMin pin the position down: any position
      with them is the one FirstMin returns. */
  lemma FirstMinUnique(rows: seq<Row>, q: seq<int>, key: Key, j: nat)
    requires q != []
    requires forall k :: 0 <= k < |q| ==> 0 <= q[k] < |rows|
    requires j < |q|
    requires forall m :: 0 <= m < |q| ==> KeyOf(rows[q[j]], key) <= KeyOf(rows[q[m]], key)
    requires forall m :: 0 <= m < j ==> KeyOf(rows[q[j]], key) < KeyOf(rows[q[m]], key)
    ensures j == FirstMin(rows, q, key)
  {
    FirstMinIsFirstMinimum(rows, q, key);
  }

  /** The queue without the first occurrence of x; unchanged when x is absent. */
  function RemoveFirstOccurrence(q: seq<int>, x: int): (r: seq<int>)
    ensures |r| <= |q|
  {
    if q == [] then []
    else if q[0] == x then q[1..]
    else [q[0]] + RemoveFirstOccurrence(q[1..], x)
  }

  /** Removing the first occurrence of x takes exactly one copy of x out of
      the queue when there is one, and leaves the queue as it is otherwise. */
  lemma {:induction false} RemoveFirstOccurrenceCount(q: seq<int>, x: int)
    ensures multiset(RemoveFirstOccurrence(q, x)) == multiset(q) - multiset{x}
    ensures x in q ==> |RemoveFirstOccurrence(q, x)| == |q| - 1
    ensures x !in q ==> RemoveFirstOccurrence(q, x) == q
  {
    if q != [] {
      assert q == [q[0]] + q[1..];
      if q[0] != x {
        RemoveFirstOccurrenceCount(q[1..], x);
      }
    }
  }

  /** Removing the first occurrence of the element at position j, when no
      earlier position holds it, cuts exactly that position out and keeps
      the order of the others. */
  lemma {:induction false} RemoveFirstOccurrenceAt(q: seq<int>, j: nat)
    requires j < |q|
    requires q[j] !in q[..j]
    ensures RemoveFirstOccurrence(q, q[j]) == q[..j] + q[j + 1..]
  {
    if j > 0 {
      assert q[1..][j - 1] == q[j];
      assert q[1..][..j - 1] == q[1..j];
      assert q[j] !in q[1..][..j - 1];
      RemoveFirstOccurrenceAt(q[1..], j - 1);
      assert q[1..][..j - 1] + q[1..][j..] == q[1..j] + q[j + 1..];
      assert [q[0]] + (q[1..j] + q[j + 1..]) == q[..j] + q[j + 1..];
    }
  }
}
