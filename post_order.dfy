/**
 * The order in which the site lists posts: `sorted_by(|a, b| b.date.cmp(&a.date))` over the
 * configured posts, a stable sort on descending date. It is given here as the list of
 * configuration indices in sorted order, built by insertion.
 */
module PostOrder {
  import opened Calendar

  /** Post `a` is listed before post `b`: it is newer, or as new and configured earlier. */
  predicate Precedes(dates: seq<DateTime>, a: nat, b: nat)
    requires a < |dates| && b < |dates|
  {
    Earlier(dates[b], dates[a]) || (dates[a] == dates[b] && a < b)
  }

  lemma PrecedesOrder(dates: seq<DateTime>, a: nat, b: nat, c: nat)
    requires a < |dates| && b < |dates| && c < |dates|
    ensures !Precedes(dates, a, a)
    ensures a != b ==> Precedes(dates, a, b) || Precedes(dates, b, a)
    ensures Precedes(dates, a, b) && Precedes(dates, b, c) ==> Precedes(dates, a, c)
  {
    EarlierIrreflexive(dates[a]);
    EarlierTotal(dates[a], dates[b]);
    if Earlier(dates[b], dates[a]) && Earlier(dates[c], dates[b]) {
      EarlierTransitive(dates[c], dates[b], dates[a]);
    }
  }

  predicate InRange(dates: seq<DateTime>, order: seq<nat>) {
    forall i :: 0 <= i < |order| ==> order[i] < |dates|
  }

  predicate Sorted(dates: seq<DateTime>, order: seq<nat>) {
    InRange(dates, order) && forall i, j :: 0 <= i < j < |order| ==> Precedes(dates, order[i], order[j])
  }

  /** Puts index `k` in front of the first index it precedes. */
  function Insert(dates: seq<DateTime>, order: seq<nat>, k: nat): (r: seq<nat>)
    requires InRange(dates, order) && k < |dates|
    ensures |r| == |order| + 1
    ensures InRange(dates, r)
  {
    if order == [] then [k]
    else if Precedes(dates, k, order[0]) then [k] + order
    else
      assert order == [order[0]] + order[1..];
      [order[0]] + Insert(dates, order[1..], k)
  }

  /** Inserting adds the one index and changes nothing else about the collection. */
  lemma {:induction false} InsertMultiset(dates: seq<DateTime>, order: seq<nat>, k: nat)
    requires InRange(dates, order) && k < |dates|
    ensures multiset(Insert(dates, order, k)) == multiset(order) + multiset{k}
  {
    if order != [] && !Precedes(dates, k, order[0]) {
      InsertMultiset(dates, order[1..], k);
      assert order == [order[0]] + order[1..];
    }
  }

  lemma InsertMember(dates: seq<DateTime>, order: seq<nat>, k: nat, x: int)
    requires InRange(dates, order) && k < |dates|
    ensures x in Insert(dates, order, k) <==> x in order || x == k
  {
    InsertMultiset(dates, order, k);
    assert (x in Insert(dates, order, k)) == (x in multiset(Insert(dates, order, k)));
    assert (x in order) == (x in multiset(order));
  }

  /** The positions, in listing order, of the first `n` posts. */
  function OrderOf(dates: seq<DateTime>, n: nat): (r: seq<nat>)
    requires n <= |dates|
    ensures InRange(dates, r)
  {
    if n == 0 then [] else Insert(dates, OrderOf(dates, n - 1), n - 1)
  }

  /** The listing order of all the posts. */
  function Order(dates: seq<DateTime>): seq<nat> {
    OrderOf(dates, |dates|)
  }

  /** The items at the given positions, in that order. */
  function Select<T>(xs: seq<T>, order: seq<nat>): (r: seq<T>)
    requires forall i :: 0 <= i < |order| ==> order[i] < |xs|
    ensures |r| == |order|
  {
    if order == [] then [] else [xs[order[0]]] + Select(xs, order[1..])
  }

  /** Position `i` of the selection holds the item at position `order[i]`. */
  lemma {:induction false} SelectAt<T>(xs: seq<T>, order: seq<nat>)
    requires forall i :: 0 <= i < |order| ==> order[i] < |xs|
    ensures forall i :: 0 <= i < |order| ==> Select(xs, order)[i] == xs[order[i]]
  {
    if order != [] {
      SelectAt(xs, order[1..]);
    }
  }

  lemma {:induction false} InsertSorted(dates: seq<DateTime>, order: seq<nat>, k: nat)
    requires Sorted(dates, order) && k < |dates| && k !in order
    ensures Sorted(dates, Insert(dates, order, k))
    decreases |order|
  {
    if order != [] {
      var r := Insert(dates, order, k);
      if Precedes(dates, k, order[0]) {
        forall j | 0 < j < |r|
          ensures Precedes(dates, r[0], r[j])
        {
          if j > 1 {
            PrecedesOrder(dates, k, order[0], order[j - 1]);
          }
        }
      } else {
        PrecedesOrder(dates, k, order[0], k);
        InsertSorted(dates, order[1..], k);
        var rest := Insert(dates, order[1..], k);
        assert r == [order[0]] + rest;
        forall j | 0 <= j < |rest|
          ensures Precedes(dates, order[0], rest[j])
        {
          InsertMember(dates, order[1..], k, rest[j]);
          if rest[j] != k {
            var m :| 0 <= m < |order[1..]| && order[1..][m] == rest[j];
            assert order[m + 1] == rest[j];
          }
        }
      }
    }
  }

  /** The first `n` positions, each exactly once. */
  lemma OrderOfElements(dates: seq<DateTime>, n: nat)
    requires n <= |dates|
    ensures |OrderOf(dates, n)| == n
    ensures forall k :: k in OrderOf(dates, n) <==> 0 <= k < n
  {
    OrderOfLength(dates, n);
    forall k
      ensures k in OrderOf(dates, n) <==> 0 <= k < n
    {
      OrderOfMember(dates, n, k);
    }
  }

  lemma {:induction false} OrderOfLength(dates: seq<DateTime>, n: nat)
    requires n <= |dates|
    ensures |OrderOf(dates, n)| == n
  {
    if n > 0 {
      OrderOfLength(dates, n - 1);
    }
  }

  lemma {:induction false} OrderOfMember(dates: seq<DateTime>, n: nat, k: int)
    requires n <= |dates|
    ensures k in OrderOf(dates, n) <==> 0 <= k < n
  {
    if n > 0 {
      OrderOfMember(dates, n - 1, k);
      InsertMember(dates, OrderOf(dates, n - 1), n - 1, k);
    }
  }

  /** No two of the first `n` posts are listed out of order. */
  lemma {:induction false} OrderOfSorted(dates: seq<DateTime>, n: nat)
    requires n <= |dates|
    ensures Sorted(dates, OrderOf(dates, n))
  {
    if n > 0 {
      OrderOfSorted(dates, n - 1);
      OrderOfElements(dates, n - 1);
      InsertSorted(dates, OrderOf(dates, n - 1), n - 1);
    }
  }

  /**
   * The listing order is a permutation of the configuration positions in which every post comes
   * after all newer ones and posts of equal date keep their configured order.
   */
  lemma OrderIsStableDescending(dates: seq<DateTime>)
    ensures |Order(dates)| == |dates|
    ensures forall k :: 0 <= k < |dates| <==> k in Order(dates)
    ensures forall i, j :: 0 <= i < j < |dates| ==> Order(dates)[i] != Order(dates)[j]
    ensures forall i, j :: 0 <= i < j < |dates| ==>
      !Earlier(dates[Order(dates)[i]], dates[Order(dates)[j]]) &&
      (dates[Order(dates)[i]] == dates[Order(dates)[j]] ==> Order(dates)[i] < Order(dates)[j])
  {
    OrderOfElements(dates, |dates|);
    OrderOfSorted(dates, |dates|);
    var o := Order(dates);
    forall i, j | 0 <= i < j < |dates|
      ensures o[i] != o[j]
      ensures !Earlier(dates[o[i]], dates[o[j]])
    {
      PrecedesOrder(dates, o[i], o[j], o[i]);
    }
  }

  lemma {:induction false} SelectInsert<T>(xs: seq<T>, dates: seq<DateTime>, order: seq<nat>, k: nat)
    requires |xs| == |dates| && InRange(dates, order) && k < |dates|
    ensures multiset(Select(xs, Insert(dates, order, k))) == multiset(Select(xs, order)) + multiset{xs[k]}
    decreases |order|
  {
    if order != [] && !Precedes(dates, k, order[0]) {
      SelectInsert(xs, dates, order[1..], k);
      assert Select(xs, order) == [xs[order[0]]] + Select(xs, order[1..]);
    }
  }

  /** Selecting in listing order rearranges the posts: nothing is lost or repeated. */
  lemma {:induction false} SelectOrderIsPermutation<T>(xs: seq<T>, dates: seq<DateTime>, n: nat)
    requires |xs| == |dates| && n <= |dates|
    ensures multiset(Select(xs, OrderOf(dates, n))) == multiset(xs[..n])
  {
    if n > 0 {
      var last: nat := n - 1;
      var prev := OrderOf(dates, last);
      SelectOrderIsPermutation(xs, dates, last);
      var r := Insert(dates, prev, last);
      assert OrderOf(dates, n) == r;
      SelectInsert(xs, dates, prev, last);
      PrefixMultiset(xs, n);
      calc {
        multiset(Select(xs, r));
        multiset(Select(xs, prev)) + multiset{xs[last]};
        multiset(xs[..last]) + multiset{xs[last]};
        multiset(xs[..n]);
      }
    }
  }

  lemma PrefixMultiset<T>(xs: seq<T>, n: nat)
    requires 0 < n <= |xs|
    ensures multiset(xs[..n]) == multiset(xs[..n - 1]) + multiset{xs[n - 1]}
  {
    assert xs[..n] == xs[..n - 1] + [xs[n - 1]];
  }
}
