/** Small value types and collection facts shared by every other module. */
module Collections {

  datatype Option<+T> = None | Some(value: T)

  type Bytes = seq<bv8>

  /** All messages joined into one byte stream. */
  function Flatten(messages: seq<Bytes>): Bytes {
    if messages == [] then [] else messages[0] + Flatten(messages[1..])
  }

  /** The number of bytes held by a list of messages. */
  function TotalLength(messages: seq<Bytes>): nat {
    if messages == [] then 0 else |messages[0]| + TotalLength(messages[1..])
  }

  lemma {:induction false} FlattenAppend(messages: seq<Bytes>, more: seq<Bytes>)
    ensures Flatten(messages + more) == Flatten(messages) + Flatten(more)
  {
    if messages == [] {
      assert messages + more == more;
    } else {
      assert (messages + more)[1..] == messages[1..] + more;
      FlattenAppend(messages[1..], more);
    }
  }

  lemma {:induction false} TotalLengthAppend(messages: seq<Bytes>, more: seq<Bytes>)
    ensures TotalLength(messages + more) == TotalLength(messages) + TotalLength(more)
  {
    if messages == [] {
      assert messages + more == more;
    } else {
      assert (messages + more)[1..] == messages[1..] + more;
      TotalLengthAppend(messages[1..], more);
    }
  }

  lemma {:induction false} FlattenOne(message: Bytes)
    ensures Flatten([message]) == message
    ensures TotalLength([message]) == |message|
  {
    assert [message][1..] == [];
  }

  /** The sum of a map's values, summed in any order. */
  ghost function SumOfValues<K(!new)>(m: map<K, int>): int {
    if m == map[] then 0
    else
      var k :| k in m;
      m[k] + SumOfValues(m - {k})
  }

  /** The order of summation does not matter: any key may be taken out first. */
  lemma {:induction false} SumOfValuesTakeOut<K(!new)>(m: map<K, int>, k: K)
    requires k in m
    ensures SumOfValues(m) == m[k] + SumOfValues(m - {k})
    decreases |m|
  {
    var first :| first in m && SumOfValues(m) == m[first] + SumOfValues(m - {first});
    if first != k {
      SumOfValuesTakeOut(m - {first}, k);
      SumOfValuesTakeOut(m - {k}, first);
      assert m - {first} - {k} == m - {k} - {first};
    }
  }

  function AsCount(b: bool): int {
    if b then 1 else 0
  }

  /** Two sets that agree away from one element differ in size by that element. */
  lemma SizesAround<T>(before: set<T>, after: set<T>, x: T)
    requires before - {x} == after - {x}
    ensures |after| == |before| + AsCount(x in after) - AsCount(x in before)
  {
    assert x in before ==> before == (before - {x}) + {x};
    assert x in after ==> after == (after - {x}) + {x};
    assert x !in before ==> before == before - {x};
    assert x !in after ==> after == after - {x};
  }

  lemma SubsetIsNoLarger<T>(small: set<T>, large: set<T>)
    requires small <= large
    ensures |small| <= |large|
  {
    assert large == small + (large - small);
  }
}
