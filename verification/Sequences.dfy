/** Sequences without repetition, among them queues of waiting threads. */
module Sequences {
  predicate NoDup<T(==)>(s: seq<T>) { forall i, j :: 0 <= i < j < |s| ==> s[i] != s[j] }

  lemma Popped<T>(q: seq<T>)
    requires NoDup(q) && q != []
    ensures q[0] in q && NoDup(q[1..]) && forall u :: u in q[1..] <==> u in q && u != q[0]
  {
    forall u ensures u in q[1..] <==> u in q && u != q[0] {
      if u in q && u != q[0] {
        var i :| 0 <= i < |q| && q[i] == u;
        assert q[1..][i - 1] == u;
      }
    }
  }
}
