module Wrappers {
  datatype Option<+T> = None | Some(value: T)
}

/** The unspecified iteration order of a map or set: any duplicate-free listing of it. */
module Iteration {
  ghost predicate Lists<T(!new)>(order: seq<T>, s: set<T>) {
    && (forall i, j :: 0 <= i < j < |order| ==> order[i] != order[j])
    && (forall x :: x in order <==> x in s)
  }

  method Enumerate<T(==,!new)>(s: set<T>) returns (order: seq<T>)
    ensures Lists(order, s)
  {
    var todo := s;
    order := [];
    while todo != {}
      invariant todo <= s
      invariant Lists(order, s - todo)
    {
      var x :| x in todo;
      ListOneMore(order, s - todo, x);
      assert s - (todo - {x}) == s - todo + {x};
      order := order + [x];
      todo := todo - {x};
    }
    assert s - {} == s;
  }

  lemma ListOneMore<T(!new)>(order: seq<T>, s: set<T>, x: T)
    requires Lists(order, s) && x !in s
    ensures Lists(order + [x], s + {x})
  {
    forall i | 0 <= i < |order| ensures order[i] != x {
      assert order[i] in order;
    }
  }
}
