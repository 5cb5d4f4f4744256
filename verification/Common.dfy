/** Shared result types and list facts. */
module Common {

  /** The source's `None`-or-value results. */
  datatype Option<+T> = None | Some(value: T)

  /** The source's exceptions, reduced to whether one was raised. */
  datatype Result<+T> = Ok(value: T) | Raised

  predicate Distinct<T(==)>(list: seq<T>) {
    forall i, j | 0 <= i < j < |list| :: list[i] != list[j]
  }

  lemma DistinctConcat<T>(a: seq<T>, b: seq<T>)
    requires Distinct(a) && Distinct(b) && forall x | x in b :: x !in a
    ensures Distinct(a + b)
  {
    forall i, j | 0 <= i < j < |a + b| ensures (a + b)[i] != (a + b)[j] {
      if i < |a| <= j {
        assert b[j - |a|] in b;
      }
    }
  }

  /** Each list with `b` in front. */
  function Prefixed(b: bool, lists: seq<seq<bool>>): seq<seq<bool>> {
    seq(|lists|, j requires 0 <= j < |lists| => [b] + lists[j])
  }

  lemma PrefixedMembers(b: bool, lists: seq<seq<bool>>, c: seq<bool>)
    ensures c in Prefixed(b, lists) <==> c != [] && c[0] == b && c[1..] in lists
  {
    if c != [] && c[0] == b && c[1..] in lists {
      var j :| 0 <= j < |lists| && lists[j] == c[1..];
      assert Prefixed(b, lists)[j] == [b] + c[1..] == c;
    }
    if c in Prefixed(b, lists) {
      var j :| 0 <= j < |lists| && Prefixed(b, lists)[j] == c;
      assert c == [b] + lists[j];
    }
  }

  lemma PrefixedDistinct(b: bool, lists: seq<seq<bool>>)
    requires Distinct(lists)
    ensures Distinct(Prefixed(b, lists))
  {
    forall i, j | 0 <= i < j < |lists| ensures Prefixed(b, lists)[i] != Prefixed(b, lists)[j] {
      assert ([b] + lists[i])[1..] == lists[i] && ([b] + lists[j])[1..] == lists[j];
    }
  }

  function Sum(s: seq<int>): int {
    if s == [] then 0 else s[0] + Sum(s[1..])
  }

  lemma {:induction false} SumAppend(s: seq<int>, x: int)
    ensures Sum(s + [x]) == Sum(s) + x
    decreases |s|
  {
    if s == [] {
      assert s + [x] == [x] && [x][1..] == [];
    } else {
      assert (s + [x])[1..] == s[1..] + [x];
      SumAppend(s[1..], x);
    }
  }
}
