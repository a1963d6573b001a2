/** Sorting by a caller-supplied total preorder, standing in for `Arrays.sort`
    and `Collections.sort`: the result is ordered, is a permutation of the input,
    and keeps elements the order ranks equal in their input order (both Java
    sorts are stable). */
module Sorting {

  ghost predicate TotalPreorder<T(!new)>(le: (T, T) -> bool) {
    && (forall a, b :: le(a, b) || le(b, a))
    && (forall a, b, c :: le(a, b) && le(b, c) ==> le(a, c))
  }

  predicate Sorted<T>(s: seq<T>, le: (T, T) -> bool) {
    forall i, j :: 0 <= i < j < |s| ==> le(s[i], s[j])
  }

  /** Inserts `x` in front of the first element ranked strictly above it, so
      after every element it ties with. */
  function Insert<T(!new)>(x: T, s: seq<T>, le: (T, T) -> bool): (r: seq<T>)
    requires TotalPreorder(le)
    requires Sorted(s, le)
    ensures Sorted(r, le)
    ensures multiset(r) == multiset(s) + multiset{x}
  {
    if |s| == 0 then [x]
    else if !le(s[0], x) then [x] + s
    else
      var tail := Insert(x, s[1..], le);
      assert multiset(s) == multiset{s[0]} + multiset(s[1..]) by {
        assert s == [s[0]] + s[1..];
      }
      assert forall k :: 0 <= k < |tail| ==> le(s[0], tail[k]) by {
        forall k | 0 <= k < |tail|
          ensures le(s[0], tail[k])
        {
          assert tail[k] in multiset(tail);
        }
      }
      [s[0]] + tail
  }

  function InsertionSort<T(!new)>(s: seq<T>, le: (T, T) -> bool): (r: seq<T>)
    requires TotalPreorder(le)
    ensures Sorted(r, le)
    ensures multiset(r) == multiset(s)
  {
    if |s| == 0 then []
    else
      assert s == s[..|s| - 1] + [s[|s| - 1]];
      Insert(s[|s| - 1], InsertionSort(s[..|s| - 1], le), le)
  }

  /** The elements of `s` ranked equal to `x`, in their order in `s`. */
  function Tied<T>(s: seq<T>, x: T, le: (T, T) -> bool): seq<T> {
    if |s| == 0 then []
    else (if le(s[0], x) && le(x, s[0]) then [s[0]] else []) + Tied(s[1..], x, le)
  }

  lemma {:induction false} TiedAppend<T>(a: seq<T>, b: seq<T>, x: T, le: (T, T) -> bool)
    ensures Tied(a + b, x, le) == Tied(a, x, le) + Tied(b, x, le)
  {
    if |a| == 0 {
      assert a + b == b;
    } else {
      assert (a + b)[1..] == a[1..] + b;
      TiedAppend(a[1..], b, x, le);
    }
  }

  /** Nothing in a sorted sequence whose head is above `x` ties with `x`. */
  lemma {:induction false} NoTiesAbove<T(!new)>(x: T, s: seq<T>, y: T, le: (T, T) -> bool)
    requires TotalPreorder(le)
    requires Sorted(s, le)
    requires |s| > 0 && !le(s[0], x)
    requires le(x, y) && le(y, x)
    ensures Tied(s, y, le) == []
  {
    if |s| > 1 {
      assert le(s[0], s[1]);
      NoTiesAbove(x, s[1..], y, le);
    } else {
      assert s[1..] == [];
    }
  }

  lemma TiedSingle<T>(x: T, y: T, le: (T, T) -> bool)
    ensures Tied([x], y, le) == if le(x, y) && le(y, x) then [x] else []
  {
    assert [x][1..] == [];
  }

  lemma TiedCons<T>(h: T, t: seq<T>, y: T, le: (T, T) -> bool)
    ensures Tied([h] + t, y, le) == Tied([h], y, le) + Tied(t, y, le)
  {
    TiedAppend([h], t, y, le);
  }

  lemma InsertTiedFront<T(!new)>(x: T, s: seq<T>, y: T, le: (T, T) -> bool)
    requires TotalPreorder(le)
    requires Sorted(s, le)
    requires |s| > 0 && !le(s[0], x)
    ensures Tied(Insert(x, s, le), y, le) == Tied(s, y, le) + Tied([x], y, le)
  {
    TiedSingle(x, y, le);
    assert Insert(x, s, le) == [x] + s;
    TiedCons(x, s, y, le);
    if le(x, y) && le(y, x) {
      NoTiesAbove(x, s, y, le);
    }
  }

  lemma HeadTail<T>(s: seq<T>)
    requires |s| > 0
    ensures [s[0]] + s[1..] == s
  {
  }

  lemma TiedBehindHead<T>(h: T, tail: seq<T>, rest: seq<T>, x: T, y: T, le: (T, T) -> bool)
    requires Tied(tail, y, le) == Tied(rest, y, le) + Tied([x], y, le)
    ensures Tied([h] + tail, y, le) == Tied([h] + rest, y, le) + Tied([x], y, le)
  {
    TiedCons(h, tail, y, le);
    TiedCons(h, rest, y, le);
    var a, b, c := Tied([h], y, le), Tied(rest, y, le), Tied([x], y, le);
    assert a + (b + c) == (a + b) + c;
  }

  lemma InsertTiedBehind<T(!new)>(x: T, s: seq<T>, y: T, le: (T, T) -> bool)
    requires TotalPreorder(le)
    requires Sorted(s, le)
    requires |s| > 0 && le(s[0], x)
    requires Tied(Insert(x, s[1..], le), y, le) == Tied(s[1..], y, le) + Tied([x], y, le)
    ensures Tied(Insert(x, s, le), y, le) == Tied(s, y, le) + Tied([x], y, le)
  {
    var tail := Insert(x, s[1..], le);
    assert Insert(x, s, le) == [s[0]] + tail;
    TiedBehindHead(s[0], tail, s[1..], x, y, le);
    HeadTail(s);
  }

  /** Inserting `x` adds it after everything already tied with it. */
  lemma {:induction false} InsertTied<T(!new)>(x: T, s: seq<T>, y: T, le: (T, T) -> bool)
    requires TotalPreorder(le)
    requires Sorted(s, le)
    ensures Tied(Insert(x, s, le), y, le) == Tied(s, y, le) + Tied([x], y, le)
  {
    TiedSingle(x, y, le);
    if |s| == 0 {
      assert Insert(x, s, le) == [x];
    } else if !le(s[0], x) {
      InsertTiedFront(x, s, y, le);
    } else {
      InsertTied(x, s[1..], y, le);
      InsertTiedBehind(x, s, y, le);
    }
  }

  /** The sort is stable: for every `y`, the elements tied with `y` keep their order. */
  lemma {:induction false} InsertionSortStable<T(!new)>(s: seq<T>, le: (T, T) -> bool)
    requires TotalPreorder(le)
    ensures forall y :: Tied(InsertionSort(s, le), y, le) == Tied(s, y, le)
  {
    if |s| > 0 {
      var prefix := s[..|s| - 1];
      var last := s[|s| - 1];
      InsertionSortStable(prefix, le);
      assert s == prefix + [last];
      forall y
        ensures Tied(InsertionSort(s, le), y, le) == Tied(s, y, le)
      {
        InsertTied(last, InsertionSort(prefix, le), y, le);
        TiedAppend(prefix, [last], y, le);
      }
    }
  }
}
