/** `List<T>` operations shared by the modelled code: `IndexOf` and `Remove` over `seq`. */
module Lists {

  /** The position of the first occurrence. */
  function FirstIndex<T(==)>(list: seq<T>, x: T): (i: nat)
    requires x in list
    ensures i < |list| && list[i] == x && x !in list[..i]
  {
    if list[0] == x then 0 else 1 + FirstIndex(list[1..], x)
  }

  /** `List.Remove`: the first occurrence deleted, the order of the others kept. */
  function RemoveFirst<T(==)>(list: seq<T>, x: T): (r: seq<T>)
    ensures x in list ==> multiset(r) == multiset(list) - multiset{x} && |r| == |list| - 1
    ensures x !in list ==> r == list
  {
    if x in list then
      var i := FirstIndex(list, x);
      assert list == list[..i] + [x] + list[i + 1..];
      list[..i] + list[i + 1..]
    else list
  }

  /** The list around the first occurrence, and `RemoveFirst` as the list without it. */
  lemma RemoveFirstSplit<T>(list: seq<T>, x: T) returns (a: seq<T>, b: seq<T>)
    requires x in list
    ensures list == a + [x] + b && RemoveFirst(list, x) == a + b && x !in a
  {
    var i := FirstIndex(list, x);
    a, b := list[..i], list[i + 1..];
    assert list == a + [x] + b;
  }

  /** Removing an element that occurs once leaves a list in which it no longer occurs. */
  lemma RemoveOnlyOccurrence<T>(list: seq<T>, x: T)
    requires multiset(list)[x] == 1
    ensures x !in RemoveFirst(list, x)
  {
    assert x in multiset(list);
    assert multiset(RemoveFirst(list, x))[x] == 0;
  }

  predicate NoDuplicates<T(==)>(s: seq<T>) {
    forall i, j :: 0 <= i < j < |s| ==> s[i] != s[j]
  }

  /** Removing one element keeps a list free of duplicates. */
  lemma RemoveFirstNoDuplicates<T>(list: seq<T>, x: T)
    requires NoDuplicates(list)
    ensures NoDuplicates(RemoveFirst(list, x))
  {
    if x in list {
      var i := FirstIndex(list, x);
      var r := RemoveFirst(list, x);
      forall a, b | 0 <= a < b < |r| ensures r[a] != r[b] {
        var a' := if a < i then a else a + 1;
        var b' := if b < i then b else b + 1;
        assert r[a] == list[a'] && r[b] == list[b'];
      }
    }
  }

  /** Removing an element other than the head leaves the head in front. */
  lemma RemoveFirstCons<T>(y: T, rest: seq<T>, x: T)
    requires y != x
    ensures RemoveFirst([y] + rest, x) == [y] + RemoveFirst(rest, x)
  {
    var list := [y] + rest;
    assert list[1..] == rest;
    if x in rest {
      var j := FirstIndex(rest, x);
      assert FirstIndex(list, x) == 1 + j;
      calc {
        RemoveFirst(list, x);
        list[..j + 1] + list[j + 2..];
        { assert list[..j + 1] == [y] + rest[..j]; assert list[j + 2..] == rest[j + 1..]; }
        [y] + (rest[..j] + rest[j + 1..]);
      }
    } else {
      assert x !in list;
    }
  }

  /** The elements of `list` that are not in `gone`, in order. */
  function Drop<T(==)>(list: seq<T>, gone: seq<T>): (r: seq<T>)
    ensures |r| <= |list|
  {
    if |list| == 0 then []
    else (if list[0] in gone then [] else [list[0]]) + Drop(list[1..], gone)
  }

  /** `Drop` keeps exactly the elements not in `gone`. */
  lemma {:induction false} DropMembers<T>(list: seq<T>, gone: seq<T>, x: T)
    ensures x in Drop(list, gone) <==> x in list && x !in gone
  {
    if |list| > 0 {
      DropMembers(list[1..], gone, x);
      assert list == [list[0]] + list[1..];
    }
  }

  /** Dropping nothing keeps the whole list. */
  lemma {:induction false} DropNothing<T>(list: seq<T>)
    ensures Drop(list, []) == list
  {
    if |list| > 0 {
      DropNothing(list[1..]);
    }
  }

  /** Adding an element that does not occur to `gone` drops nothing more. */
  lemma {:induction false} DropAbsent<T>(list: seq<T>, gone: seq<T>, x: T)
    requires x !in list
    ensures Drop(list, gone + [x]) == Drop(list, gone)
  {
    if |list| > 0 {
      assert list[0] in gone + [x] <==> list[0] in gone;
      DropAbsent(list[1..], gone, x);
    }
  }

  /**
    In a list without duplicates, removing one more kept element is dropping it too: the first
    occurrence is the only one.
  */
  lemma {:induction false} RemoveFirstOfDrop<T>(list: seq<T>, gone: seq<T>, x: T)
    requires NoDuplicates(list) && x !in gone
    ensures RemoveFirst(Drop(list, gone), x) == Drop(list, gone + [x])
  {
    if |list| > 0 {
      var y, rest := list[0], list[1..];
      assert NoDuplicates(rest) by {
        forall a, b | 0 <= a < b < |rest| ensures rest[a] != rest[b] { assert rest[a] == list[a + 1] && rest[b] == list[b + 1]; }
      }
      if y == x {
        assert x !in rest by {
          forall k | 0 <= k < |rest| ensures rest[k] != x { assert rest[k] == list[k + 1]; }
        }
        DropAbsent(rest, gone, x);
        var d := Drop(rest, gone);
        assert Drop(list, gone) == [x] + d;
        assert Drop(list, gone + [x]) == Drop(rest, gone + [x]);
        assert FirstIndex([x] + d, x) == 0;
        assert RemoveFirst([x] + d, x) == ([x] + d)[1..] == d;
      } else {
        RemoveFirstOfDrop(rest, gone, x);
        if y in gone {
          assert Drop(list, gone) == Drop(rest, gone);
          assert Drop(list, gone + [x]) == Drop(rest, gone + [x]);
        } else {
          assert Drop(list, gone) == [y] + Drop(rest, gone);
          assert Drop(list, gone + [x]) == [y] + Drop(rest, gone + [x]);
          RemoveFirstCons(y, Drop(rest, gone), x);
        }
      }
    }
  }

  /** `List.Remove` applied for each element of `xs` in turn. */
  function RemoveEach<T(==)>(list: seq<T>, xs: seq<T>): (r: seq<T>)
    ensures |r| <= |list|
  {
    if |xs| == 0 then list else RemoveFirst(RemoveEach(list, xs[..|xs| - 1]), xs[|xs| - 1])
  }

  /** The elements of `a` occur in `b` in the same order. */
  predicate IsSubsequence<T(==)>(a: seq<T>, b: seq<T>)
    decreases |b|
  {
    |a| == 0 || (|b| > 0 && ((a[0] == b[0] && IsSubsequence(a[1..], b[1..])) || IsSubsequence(a, b[1..])))
  }

  /** An element in front of the longer list can be skipped. */
  lemma SubsequenceSkip<T>(a: seq<T>, x: T, b: seq<T>)
    requires IsSubsequence(a, b)
    ensures IsSubsequence(a, [x] + b)
  {
    assert ([x] + b)[1..] == b;
  }
}
