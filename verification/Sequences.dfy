// Facts about sequences without repetition and about removing elements, used
// where the source keeps ids in a vector or deque.
module Sequences {

  ghost predicate NoDuplicates<T>(s: seq<T>) {
    forall i, j :: 0 <= i < j < |s| ==> s[i] != s[j]
  }

  ghost predicate StrictlyIncreasing(s: seq<nat>) {
    forall i, j :: 0 <= i < j < |s| ==> s[i] < s[j]
  }

  // The elements of a sequence, as a set.
  function Elements<T(!new)>(s: seq<T>): (r: set<T>)
    ensures forall x :: x in r <==> x in s
  {
    set x | x in s
  }

  // Vec::retain with the predicate "not in dropped".
  function Retain<T(==,!new)>(s: seq<T>, dropped: set<T>): (r: seq<T>)
    ensures forall x :: x in r <==> x in s && x !in dropped
  {
    if |s| == 0 then []
    else
      var rest := Retain(s[1..], dropped);
      if s[0] in dropped then rest else [s[0]] + rest
  }

  lemma {:induction false} RetainConcat<T(!new)>(a: seq<T>, b: seq<T>, dropped: set<T>)
    ensures Retain(a + b, dropped) == Retain(a, dropped) + Retain(b, dropped)
  {
    if |a| == 0 {
      assert a + b == b;
    } else {
      var rest := a[1..];
      assert (a + b)[0] == a[0] && (a + b)[1..] == rest + b;
      RetainConcat(rest, b, dropped);
      assert [a[0]] + (Retain(rest, dropped) + Retain(b, dropped))
          == ([a[0]] + Retain(rest, dropped)) + Retain(b, dropped);
    }
  }

  lemma {:induction false} RetainTwice<T(!new)>(s: seq<T>, d: set<T>, e: set<T>)
    ensures Retain(Retain(s, d), e) == Retain(s, d + e)
  {
    if |s| > 0 {
      RetainTwice(s[1..], d, e);
      var rest := Retain(s[1..], d);
      if s[0] !in d {
        assert ([s[0]] + rest)[1..] == rest;
      }
    }
  }

  lemma {:induction false} RetainUntouched<T(!new)>(s: seq<T>, dropped: set<T>)
    requires forall x :: x in s ==> x !in dropped
    ensures Retain(s, dropped) == s
  {
    if |s| > 0 {
      assert forall x :: x in s[1..] ==> x in s;
      RetainUntouched(s[1..], dropped);
    }
  }

  lemma {:induction false} RetainAll<T(!new)>(s: seq<T>, dropped: set<T>)
    requires forall x :: x in s ==> x in dropped
    ensures Retain(s, dropped) == []
  {
    if |s| > 0 {
      assert forall x :: x in s[1..] ==> x in s;
      RetainAll(s[1..], dropped);
    }
  }

  lemma {:induction false} RetainKeepsDistinct<T(!new)>(s: seq<T>, dropped: set<T>)
    requires NoDuplicates(s)
    ensures NoDuplicates(Retain(s, dropped))
  {
    if |s| > 0 {
      RetainKeepsDistinct(s[1..], dropped);
      assert s[0] !in s[1..];
    }
  }

  lemma DistinctConcat<T>(a: seq<T>, b: seq<T>)
    requires NoDuplicates(a) && NoDuplicates(b)
    requires forall x :: x in a ==> x !in b
    ensures NoDuplicates(a + b)
  {
    var s := a + b;
    forall i, j | 0 <= i < j < |s| ensures s[i] != s[j] {
      if i < |a| && |a| <= j {
        assert s[i] in a && s[j] in b;
      }
    }
  }

  lemma DistinctParts<T>(a: seq<T>, b: seq<T>)
    requires NoDuplicates(a + b)
    ensures NoDuplicates(a) && NoDuplicates(b)
    ensures forall x :: x in a ==> x !in b
  {
    var s := a + b;
    forall i, j | 0 <= i < j < |a| ensures a[i] != a[j] {
      assert s[i] == a[i] && s[j] == a[j];
    }
    forall i, j | 0 <= i < j < |b| ensures b[i] != b[j] {
      assert s[|a| + i] == b[i] && s[|a| + j] == b[j];
    }
    forall i, j | 0 <= i < |a| && 0 <= j < |b| ensures a[i] != b[j] {
      assert s[i] == a[i] && s[|a| + j] == b[j];
    }
  }
}
