/** Go's order of strings, and the strictly sorted lists that the gateway keeps in it. */
module Ordering {

  /** Go's order of strings. */
  predicate Less(a: string, b: string) {
    if a == "" || b == "" then a == "" && b != ""
    else if a[0] != b[0] then a[0] < b[0]
    else Less(a[1..], b[1..])
  }

  lemma {:induction false} LessTotal(a: string, b: string)
    ensures Less(a, b) || a == b || Less(b, a)
    ensures !(Less(a, b) && Less(b, a)) && !Less(a, a)
  {
    if a != "" && b != "" {
      LessTotal(a[1..], b[1..]);
      LessTotal(a[1..], a[1..]);
      assert a == [a[0]] + a[1..] && b == [b[0]] + b[1..];
    } else if a != "" {
      LessTotal(a[1..], a[1..]);
    }
  }

  lemma {:induction false} LessTransitive(a: string, b: string, c: string)
    requires Less(a, b) && Less(b, c)
    ensures Less(a, c)
  {
    if a != "" && a[0] == b[0] == c[0] {
      LessTransitive(a[1..], b[1..], c[1..]);
    }
  }

  /** The strings agree up to a position at which the first ends, or has the smaller character. */
  ghost predicate DiffersAt(a: string, b: string, i: nat) {
    i <= |a| && i < |b| && a[..i] == b[..i] && (i < |a| ==> a[i] < b[i])
  }

  lemma {:induction false} LessDiffers(a: string, b: string) returns (i: nat)
    requires Less(a, b)
    ensures DiffersAt(a, b, i)
  {
    if a != "" && a[0] == b[0] {
      var j := LessDiffers(a[1..], b[1..]);
      i := j + 1;
      assert a[..i] == [a[0]] + a[1..][..j] && b[..i] == [b[0]] + b[1..][..j];
    } else {
      i := 0;
    }
  }

  lemma {:induction false} DiffersIsLess(a: string, b: string, i: nat)
    requires DiffersAt(a, b, i)
    ensures Less(a, b)
  {
    if i > 0 {
      assert a[..i][0] == b[..i][0];
      assert a[1..][..i - 1] == a[..i][1..] && b[1..][..i - 1] == b[..i][1..];
      DiffersIsLess(a[1..], b[1..], i - 1);
    }
  }

  /** What the order is: by the first difference, a proper prefix before what it is a prefix of. */
  lemma LessExactly(a: string, b: string)
    ensures Less(a, b) <==> exists i: nat :: DiffersAt(a, b, i)
  {
    if Less(a, b) {
      var i := LessDiffers(a, b);
    }
    forall i: nat | DiffersAt(a, b, i)
      ensures Less(a, b)
    {
      DiffersIsLess(a, b, i);
    }
  }

  /** Strictly increasing. */
  ghost predicate Sorted(s: seq<string>) {
    forall i, j :: 0 <= i < j < |s| ==> Less(s[i], s[j])
  }

  /** slices.BinarySearch: the position of `x`, or the one at which to insert it. */
  method BinarySearch(s: seq<string>, x: string) returns (index: nat, found: bool)
    requires Sorted(s)
    ensures index <= |s| && (found <==> x in s)
    ensures forall i :: 0 <= i < index ==> Less(s[i], x)
    ensures forall i :: index <= i < |s| ==> s[i] == x || Less(x, s[i])
    ensures found ==> index < |s| && s[index] == x
  {
    index := 0;
    var high := |s|;
    while index < high
      invariant index <= high <= |s|
      invariant forall i :: 0 <= i < index ==> Less(s[i], x)
      invariant forall i :: high <= i < |s| ==> s[i] == x || Less(x, s[i])
    {
      var middle := (index + high) / 2;
      LessTotal(s[middle], x);
      if Less(s[middle], x) {
        BelowMiddle(s, x, middle);
        index := middle + 1;
      } else {
        AboveMiddle(s, x, middle);
        high := middle;
      }
    }
    found := index < |s| && s[index] == x;
    if !found {
      forall i | 0 <= i < |s|
        ensures s[i] != x
      {
        LessTotal(x, x);
        if index < i { AboveStrictly(s, x, index, i); }
      }
    }
  }

  lemma BelowMiddle(s: seq<string>, x: string, middle: nat)
    requires Sorted(s) && middle < |s| && Less(s[middle], x)
    ensures forall i :: 0 <= i <= middle ==> Less(s[i], x)
  {
    forall i | 0 <= i < middle
      ensures Less(s[i], x)
    {
      LessTransitive(s[i], s[middle], x);
    }
  }

  lemma AboveMiddle(s: seq<string>, x: string, middle: nat)
    requires Sorted(s) && middle < |s| && (s[middle] == x || Less(x, s[middle]))
    ensures forall i :: middle <= i < |s| ==> s[i] == x || Less(x, s[i])
  {
    forall i | middle < i < |s|
      ensures Less(x, s[i])
    {
      if s[middle] != x { LessTransitive(x, s[middle], s[i]); }
    }
  }

  lemma AboveStrictly(s: seq<string>, x: string, index: nat, i: nat)
    requires Sorted(s) && index < i < |s| && (s[index] == x || Less(x, s[index]))
    ensures Less(x, s[i]) && s[i] != x
  {
    if s[index] != x { LessTransitive(x, s[index], s[i]); }
    LessTotal(x, x);
  }

  /** Adds a string to a sorted list unless it is there. */
  method Insert(s: seq<string>, x: string) returns (r: seq<string>)
    requires Sorted(s)
    ensures Sorted(r) && forall m :: m in r <==> m in s || m == x
  {
    var index, found := BinarySearch(s, x);
    if found {
      return s;
    }
    r := s[..index] + [x] + s[index..];
    assert s == s[..index] + s[index..];
    forall i | index <= i < |s|
      ensures Less(x, s[i])
    {
      assert s[i] in s;
    }
    forall i, j | 0 <= i < j < |r|
      ensures Less(r[i], r[j])
    {
      if i < index < j { LessTransitive(s[i], x, s[j - 1]); }
    }
  }

  method InsertAll(s: seq<string>, more: seq<string>) returns (r: seq<string>)
    requires Sorted(s)
    ensures Sorted(r) && forall m :: m in r <==> m in s || m in more
  {
    r := s;
    for i := 0 to |more|
      invariant Sorted(r) && forall m :: m in r <==> m in s || m in more[..i]
    {
      r := Insert(r, more[i]);
      assert more[..i + 1] == more[..i] + [more[i]];
    }
    assert more[..|more|] == more;
  }

  /** The elements of a set in order. */
  method SortedList(elements: set<string>) returns (r: seq<string>)
    ensures Sorted(r) && forall m :: m in r <==> m in elements
  {
    r := [];
    var rest := elements;
    while rest != {}
      invariant Sorted(r) && rest <= elements && forall m :: m in r <==> m in elements - rest
      decreases |rest|
    {
      var x :| x in rest;
      r := Insert(r, x);
      rest := rest - {x};
    }
  }

  lemma {:induction false} SortedUnique(a: seq<string>, b: seq<string>)
    requires Sorted(a) && Sorted(b) && forall m :: m in a <==> m in b
    ensures a == b
  {
    assert a != [] ==> a[0] in b;
    assert b != [] ==> b[0] in a;
    if a != [] && b != [] {
      var m, n := a[|a| - 1], b[|b| - 1];
      LastIsGreatest(a, n);
      LastIsGreatest(b, m);
      LessTotal(m, n);
      var a', b' := a[..|a| - 1], b[..|b| - 1];
      forall x
        ensures x in a' <==> x in b'
      {
        LastIsGreatest(a, x);
        LastIsGreatest(b, x);
        LessTotal(m, m);
        assert x in a <==> x in a' || x == m;
        assert x in b <==> x in b' || x == m;
      }
      SortedUnique(a', b');
      assert a == a' + [m] && b == b' + [m];
    }
  }

  lemma LastIsGreatest(s: seq<string>, x: string)
    requires Sorted(s) && s != []
    ensures x in s ==> x == s[|s| - 1] || Less(x, s[|s| - 1])
    ensures x in s[..|s| - 1] ==> Less(x, s[|s| - 1])
  {
  }
}
