/** The slide deck order (main.py:35): the directory listing sorted by name
    length with Python's stable sort, so names of equal length keep their
    listing order. Reading the directory is not modelled; the listing is given. */
module Deck {

  predicate SortedByLength(names: seq<string>) {
    forall i, j :: 0 <= i < j < |names| ==> |names[i]| <= |names[j]|
  }

  /** The names of length n, in the order they appear. */
  function WithLength(names: seq<string>, n: nat): seq<string> {
    if names == [] then []
    else (if |names[0]| == n then [names[0]] else []) + WithLength(names[1..], n)
  }

  /** Inserts a name in front of every name that is not shorter. */
  function InsertByLength(name: string, names: seq<string>): (r: seq<string>)
    ensures multiset(r) == multiset(names) + multiset{name}
  {
    if names == [] || |name| <= |names[0]| then [name] + names
    else
      assert names == [names[0]] + names[1..];
      [names[0]] + InsertByLength(name, names[1..])
  }

  /** `sorted(listing, key=len)`. */
  function SortByLength(listing: seq<string>): (r: seq<string>)
    ensures multiset(r) == multiset(listing)
  {
    if listing == [] then []
    else
      assert listing == [listing[0]] + listing[1..];
      InsertByLength(listing[0], SortByLength(listing[1..]))
  }

  lemma {:induction false} InsertKeepsSorted(name: string, names: seq<string>)
    requires SortedByLength(names)
    ensures SortedByLength(InsertByLength(name, names))
    ensures InsertByLength(name, names) != []
    ensures InsertByLength(name, names)[0] == name || InsertByLength(name, names)[0] == names[0]
  {
    if names != [] && |name| > |names[0]| {
      var rest := names[1..];
      assert SortedByLength(rest);
      InsertKeepsSorted(name, rest);
      var r := InsertByLength(name, names);
      assert r == [names[0]] + InsertByLength(name, rest);
      forall i, j | 0 <= i < j < |r|
        ensures |r[i]| <= |r[j]|
      {
        if i == 0 {
          assert r[j] in multiset(InsertByLength(name, rest));
          assert r[j] == name || r[j] in multiset(rest);
          if r[j] != name {
            var k :| 0 <= k < |rest| && rest[k] == r[j];
            assert names[k + 1] == r[j];
          }
        }
      }
    }
  }

  /** The result has non-decreasing name lengths. */
  lemma {:induction false} SortByLengthSorted(listing: seq<string>)
    ensures SortedByLength(SortByLength(listing))
  {
    if listing != [] {
      SortByLengthSorted(listing[1..]);
      InsertKeepsSorted(listing[0], SortByLength(listing[1..]));
    }
  }

  lemma {:induction false} InsertStable(name: string, names: seq<string>, n: nat)
    requires SortedByLength(names)
    ensures WithLength(InsertByLength(name, names), n) == WithLength([name] + names, n)
  {
    if names != [] && |name| > |names[0]| {
      var rest := names[1..];
      assert SortedByLength(rest);
      InsertStable(name, rest, n);
      assert ([names[0]] + InsertByLength(name, rest))[1..] == InsertByLength(name, rest);
      assert ([name] + names)[1..] == names;
      assert ([name] + rest)[1..] == rest;
      assert ([names[0]] + ([name] + rest))[1..] == [name] + rest;
    }
  }

  /** Stability: for every length, the names of that length appear in the
      result in the same order as in the listing. */
  lemma {:induction false} SortByLengthStable(listing: seq<string>, n: nat)
    ensures WithLength(SortByLength(listing), n) == WithLength(listing, n)
  {
    if listing != [] {
      var rest := SortByLength(listing[1..]);
      SortByLengthStable(listing[1..], n);
      SortByLengthSorted(listing[1..]);
      InsertStable(listing[0], rest, n);
      assert ([listing[0]] + rest)[1..] == rest;
    }
  }

  lemma {:induction false} NoneOfLength(names: seq<string>, n: nat)
    requires forall i :: 0 <= i < |names| ==> |names[i]| != n
    ensures WithLength(names, n) == []
  {
    if names != [] {
      NoneOfLength(names[1..], n);
    }
  }

  lemma HasOwnLength(names: seq<string>)
    ensures names != [] ==> WithLength(names, |names[0]|) != []
  {
  }

  /** Two length-sorted sequences with the same names of each length, in the
      same order, are equal. */
  lemma {:induction false} SortedByLengthUnique(a: seq<string>, b: seq<string>)
    requires SortedByLength(a) && SortedByLength(b)
    requires forall n: nat :: WithLength(a, n) == WithLength(b, n)
    ensures a == b
    decreases |a| + |b|
  {
    if a == [] && b != [] {
      HasOwnLength(b);
      assert false;
    } else if a != [] && b == [] {
      HasOwnLength(a);
      assert false;
    } else if a != [] {
      if |a[0]| < |b[0]| {
        NoneOfLength(b, |a[0]|);
        HasOwnLength(a);
        assert false;
      } else if |b[0]| < |a[0]| {
        NoneOfLength(a, |b[0]|);
        HasOwnLength(b);
        assert false;
      } else {
        var m := |a[0]|;
        assert WithLength(a, m) == [a[0]] + WithLength(a[1..], m);
        assert WithLength(b, m) == [b[0]] + WithLength(b[1..], m);
        assert a[0] == WithLength(a, m)[0] == WithLength(b, m)[0] == b[0];
        forall n: nat
          ensures WithLength(a[1..], n) == WithLength(b[1..], n)
        {
          assert WithLength(a, n) == WithLength(b, n);
          if n == m {
            assert WithLength(a, n) == [a[0]] + WithLength(a[1..], n);
            assert WithLength(b, n) == [b[0]] + WithLength(b[1..], n);
            assert ([a[0]] + WithLength(a[1..], n))[1..] == WithLength(a[1..], n);
            assert ([b[0]] + WithLength(b[1..], n))[1..] == WithLength(b[1..], n);
          } else {
            assert WithLength(a, n) == WithLength(a[1..], n);
            assert WithLength(b, n) == WithLength(b[1..], n);
          }
        }
        SortedByLengthUnique(a[1..], b[1..]);
        assert a == [a[0]] + a[1..] && b == [b[0]] + b[1..];
      }
    }
  }

  /** Being sorted by length and stable determines the result: any order with
      both properties is the one SortByLength computes. */
  lemma SortByLengthIsTheStableOrder(listing: seq<string>, order: seq<string>)
    requires SortedByLength(order)
    requires forall n: nat :: WithLength(order, n) == WithLength(listing, n)
    ensures order == SortByLength(listing)
  {
    SortByLengthSorted(listing);
    forall n: nat
      ensures WithLength(order, n) == WithLength(SortByLength(listing), n)
    {
      SortByLengthStable(listing, n);
    }
    SortedByLengthUnique(order, SortByLength(listing));
  }
}
