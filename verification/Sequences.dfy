/** Positional edits of sequences. */
module Sequences {

  function RemoveAt<T>(s: seq<T>, k: nat): (r: seq<T>)
    requires k < |s|
    ensures |r| == |s| - 1
    ensures forall i :: 0 <= i < k ==> r[i] == s[i]
    ensures forall i :: k <= i < |r| ==> r[i] == s[i + 1]
  {
    s[..k] + s[k + 1..]
  }

  function InsertAt<T>(s: seq<T>, k: nat, x: T): (r: seq<T>)
    requires k <= |s|
    ensures |r| == |s| + 1
    ensures forall i :: 0 <= i < k ==> r[i] == s[i]
    ensures r[k] == x
    ensures forall i :: k < i < |r| ==> r[i] == s[i - 1]
  {
    s[..k] + [x] + s[k..]
  }

  ghost predicate Distinct<T>(s: seq<T>) {
    forall i, j :: 0 <= i < j < |s| ==> s[i] != s[j]
  }

  lemma RemovedMembers<T>(s: seq<T>, k: nat)
    requires k < |s|
    requires Distinct(s)
    ensures forall x :: x in RemoveAt(s, k) <==> x in s && x != s[k]
  {
    var r := RemoveAt(s, k);
    forall x | x in s && x != s[k]
      ensures x in r
    {
      var i :| 0 <= i < |s| && s[i] == x;
      assert x == if i < k then r[i] else r[i - 1];
    }
  }

  lemma InsertedMembers<T>(s: seq<T>, k: nat, x: T)
    requires k <= |s|
    ensures forall y :: y in InsertAt(s, k, x) <==> y in s || y == x
  {
    var r := InsertAt(s, k, x);
    forall y | y in s
      ensures y in r
    {
      var i :| 0 <= i < |s| && s[i] == y;
      assert y == if i < k then r[i] else r[i + 1];
    }
    assert r[k] == x;
  }

  /** Distinct numbers below n are at most n many. */
  lemma {:induction false} PigeonHole(s: seq<nat>, n: nat)
    requires Distinct(s)
    requires forall k :: 0 <= k < |s| ==> s[k] < n
    ensures |s| <= n
    decreases n
  {
    if s != [] {
      assert s[0] < n;
      if exists k :: 0 <= k < |s| && s[k] == n - 1 {
        var k :| 0 <= k < |s| && s[k] == n - 1;
        PigeonHole(RemoveAt(s, k), n - 1);
      } else {
        PigeonHole(s, n - 1);
      }
    }
  }

  /** Distinct members of a set are at most as many as the set has. */
  lemma {:induction false} DistinctWithin<T>(s: seq<T>, whole: set<T>)
    requires Distinct(s)
    requires forall k :: 0 <= k < |s| ==> s[k] in whole
    ensures |s| <= |whole|
    decreases |s|
  {
    if s != [] {
      var last := |s| - 1;
      assert forall k :: 0 <= k < last ==> s[k] in whole - {s[last]};
      DistinctWithin(s[..last], whole - {s[last]});
    }
  }

  lemma {:induction false} MembersSize<T>(s: seq<T>)
    ensures |set x | x in s| <= |s|
  {
    if s != [] {
      MembersSize(s[1..]);
      assert (set x | x in s) == (set x | x in s[1..]) + {s[0]};
    }
  }
}
