/** `combineReshareCommittee`: the union of two committees with the positions of the members of each. */
module ReshareCommittee {

  /** `Array.from(new Set(s))`: each element where it first occurs. */
  function Deduplicated(s: seq<string>): seq<string>
    decreases |s|
  {
    if s == [] then []
    else
      var init, last := Deduplicated(s[..|s| - 1]), s[|s| - 1];
      if last in init then init else init + [last]
  }

  function FirstIndex(s: seq<string>, x: string): (i: nat)
    ensures i <= |s| && (i < |s| ==> s[i] == x) && (forall k :: 0 <= k < i ==> s[k] != x)
  {
    if s == [] || s[0] == x then 0 else 1 + FirstIndex(s[1..], x)
  }

  predicate NoDuplicates(s: seq<string>) {
    forall i, j :: 0 <= i < j < |s| ==> s[i] != s[j]
  }

  predicate InFirstOccurrenceOrder(d: seq<string>, s: seq<string>) {
    forall i, j :: 0 <= i < j < |d| ==> FirstIndex(s, d[i]) < FirstIndex(s, d[j])
  }

  lemma FirstIndexOfPrefix(s: seq<string>, n: nat, x: string)
    requires n <= |s| && x in s[..n]
    ensures FirstIndex(s, x) == FirstIndex(s[..n], x)
  {
    var k := FirstIndex(s[..n], x);
    assert k < n by {
      var j :| 0 <= j < n && s[..n][j] == x;
    }
    assert s[k] == s[..n][k];
    assert forall m :: 0 <= m < k ==> s[m] == s[..n][m];
  }

  lemma {:induction false} DeduplicatedIsTheUnion(s: seq<string>)
    ensures var d := Deduplicated(s);
            NoDuplicates(d) && (forall x :: x in d <==> x in s) && InFirstOccurrenceOrder(d, s)
    decreases |s|
  {
    if s != [] {
      var n := |s| - 1;
      var init, d := Deduplicated(s[..n]), Deduplicated(s);
      DeduplicatedIsTheUnion(s[..n]);
      assert s == s[..n] + [s[n]];
      forall i | 0 <= i < |init| ensures FirstIndex(s, init[i]) == FirstIndex(s[..n], init[i]) < n {
        assert init[i] in s[..n];
        FirstIndexOfPrefix(s, n, init[i]);
      }
      if s[n] !in init {
        assert FirstIndex(s, s[n]) == n;
      }
    }
  }

  lemma Member(e: seq<string>) returns (x: string)
    requires e != []
    ensures x in e
  {
    x := e[0];
  }

  /** Nothing else is such a list: order and elements leave no choice. */
  lemma {:induction false} FirstOccurrenceListIsUnique(d: seq<string>, e: seq<string>, s: seq<string>)
    requires forall x :: x in d <==> x in e
    requires InFirstOccurrenceOrder(d, s) && InFirstOccurrenceOrder(e, s)
    ensures d == e
    decreases |d|
  {
    if d == [] {
      if e != [] {
        var x := Member(e);
        assert false;
      }
    } else {
      assert d[0] in e;
      assert e[0] in d;
      assert d[0] == e[0] by {
        var i :| 0 <= i < |e| && e[i] == d[0];
        var j :| 0 <= j < |d| && d[j] == e[0];
      }
      forall x ensures x in d[1..] <==> x in e[1..] {
        SameTail(d, e, s, x);
        SameTail(e, d, s, x);
      }
      FirstOccurrenceListIsUnique(d[1..], e[1..], s);
    }
  }

  lemma SameTail(d: seq<string>, e: seq<string>, s: seq<string>, x: string)
    requires d != [] && e != [] && d[0] == e[0] && InFirstOccurrenceOrder(d, s) && (x in d ==> x in e)
    ensures x in d[1..] ==> x in e[1..]
  {
    if x in d[1..] {
      var i :| 1 <= i < |d| && d[i] == x;
      var j :| 0 <= j < |e| && e[j] == x;
      assert FirstIndex(s, d[0]) < FirstIndex(s, d[i]);
      assert j > 0;
      assert e[1..][j - 1] == x;
    }
  }

  predicate StrictlyIncreasing(s: seq<nat>) {
    forall i, j :: 0 <= i < j < |s| ==> s[i] < s[j]
  }

  /** The positions, in order, of the members of `committee` within `all`. */
  ghost predicate SelectsExactly(positions: seq<nat>, all: seq<string>, committee: seq<string>) {
    StrictlyIncreasing(positions) && forall i: nat :: i in positions <==> i < |all| && all[i] in committee
  }

  method CombineReshareCommittee(keygenCommittee: seq<string>, oldKeygenCommittee: seq<string>)
    returns (allCommittee: seq<string>, newCommitteeIdx: seq<nat>, oldCommitteeIdx: seq<nat>)
    ensures NoDuplicates(allCommittee) && InFirstOccurrenceOrder(allCommittee, keygenCommittee + oldKeygenCommittee)
    ensures forall x :: x in allCommittee <==> x in keygenCommittee || x in oldKeygenCommittee
    ensures SelectsExactly(newCommitteeIdx, allCommittee, keygenCommittee)
    ensures SelectsExactly(oldCommitteeIdx, allCommittee, oldKeygenCommittee)
    ensures forall i: nat :: i < |allCommittee| ==> i in newCommitteeIdx || i in oldCommitteeIdx
  {
    allCommittee := Deduplicated(keygenCommittee + oldKeygenCommittee);
    DeduplicatedIsTheUnion(keygenCommittee + oldKeygenCommittee);
    newCommitteeIdx, oldCommitteeIdx := [], [];
    for idx := 0 to |allCommittee|
      invariant StrictlyIncreasing(newCommitteeIdx) && StrictlyIncreasing(oldCommitteeIdx)
      invariant forall k :: 0 <= k < |newCommitteeIdx| ==> newCommitteeIdx[k] < idx
      invariant forall k :: 0 <= k < |oldCommitteeIdx| ==> oldCommitteeIdx[k] < idx
      invariant forall i: nat :: i in newCommitteeIdx <==> i < idx && allCommittee[i] in keygenCommittee
      invariant forall i: nat :: i in oldCommitteeIdx <==> i < idx && allCommittee[i] in oldKeygenCommittee
    {
      var key := allCommittee[idx];
      if key in oldKeygenCommittee {
        oldCommitteeIdx := oldCommitteeIdx + [idx];
      }
      if key in keygenCommittee {
        newCommitteeIdx := newCommitteeIdx + [idx];
      }
    }
  }

  /** The new committee takes the first positions: its index list is 0, 1, 2, and so on. */
  lemma NewCommitteeComesFirst(
      all: seq<string>, keygen: seq<string>, previous: seq<string>, positions: seq<nat>, k: nat)
    requires InFirstOccurrenceOrder(all, keygen + previous) && SelectsExactly(positions, all, keygen)
    requires k < |positions|
    ensures positions[k] == k
  {
    var s := keygen + previous;
    forall i: nat, j: nat | j < i && i in positions ensures j in positions {
      assert all[i] in keygen;
      FirstIndexIsInFront(keygen, previous, all[i]);
      assert s[FirstIndex(s, all[j])] == keygen[FirstIndex(s, all[j])];
      assert all[j] in keygen;
    }
    DownwardClosedCountsUp(positions, k);
  }

  lemma FirstIndexIsInFront(a: seq<string>, b: seq<string>, x: string)
    requires x in a
    ensures FirstIndex(a + b, x) < |a|
  {
    var i :| 0 <= i < |a| && a[i] == x;
    assert (a + b)[i] == x;
  }

  lemma {:induction false} DownwardClosedCountsUp(positions: seq<nat>, k: nat)
    requires StrictlyIncreasing(positions) && k < |positions|
    requires forall i: nat, j: nat :: j < i && i in positions ==> j in positions
    ensures positions[k] == k
    decreases k
  {
    if k > 0 {
      DownwardClosedCountsUp(positions, k - 1);
      assert positions[k - 1] < positions[k];
    }
    if positions[k] > k {
      assert positions[k] in positions;
      assert k in positions;
      var m :| 0 <= m < |positions| && positions[m] == k;
      assert m < k;
      DownwardClosedCountsUp(positions, m);
      assert false;
    }
  }
}
