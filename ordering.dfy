/** ORDER BY org_name ASC. The database leaves the order of rows with equal
    names open; this model breaks such ties by table order (the sort is
    stable), and the page contracts of the listings are stated relative to
    that order. */
module Ordering {
  import opened Schema
  import Text

  predicate Sorted(r: seq<Stakeholder>) {
    forall i, j :: 0 <= i < j < |r| ==> Text.LessEq(r[i].orgName, r[j].orgName)
  }

  lemma SortedSlice(r: seq<Stakeholder>, lo: nat, hi: nat)
    requires Sorted(r) && lo <= hi <= |r|
    ensures Sorted(r[lo..hi])
  {
    assert forall k :: 0 <= k < hi - lo ==> r[lo..hi][k] == r[lo + k];
  }

  /** Places `x` into a sorted sequence. */
  function Insert(x: Stakeholder, s: seq<Stakeholder>): (r: seq<Stakeholder>)
    requires Sorted(s)
    ensures Sorted(r)
    ensures multiset(r) == multiset(s) + multiset{x}
  {
    if s == [] then [x]
    else if Text.LessEq(x.orgName, s[0].orgName) then
      InsertFront(x, s);
      [x] + s
    else
      var tail := Insert(x, s[1..]);
      InsertAfter(x, s, tail);
      [s[0]] + tail
  }

  lemma InsertFront(x: Stakeholder, s: seq<Stakeholder>)
    requires Sorted(s) && s != [] && Text.LessEq(x.orgName, s[0].orgName)
    ensures Sorted([x] + s)
  {
    forall j | 0 < j < |s|
      ensures Text.LessEq(x.orgName, s[j].orgName)
    {
      Text.LessEqTransitive(x.orgName, s[0].orgName, s[j].orgName);
    }
    var r := [x] + s;
    forall i, j | 0 <= i < j < |r|
      ensures Text.LessEq(r[i].orgName, r[j].orgName)
    {
      if i > 0 {
        assert r[i] == s[i - 1] && r[j] == s[j - 1];
      }
    }
  }

  lemma InsertAfter(x: Stakeholder, s: seq<Stakeholder>, tail: seq<Stakeholder>)
    requires Sorted(s) && s != [] && !Text.LessEq(x.orgName, s[0].orgName)
    requires Sorted(tail) && multiset(tail) == multiset(s[1..]) + multiset{x}
    ensures Sorted([s[0]] + tail)
    ensures multiset([s[0]] + tail) == multiset(s) + multiset{x}
  {
    Text.LessEqTotal(x.orgName, s[0].orgName);
    forall y | y in tail
      ensures Text.LessEq(s[0].orgName, y.orgName)
    {
      assert y in multiset(tail);
      if y != x {
        assert y in multiset(s[1..]);
        var k :| 0 <= k < |s[1..]| && s[1..][k] == y;
        assert s[k + 1] == y;
      }
    }
    var r := [s[0]] + tail;
    forall i, j | 0 <= i < j < |r|
      ensures Text.LessEq(r[i].orgName, r[j].orgName)
    {
      if i == 0 {
        assert r[j] in tail;
      } else {
        assert r[i] == tail[i - 1] && r[j] == tail[j - 1];
      }
    }
    assert s == [s[0]] + s[1..];
  }

  /** Insertion sort by org_name: an ordering of the rows, each kept as often
      as it occurs. */
  function SortByOrgName(s: seq<Stakeholder>): (r: seq<Stakeholder>)
    ensures Sorted(r)
    ensures multiset(r) == multiset(s)
    ensures |r| == |s|
  {
    if s == [] then []
    else
      assert s == [s[0]] + s[1..];
      var r := Insert(s[0], SortByOrgName(s[1..]));
      assert |multiset(r)| == |r|;
      r
  }
}
