/** Order-preserving filtering of a sequence. */
module Seqs {

  /** The elements of s that satisfy keep, in their original order. */
  function Filter<T>(s: seq<T>, keep: T -> bool): (r: seq<T>)
    ensures |r| <= |s|
  {
    if s == [] then []
    else Filter(s[..|s| - 1], keep) + (if keep(s[|s| - 1]) then [s[|s| - 1]] else [])
  }

  /**
   Filter picks exactly the satisfying positions, in increasing order: idx lists
   where each element of the result came from.
   */
  lemma {:induction false} FilterIsSubsequence<T>(s: seq<T>, keep: T -> bool) returns (idx: seq<int>)
    ensures |idx| == |Filter(s, keep)|
    ensures forall j :: 0 <= j < |idx| ==> 0 <= idx[j] < |s| && Filter(s, keep)[j] == s[idx[j]]
    ensures forall j, k :: 0 <= j < k < |idx| ==> idx[j] < idx[k]
    ensures forall i :: 0 <= i < |s| ==> (keep(s[i]) <==> i in idx)
  {
    if s == [] {
      idx := [];
    } else {
      var n := |s| - 1;
      var front := s[..n];
      var pre := FilterIsSubsequence(front, keep);
      var f := Filter(front, keep);
      var r := Filter(s, keep);
      assert r == f + (if keep(s[n]) then [s[n]] else []);
      idx := if keep(s[n]) then pre + [n] else pre;
      forall j | 0 <= j < |idx|
        ensures 0 <= idx[j] < |s| && r[j] == s[idx[j]]
      {
        if j < |pre| {
          assert idx[j] == pre[j] && r[j] == f[j];
          assert s[pre[j]] == front[pre[j]];
        }
      }
      forall j, k | 0 <= j < k < |idx| ensures idx[j] < idx[k] {
        if k < |pre| {
          assert idx[j] == pre[j] && idx[k] == pre[k];
        } else {
          assert idx[j] == pre[j] < n == idx[k];
        }
      }
      forall i | 0 <= i < |s| ensures keep(s[i]) <==> i in idx {
        if i < n {
          assert s[i] == front[i];
          assert i in idx <==> i in pre;
        } else {
          assert forall j :: 0 <= j < |pre| ==> pre[j] < n;
        }
      }
    }
  }

  /** Everything Filter keeps satisfies keep. */
  lemma {:induction false} FilterKeeps<T>(s: seq<T>, keep: T -> bool)
    ensures forall j :: 0 <= j < |Filter(s, keep)| ==> keep(Filter(s, keep)[j])
  {
    if s != [] {
      FilterKeeps(s[..|s| - 1], keep);
    }
  }

  /** An element is in the filtered sequence exactly when it is in s and satisfies keep. */
  lemma FilterMembership<T>(s: seq<T>, keep: T -> bool, x: T)
    ensures x in Filter(s, keep) <==> x in s && keep(x)
  {
    var idx := FilterIsSubsequence(s, keep);
    var r := Filter(s, keep);
    if x in r {
      var j :| 0 <= j < |r| && r[j] == x;
      assert s[idx[j]] == x;
    }
    if x in s && keep(x) {
      var i :| 0 <= i < |s| && s[i] == x;
      var j :| 0 <= j < |idx| && idx[j] == i;
      assert r[j] == x;
    }
  }
}
