/** `Vec::dedup` on the ramp column: adjacent repeats collapse to one entry. */
module Ramps {

  /**
   * `Vec::dedup`: every maximal run of equal adjacent elements is reduced to
   * its first element; elements that are equal but not adjacent all stay.
   */
  function Dedup<T(==)>(s: seq<T>): (r: seq<T>)
    ensures |r| <= |s|
    ensures r == [] <==> s == []
    ensures s != [] ==> r[0] == s[0] && r[|r| - 1] == s[|s| - 1]
  {
    if |s| <= 1 then s
    else
      var p := Dedup(s[..|s| - 1]);
      if s[|s| - 1] == s[|s| - 2] then p else p + [s[|s| - 1]]
  }

  /** No two adjacent elements of `s` are equal: the last two differ, and so on back to the front. */
  ghost predicate NoAdjacentRepeats<T>(s: seq<T>)
  {
    |s| <= 1 || (s[|s| - 2] != s[|s| - 1] && NoAdjacentRepeats(s[..|s| - 1]))
  }

  /** Read at positions: `s[i]` differs from `s[i + 1]`. */
  lemma {:induction false} NoAdjacentRepeatsAt<T>(s: seq<T>, i: nat)
    requires NoAdjacentRepeats(s) && i + 1 < |s|
    ensures s[i] != s[i + 1]
    decreases |s|
  {
    if i + 2 < |s| {
      NoAdjacentRepeatsAt(s[..|s| - 1], i);
    }
  }

  /** The converse of `NoAdjacentRepeatsAt`: neighbours that differ at every position make a list without adjacent repeats. */
  lemma {:induction false} NoAdjacentRepeatsFromPairs<T>(s: seq<T>)
    requires forall i :: 0 < i < |s| ==> s[i - 1] != s[i]
    ensures NoAdjacentRepeats(s)
    decreases |s|
  {
    if |s| > 1 {
      var p := s[..|s| - 1];
      forall i | 0 < i < |p|
        ensures p[i - 1] != p[i]
      {
        assert p[i - 1] == s[i - 1] && p[i] == s[i];
      }
      NoAdjacentRepeatsFromPairs(p);
    }
  }

  /** Position `i` starts a run of equal elements. */
  predicate StartsRun<T(==)>(s: seq<T>, i: nat)
    requires i < |s|
  {
    i == 0 || s[i] != s[i - 1]
  }

  /** The positions of `s` that start a run, in increasing order. */
  function RunStarts<T(==)>(s: seq<T>): (idx: seq<nat>)
    ensures forall j :: 0 <= j < |idx| ==> idx[j] < |s|
    ensures forall j, k :: 0 <= j < k < |idx| ==> idx[j] < idx[k]
  {
    if |s| <= 1 then (if s == [] then [] else [0])
    else
      var n := |s| - 1;
      RunStarts(s[..n]) + (if s[n] != s[n - 1] then [n] else [])
  }

  /** `RunStarts` holds exactly the positions that start a run. */
  lemma {:induction false} RunStartsExact<T>(s: seq<T>, i: nat)
    requires i < |s|
    ensures i in RunStarts(s) <==> StartsRun(s, i)
  {
    if |s| > 1 {
      var n := |s| - 1;
      var p := RunStarts(s[..n]);
      if i < n {
        RunStartsExact(s[..n], i);
        assert StartsRun(s[..n], i) <==> StartsRun(s, i);
        assert i in RunStarts(s) <==> i in p;
      } else {
        assert n !in p;
      }
    }
  }

  /**
   * The result is the subsequence of `s` at the positions that start a run:
   * together with `RunStartsExact`, `Dedup` keeps the first element of each
   * run and nothing else, in order.
   */
  lemma {:induction false} DedupKeepsRunStarts<T>(s: seq<T>)
    ensures |RunStarts(s)| == |Dedup(s)|
    ensures forall j :: 0 <= j < |Dedup(s)| ==> Dedup(s)[j] == s[RunStarts(s)[j]]
  {
    if |s| > 1 {
      var n := |s| - 1;
      var front := s[..n];
      DedupKeepsRunStarts(front);
      var p := RunStarts(front);
      var d := Dedup(front);
      forall j | 0 <= j < |d|
        ensures d[j] == s[p[j]]
      {
        assert d[j] == front[p[j]];
      }
      if s[n] != s[n - 1] {
        assert Dedup(s) == d + [s[n]];
        assert RunStarts(s) == p + [n];
      }
    }
  }

  /** The result never holds the same value twice in a row. */
  lemma {:induction false} DedupNoAdjacentRepeats<T>(s: seq<T>)
    ensures NoAdjacentRepeats(Dedup(s))
  {
    if |s| > 1 {
      var n := |s| - 1;
      var p := Dedup(s[..n]);
      DedupNoAdjacentRepeats(s[..n]);
      if s[n] != s[n - 1] {
        assert (p + [s[n]])[..|p|] == p;
      }
    }
  }

  /** A sequence without adjacent repeats is left as it is. */
  lemma {:induction false} DedupFixpoint<T>(s: seq<T>)
    requires NoAdjacentRepeats(s)
    ensures Dedup(s) == s
  {
    if |s| > 1 {
      var n := |s| - 1;
      DedupFixpoint(s[..n]);
      assert Dedup(s) == s[..n] + [s[n]];
    }
  }

  /** De-duplicating twice is the same as de-duplicating once. */
  lemma DedupIdempotent<T>(s: seq<T>)
    ensures Dedup(Dedup(s)) == Dedup(s)
  {
    DedupNoAdjacentRepeats(s);
    DedupFixpoint(Dedup(s));
  }

  /** Exactly the values of `s` remain. */
  lemma {:induction false} DedupSameValues<T>(s: seq<T>, x: T)
    ensures x in Dedup(s) <==> x in s
  {
    if |s| > 1 {
      var n := |s| - 1;
      DedupSameValues(s[..n], x);
      assert s == s[..n] + [s[n]];
      assert s[n - 1] in s[..n];
    }
  }
}
