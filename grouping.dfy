/**
 * The transition mask over the vped column and the way it cuts the records
 * into calibration groups: a group closes at every `false` in the mask.
 */
module Grouping {
  import opened Wrappers
  import opened LogErrors

  /** The mask the loop builds: whether vped rises into the next record, then a final `true`. */
  function MaskOf(vpeds: seq<int>): seq<bool>
    requires vpeds != []
  {
    seq(|vpeds|, i requires 0 <= i < |vpeds| => i == |vpeds| - 1 || vpeds[i + 1] - vpeds[i] > 0)
  }

  /** The mask has one entry per record: `true` where vped rises into the next record, and `true` at the end. */
  lemma MaskOfRises(vpeds: seq<int>)
    requires vpeds != []
    ensures var m := MaskOf(vpeds);
      && |m| == |vpeds| && m[|m| - 1]
      && forall i :: 0 <= i < |vpeds| - 1 ==> (m[i] <==> vpeds[i] < vpeds[i + 1])
  {
  }

  /**
   * The mask loop of the program: `bools[i]` says whether vped rises from
   * record `i` to record `i + 1`, and a `true` is pushed for the last record.
   * With no records the length computation underflows.
   */
  method TransitionMask(vpeds: seq<int>) returns (r: Result<seq<bool>, Error>)
    ensures r.Failure? <==> vpeds == []
    ensures r.Failure? ==> r.error == NoRecords
    ensures r.Success? ==>
      && |r.value| == |vpeds|
      && r.value[|vpeds| - 1]
      && forall i :: 0 <= i < |vpeds| - 1 ==> (r.value[i] <==> vpeds[i] < vpeds[i + 1])
    ensures r.Success? ==> r.value == MaskOf(vpeds)
  {
    if vpeds == [] {
      return Failure(NoRecords);
    }
    var bools: seq<bool> := [];
    for i := 0 to |vpeds| - 1
      invariant |bools| == i
      invariant forall j :: 0 <= j < i ==> (bools[j] <==> vpeds[j] < vpeds[j + 1])
    {
      bools := bools + [vpeds[i + 1] - vpeds[i] > 0];
    }
    bools := bools + [true];
    r := Success(bools);
  }

  /** The positions of the `false` entries of `mask`, in increasing order. */
  function Boundaries(mask: seq<bool>): (b: seq<nat>)
    ensures forall k :: 0 <= k < |b| ==> b[k] < |mask| && !mask[b[k]]
    ensures forall j, k :: 0 <= j < k < |b| ==> b[j] < b[k]
  {
    if mask == [] then []
    else
      var n := |mask| - 1;
      var p := Boundaries(mask[..n]);
      assert forall k :: 0 <= k < |p| ==> mask[..n][p[k]] == mask[p[k]];
      if mask[n] then p else p + [n]
  }

  /** `b` is a list of cut positions into `n` items: in range and strictly increasing. */
  predicate ValidCuts(b: seq<nat>, n: nat)
  {
    && (forall k :: 0 <= k < |b| ==> b[k] < n)
    && (forall j, k :: 0 <= j < k < |b| ==> b[j] < b[k])
  }

  /** Where group `g` starts: at 0, or just after the previous cut. */
  function GroupStart(b: seq<nat>, g: nat): nat
    requires g <= |b|
  {
    if g == 0 then 0 else b[g - 1] + 1
  }

  /** The items cut after each position of `b`: group `g` runs from `GroupStart(b, g)` to `b[g]` inclusive. */
  function Cut<T>(items: seq<T>, b: seq<nat>): (groups: seq<seq<T>>)
    requires ValidCuts(b, |items|)
    ensures |groups| == |b|
  {
    seq(|b|, g requires 0 <= g < |b| => items[GroupStart(b, g) .. b[g] + 1])
  }

  /** The items after the last cut. */
  function Tail<T>(items: seq<T>, b: seq<nat>): seq<T>
    requires ValidCuts(b, |items|)
  {
    items[GroupStart(b, |b|)..]
  }

  /** The groups the program flushes: the items cut at every `false` of the mask. */
  function Groups<T>(items: seq<T>, mask: seq<bool>): seq<seq<T>>
    requires |items| == |mask|
  {
    Cut(items, Boundaries(mask))
  }

  /** What is still in the buffer at the end: the items after the last `false`. */
  function Pending<T>(items: seq<T>, mask: seq<bool>): seq<T>
    requires |items| == |mask|
  {
    Tail(items, Boundaries(mask))
  }

  /** The elements of `groups` concatenated in order. */
  function Flatten<T>(groups: seq<seq<T>>): seq<T>
  {
    if groups == [] then [] else Flatten(groups[..|groups| - 1]) + groups[|groups| - 1]
  }

  /**
   * The flushed groups and the pending tail partition the items: one group
   * per `false` of the mask, and concatenated in order they give every item
   * exactly once.
   */
  lemma GroupsPartition<T>(items: seq<T>, mask: seq<bool>)
    requires |items| == |mask|
    ensures |Groups(items, mask)| == |Boundaries(mask)|
    ensures Flatten(Groups(items, mask)) + Pending(items, mask) == items
  {
    var b := Boundaries(mask);
    CutPartition(items, b);
  }

  /** Cutting and concatenating gives the items back. */
  lemma CutPartition<T>(items: seq<T>, b: seq<nat>)
    requires ValidCuts(b, |items|)
    ensures Flatten(Cut(items, b)) + Tail(items, b) == items
  {
    var groups := Cut(items, b);
    FlattenPrefix(items, b, |b|);
    assert groups[..|b|] == groups;
  }

  /** The first `g` groups concatenated are the items before group `g`. */
  lemma {:induction false} FlattenPrefix<T>(items: seq<T>, b: seq<nat>, g: nat)
    requires ValidCuts(b, |items|)
    requires g <= |b|
    ensures Flatten(Cut(items, b)[..g]) == items[..GroupStart(b, g)]
  {
    if g > 0 {
      var groups := Cut(items, b);
      var lo, hi := GroupStart(b, g - 1), GroupStart(b, g);
      FlattenPrefix(items, b, g - 1);
      assert groups[..g][..g - 1] == groups[..g - 1];
      assert lo <= hi;
      assert items[..hi] == items[..lo] + items[lo..hi];
    }
  }

  /**
   * Each group ends at its boundary and holds no other boundary: it is a
   * non-empty run of records whose mask entries are `true` except the last.
   */
  lemma GroupsAreRuns(mask: seq<bool>, g: nat)
    requires g < |Boundaries(mask)|
    ensures var b := Boundaries(mask);
      && GroupStart(b, g) <= b[g]
      && forall i :: GroupStart(b, g) <= i < b[g] ==> mask[i]
  {
    var b := Boundaries(mask);
    forall i | GroupStart(b, g) <= i < b[g]
      ensures mask[i]
    {
      forall k | 0 <= k < |b|
        ensures b[k] != i
      {
        if k < g {
          assert b[k] <= b[g - 1];
        } else {
          assert b[g] <= b[k];
        }
      }
      FalseIsBoundary(mask, i);
    }
  }

  /** The pending tail holds no boundary: every mask entry after the last group is `true`. */
  lemma PendingHasNoBoundary(mask: seq<bool>)
    ensures var b := Boundaries(mask);
      forall i :: GroupStart(b, |b|) <= i < |mask| ==> mask[i]
  {
    var b := Boundaries(mask);
    forall i | GroupStart(b, |b|) <= i < |mask|
      ensures mask[i]
    {
      forall k | 0 <= k < |b|
        ensures b[k] != i
      {
        assert b[k] <= b[|b| - 1];
      }
      FalseIsBoundary(mask, i);
    }
  }

  /**
   * When the mask ends in `true`, as the program's mask always does, the last
   * item is never in a group: it stays in the pending tail.
   */
  lemma LastItemPending<T>(items: seq<T>, mask: seq<bool>)
    requires |items| == |mask| && mask != [] && mask[|mask| - 1]
    ensures Pending(items, mask) != []
    ensures Pending(items, mask)[|Pending(items, mask)| - 1] == items[|items| - 1]
  {
    var b := Boundaries(mask);
    if b != [] {
      assert b[|b| - 1] < |mask| - 1;
    }
  }

  /** The boundaries of a prefix of the mask are a prefix of its boundaries. */
  lemma {:induction false} BoundariesPrefix(mask: seq<bool>, i: nat)
    requires i <= |mask|
    ensures Boundaries(mask[..i]) <= Boundaries(mask)
    decreases |mask| - i
  {
    if i < |mask| {
      BoundariesPrefix(mask, i + 1);
      assert mask[..i + 1][..i] == mask[..i];
    } else {
      assert mask[..i] == mask;
    }
  }

  /**
   * Every `false` of the mask is a boundary: the one numbered by how many
   * `false` entries come before it.
   */
  lemma FalseIsBoundary(mask: seq<bool>, i: nat)
    requires i < |mask|
    ensures var rank := |Boundaries(mask[..i])|;
      !mask[i] ==> rank < |Boundaries(mask)| && Boundaries(mask)[rank] == i
  {
    BoundariesPrefix(mask, i + 1);
    assert mask[..i + 1][..i] == mask[..i];
  }

  /** Extending the mask by one entry adds that position as a boundary exactly when it is `false`. */
  lemma BoundariesSnoc(mask: seq<bool>, i: nat)
    requires i < |mask|
    ensures Boundaries(mask[..i + 1]) == Boundaries(mask[..i]) + (if mask[i] then [] else [i])
  {
    assert mask[..i + 1][..i] == mask[..i];
  }

  /** Appending an item that is not a cut leaves the groups alone and extends the tail. */
  lemma CutSnocTrue<T>(items: seq<T>, b: seq<nat>, x: T)
    requires ValidCuts(b, |items|)
    ensures ValidCuts(b, |items| + 1)
    ensures Cut(items + [x], b) == Cut(items, b)
    ensures Tail(items + [x], b) == Tail(items, b) + [x]
  {
    var ys := items + [x];
    forall g | 0 <= g < |b|
      ensures Cut(ys, b)[g] == Cut(items, b)[g]
    {
      assert ys[GroupStart(b, g) .. b[g] + 1] == items[GroupStart(b, g) .. b[g] + 1];
    }
  }

  /** Appending an item that is a cut closes the tail, with that item, as a new group. */
  lemma CutSnocFalse<T>(items: seq<T>, b: seq<nat>, x: T)
    requires ValidCuts(b, |items|)
    ensures ValidCuts(b + [|items|], |items| + 1)
    ensures Cut(items + [x], b + [|items|]) == Cut(items, b) + [Tail(items, b) + [x]]
    ensures Tail(items + [x], b + [|items|]) == []
  {
    var ys := items + [x];
    var b' := b + [|items|];
    CutSnocKeeps(items, b, x);
    assert GroupStart(b', |b|) == GroupStart(b, |b|);
    assert Cut(ys, b')[|b|] == ys[GroupStart(b, |b|)..|items| + 1] == Tail(items, b) + [x];
  }

  /** Closing a new group after an appended item leaves the earlier groups as they were. */
  lemma CutSnocKeeps<T>(items: seq<T>, b: seq<nat>, x: T)
    requires ValidCuts(b, |items|)
    ensures ValidCuts(b + [|items|], |items| + 1)
    ensures Cut(items + [x], b + [|items|])[..|b|] == Cut(items, b)
  {
    var ys := items + [x];
    var b' := b + [|items|];
    forall g | 0 <= g < |b|
      ensures Cut(ys, b')[g] == Cut(items, b)[g]
    {
      assert GroupStart(b', g) == GroupStart(b, g);
      assert ys[GroupStart(b, g) .. b[g] + 1] == items[GroupStart(b, g) .. b[g] + 1];
    }
  }

  /**
   * Cutting a prefix of the items at a prefix of the cuts that lies inside it
   * gives a prefix of the groups.
   */
  lemma CutPrefix<T>(items: seq<T>, b: seq<nat>, n: nat, i: nat)
    requires ValidCuts(b, |items|)
    requires n <= |b| && i <= |items| && (n == 0 || b[n - 1] < i)
    ensures ValidCuts(b[..n], i)
    ensures Cut(items[..i], b[..n]) == Cut(items, b)[..n]
  {
    forall k | 0 <= k < n
      ensures b[k] < i
    {
      assert b[k] <= b[n - 1];
    }
    forall g | 0 <= g < n
      ensures Cut(items[..i], b[..n])[g] == Cut(items, b)[g]
    {
      var start := GroupStart(b, g);
      assert GroupStart(b[..n], g) == start && b[..n][g] == b[g] < i;
      assert Cut(items[..i], b[..n])[g] == items[..i][start .. b[g] + 1];
      assert items[..i][start .. b[g] + 1] == items[start .. b[g] + 1];
    }
  }
}
