// The median of a window, by counting, and the insertion sort that finds it
// (Domain/measurement/display_conditioner.c).
module Median {
  import opened FixedWidth

  function CountAtMost(s: seq<i64>, m: i64): nat {
    if s == [] then 0 else CountAtMost(s[1..], m) + if s[0] <= m then 1 else 0
  }

  function CountAtLeast(s: seq<i64>, m: i64): nat {
    if s == [] then 0 else CountAtLeast(s[1..], m) + if s[0] >= m then 1 else 0
  }

  // At least half of the values on either side, m itself included.
  predicate IsMedian(m: i64, s: seq<i64>) {
    m in s && 2 * CountAtMost(s, m) > |s| && 2 * CountAtLeast(s, m) > |s|
  }

  lemma {:induction false} CountsOverlap(s: seq<i64>, low: i64, high: i64)
    requires low < high
    ensures CountAtMost(s, low) + CountAtLeast(s, high) <= |s|
  {
    if s != [] { CountsOverlap(s[1..], low, high); }
  }

  lemma MedianIsUnique(s: seq<i64>, a: i64, b: i64)
    requires IsMedian(a, s) && IsMedian(b, s)
    ensures a == b
  {
    if a < b { CountsOverlap(s, a, b); }
    if b < a { CountsOverlap(s, b, a); }
  }

  ghost predicate Sorted(s: seq<i64>) {
    forall i, j :: 0 <= i < j < |s| ==> s[i] <= s[j]
  }

  lemma {:induction false} CountAppend(s: seq<i64>, t: seq<i64>, m: i64)
    ensures CountAtMost(s + t, m) == CountAtMost(s, m) + CountAtMost(t, m)
    ensures CountAtLeast(s + t, m) == CountAtLeast(s, m) + CountAtLeast(t, m)
  {
    if s == [] {
      assert s + t == t;
    } else {
      assert (s + t)[1..] == s[1..] + t;
      CountAppend(s[1..], t, m);
    }
  }

  lemma {:induction false} CountAll(s: seq<i64>, m: i64)
    ensures (forall i :: 0 <= i < |s| ==> s[i] <= m) ==> CountAtMost(s, m) == |s|
    ensures (forall i :: 0 <= i < |s| ==> s[i] >= m) ==> CountAtLeast(s, m) == |s|
  {
    if s != [] { CountAll(s[1..], m); }
  }

  // The middle of a sorted sequence of odd length.
  lemma MiddleIsMedian(s: seq<i64>)
    requires Sorted(s) && |s| % 2 == 1
    ensures IsMedian(s[|s| / 2], s)
  {
    hide CountAtMost, CountAtLeast;
    var h := |s| / 2;
    var m := s[h];
    var low, high := s[..h + 1], s[h..];
    assert forall i :: 0 <= i < |low| ==> low[i] <= m;
    assert forall i :: 0 <= i < |high| ==> high[i] >= m;
    CountAll(low, m);
    CountAll(high, m);
    CountAppend(low, s[h + 1..], m);
    CountAppend(s[..h], high, m);
    assert s == low + s[h + 1..] && s == s[..h] + high;
  }

  // The counts do not depend on the order.
  lemma {:induction false} CountPermuted(s: seq<i64>, t: seq<i64>, m: i64)
    requires multiset(s) == multiset(t)
    ensures CountAtMost(s, m) == CountAtMost(t, m) && CountAtLeast(s, m) == CountAtLeast(t, m)
    decreases |s|
  {
    hide CountAtMost, CountAtLeast;
    if s == [] {
      assert |multiset(t)| == 0;
    } else {
      var k := FirstIn(s, t);
      CountPermuted(s[..0] + s[1..], t[..k] + t[k + 1..], m);
      CountWithoutOne(s, 0, m);
      CountWithoutOne(t, k, m);
    }
  }

  lemma FirstIn(s: seq<i64>, t: seq<i64>) returns (k: nat)
    requires s != [] && multiset(s) == multiset(t)
    ensures k < |t| && t[k] == s[0] && multiset(s[..0] + s[1..]) == multiset(t[..k] + t[k + 1..])
  {
    assert s[0] in multiset(t);
    k :| 0 <= k < |t| && t[k] == s[0];
    WithoutOne(s, 0);
    WithoutOne(t, k);
  }

  lemma WithoutOne(s: seq<i64>, k: nat)
    requires k < |s|
    ensures multiset(s[..k] + s[k + 1..]) == multiset(s) - multiset{s[k]}
  {
    assert s == s[..k] + ([s[k]] + s[k + 1..]);
  }

  lemma CountWithoutOne(s: seq<i64>, k: nat, m: i64)
    requires k < |s|
    ensures CountAtMost(s, m) == CountAtMost(s[..k] + s[k + 1..], m) + if s[k] <= m then 1 else 0
    ensures CountAtLeast(s, m) == CountAtLeast(s[..k] + s[k + 1..], m) + if s[k] >= m then 1 else 0
  {
    assert s == s[..k] + s[k..] && s[k..][1..] == s[k + 1..];
    CountAppend(s[..k], s[k..], m);
    CountAppend(s[..k], s[k + 1..], m);
  }

  lemma MedianPermuted(m: i64, s: seq<i64>, t: seq<i64>)
    requires multiset(s) == multiset(t) && IsMedian(m, s)
    ensures IsMedian(m, t)
  {
    CountPermuted(s, t, m);
    assert m in multiset(s);
    assert |multiset(s)| == |s| && |multiset(t)| == |t|;
  }

  // ---- insertion sort, one element -----------------------------------------------------------

  // Moving a value one place down past its neighbour permutes.
  lemma ShiftPermutes(s: seq<i64>, p: nat, value: i64)
    requires 0 < p < |s|
    ensures multiset(s[p := s[p - 1]][p - 1 := value]) == multiset(s[p := value])
  {
    var t := s[p := value];
    assert s[p := s[p - 1]][p - 1 := value] == t[p := t[p - 1]][p - 1 := t[p]];
  }

  // All but the hole are in order, and everything above the hole is larger.
  ghost predicate SortedAround(s: seq<i64>, hole: nat, end: nat, value: i64) {
    && hole <= end < |s|
    && (forall i, j :: 0 <= i < j <= end && i != hole && j != hole ==> s[i] <= s[j])
    && (forall j :: hole < j <= end ==> value < s[j])
  }

  lemma HoleMoves(s: seq<i64>, hole: nat, end: nat, value: i64)
    requires SortedAround(s, hole, end, value) && hole > 0 && s[hole - 1] > value
    ensures SortedAround(s[hole := s[hole - 1]], hole - 1, end, value)
  {
    var t := s[hole := s[hole - 1]];
    forall i, j | 0 <= i < j <= end && i != hole - 1 && j != hole - 1 ensures t[i] <= t[j] {
      if j == hole { assert t[j] == s[hole - 1]; }
      if i == hole { assert s[hole - 1] <= s[j]; }
    }
  }

  lemma HoleFilled(s: seq<i64>, hole: nat, end: nat, value: i64)
    requires SortedAround(s, hole, end, value) && (hole > 0 ==> s[hole - 1] <= value)
    ensures Sorted(s[hole := value][..end + 1])
  {
    var t := s[hole := value][..end + 1];
    forall i, j | 0 <= i < j < |t| ensures t[i] <= t[j] {
      if j == hole && i < hole - 1 { assert s[i] <= s[hole - 1]; }
    }
  }

  // The insertion sort of the source, and the middle of what it sorts.
  method MiddleOfSorted(values: seq<i64>) returns (middle: i64)
    requires |values| % 2 == 1
    ensures IsMedian(middle, values)
  {
    var sorted := new i64[|values|](i requires 0 <= i < |values| => values[i]);
    assert sorted[..] == values;
    for index := 1 to |values|
      invariant Sorted(sorted[..index]) && multiset(sorted[..]) == multiset(values)
    {
      InsertOne(sorted, index);
    }
    assert sorted[..] == sorted[..|values|];
    MiddleIsMedian(sorted[..]);
    middle := sorted[|values| / 2];
    MedianPermuted(middle, sorted[..], values);
  }

  method InsertOne(sorted: array<i64>, index: nat)
    requires 0 < index < sorted.Length && Sorted(sorted[..index])
    modifies sorted
    ensures Sorted(sorted[..index + 1]) && multiset(sorted[..]) == multiset(old(sorted[..]))
  {
    hide Sorted, SortedAround;
    var value := sorted[index];
    var position := index;
    InsertStarts(sorted[..], index);
    while position > 0 && sorted[position - 1] > value
      invariant 0 <= position <= index && SortedAround(sorted[..], position, index, value)
      invariant multiset(sorted[..][position := value]) == multiset(old(sorted[..]))
    {
      ghost var before := sorted[..];
      HoleMoves(before, position, index, value);
      ShiftPermutes(before, position, value);
      sorted[position] := sorted[position - 1];
      assert sorted[..] == before[position := before[position - 1]];
      position := position - 1;
    }
    HoleFilled(sorted[..], position, index, value);
    ghost var last := sorted[..];
    sorted[position] := value;
    assert sorted[..] == last[position := value];
    assert sorted[..index + 1] == last[position := value][..index + 1];
  }

  lemma InsertStarts(s: seq<i64>, index: nat)
    requires index < |s| && Sorted(s[..index])
    ensures SortedAround(s, index, index, s[index]) && s[index := s[index]] == s
  {
    forall i, j | 0 <= i < j < index ensures s[i] <= s[j] {
      assert s[..index][i] <= s[..index][j];
    }
  }
}
