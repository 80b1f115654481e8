/** `Vec::sort_by` on frames, keyed by one of their `f32` fields. Rust's
    `sort_by` is stable; the model is a stable insertion sort, proved to
    return a sorted permutation of its input. */
module Sorting {
  import opened Common

  /** The frame field a sort compares with `partial_cmp`. */
  datatype Key = ByTimestamp | ByBlurriness | ByColour

  function KeyOf(f: Frame, k: Key): real {
    match k
    case ByTimestamp => f.timestamp
    case ByBlurriness => f.blurriness
    case ByColour => f.avgColour
  }

  predicate SortedBy(s: seq<Frame>, k: Key) {
    forall i, j | 0 <= i < j < |s| :: KeyOf(s[i], k) <= KeyOf(s[j], k)
  }

  /** Every key in `s` is at least `b`. */
  predicate KeysAtLeast(s: seq<Frame>, k: Key, b: real) {
    forall i | 0 <= i < |s| :: b <= KeyOf(s[i], k)
  }

  /** Puts `x` before the first element whose key is not smaller than its own. */
  function Insert(x: Frame, s: seq<Frame>, k: Key): (r: seq<Frame>)
    ensures |r| == |s| + 1
  {
    if s == [] || KeyOf(x, k) <= KeyOf(s[0], k) then [x] + s
    else [s[0]] + Insert(x, s[1..], k)
  }

  /** Inserting adds exactly `x` to the frames. */
  lemma {:induction false} InsertPermutes(x: Frame, s: seq<Frame>, k: Key)
    ensures multiset(Insert(x, s, k)) == multiset(s) + multiset{x}
  {
    if s != [] && KeyOf(x, k) > KeyOf(s[0], k) {
      InsertPermutes(x, s[1..], k);
      assert [s[0]] + s[1..] == s;
    }
  }

  lemma {:induction false} InsertKeysAtLeast(x: Frame, s: seq<Frame>, k: Key, b: real)
    requires KeysAtLeast(s, k, b) && b <= KeyOf(x, k)
    ensures KeysAtLeast(Insert(x, s, k), k, b)
  {
    if s != [] && KeyOf(x, k) > KeyOf(s[0], k) {
      InsertKeysAtLeast(x, s[1..], k, b);
    }
  }

  lemma {:induction false} InsertSorted(x: Frame, s: seq<Frame>, k: Key)
    requires SortedBy(s, k)
    ensures SortedBy(Insert(x, s, k), k)
  {
    if s != [] && KeyOf(x, k) > KeyOf(s[0], k) {
      InsertSorted(x, s[1..], k);
      InsertKeysAtLeast(x, s[1..], k, KeyOf(s[0], k));
    }
  }

  /** The frames in increasing order of the key; equal keys keep their order. */
  function SortBy(s: seq<Frame>, k: Key): (r: seq<Frame>)
    ensures |r| == |s|
  {
    if s == [] then [] else Insert(s[0], SortBy(s[1..], k), k)
  }

  /** `SortBy` keeps every frame, as often as it occurs. */
  lemma {:induction false} SortByPermutes(s: seq<Frame>, k: Key)
    ensures multiset(SortBy(s, k)) == multiset(s)
  {
    if s != [] {
      SortByPermutes(s[1..], k);
      InsertPermutes(s[0], SortBy(s[1..], k), k);
      assert [s[0]] + s[1..] == s;
    }
  }

  /** The result of `SortBy` is sorted. */
  lemma {:induction false} SortBySorted(s: seq<Frame>, k: Key)
    ensures SortedBy(SortBy(s, k), k)
  {
    if s != [] {
      SortBySorted(s[1..], k);
      InsertSorted(s[0], SortBy(s[1..], k), k);
    }
  }

  /** The frames of `s` whose key is `v`, in their order in `s`. */
  function WithKey(s: seq<Frame>, k: Key, v: real): seq<Frame> {
    if s == [] then []
    else (if KeyOf(s[0], k) == v then [s[0]] else []) + WithKey(s[1..], k, v)
  }

  /** Inserting `x` puts it in front of every frame with its key. */
  lemma {:induction false} InsertWithKey(x: Frame, t: seq<Frame>, k: Key, v: real)
    ensures WithKey(Insert(x, t, k), k, v) == (if KeyOf(x, k) == v then [x] else []) + WithKey(t, k, v)
  {
    if t == [] || KeyOf(x, k) <= KeyOf(t[0], k) {
      assert ([x] + t)[1..] == t;
    } else {
      InsertWithKey(x, t[1..], k, v);
      var r := [t[0]] + Insert(x, t[1..], k);
      assert r[1..] == Insert(x, t[1..], k);
    }
  }

  /** The sort is stable: frames with equal keys keep their relative order. */
  lemma {:induction false} SortByStable(s: seq<Frame>, k: Key, v: real)
    ensures WithKey(SortBy(s, k), k, v) == WithKey(s, k, v)
  {
    if s != [] {
      SortByStable(s[1..], k, v);
      InsertWithKey(s[0], SortBy(s[1..], k), k, v);
    }
  }

  /** In a sorted list the first key is the least and the last the greatest. */
  lemma SortedEnds(s: seq<Frame>, k: Key, x: Frame)
    requires SortedBy(s, k) && x in s
    ensures KeyOf(s[0], k) <= KeyOf(x, k) <= KeyOf(s[|s| - 1], k)
  {
    var j :| 0 <= j < |s| && s[j] == x;
    if 0 < j {
      assert KeyOf(s[0], k) <= KeyOf(s[j], k);
    }
    if j < |s| - 1 {
      assert KeyOf(s[j], k) <= KeyOf(s[|s| - 1], k);
    }
  }

  /** The ends of a sorted permutation of `s` are frames of `s` with the
      least and the greatest key. */
  lemma PermutationEnds(r: seq<Frame>, s: seq<Frame>, k: Key)
    requires |s| >= 1 && SortedBy(r, k) && multiset(r) == multiset(s)
    ensures |r| == |s| && r[0] in s && r[|r| - 1] in s
    ensures forall x | x in s :: KeyOf(r[0], k) <= KeyOf(x, k) <= KeyOf(r[|r| - 1], k)
  {
    assert |r| == |multiset(r)| == |multiset(s)| == |s|;
    forall x | x in s
      ensures KeyOf(r[0], k) <= KeyOf(x, k) <= KeyOf(r[|r| - 1], k)
    {
      assert x in multiset(r);
      SortedEnds(r, k, x);
    }
    assert r[0] in multiset(s) && r[|r| - 1] in multiset(s);
  }

  /** The ends of the sorted list are input frames with the least and the
      greatest key. */
  lemma SortByEnds(s: seq<Frame>, k: Key)
    requires |s| >= 1
    ensures var r := SortBy(s, k);
      && r[0] in s && r[|r| - 1] in s
      && forall x | x in s :: KeyOf(r[0], k) <= KeyOf(x, k) <= KeyOf(r[|r| - 1], k)
  {
    SortBySorted(s, k);
    SortByPermutes(s, k);
    PermutationEnds(SortBy(s, k), s, k);
  }
}
