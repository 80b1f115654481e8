/** Frame selection: bucketing the captured frames by time, then picking
    frames for colour variety among the buckets' representatives. The
    captures themselves (running the extractor, measuring blurriness and
    average colour) are inputs to this model. */
module Selection {
  import opened Common
  import opened Sorting

  /** The frames in the opposite order. */
  function Reverse(s: seq<Frame>): (r: seq<Frame>)
    ensures |r| == |s|
    ensures forall i | 0 <= i < |s| :: r[i] == s[|s| - 1 - i]
  {
    if s == [] then [] else Reverse(s[1..]) + [s[0]]
  }

  /** Reversing keeps every frame, as often as it occurs. */
  lemma {:induction false} ReversePermutes(s: seq<Frame>)
    ensures multiset(Reverse(s)) == multiset(s)
  {
    if s != [] {
      ReversePermutes(s[1..]);
      assert [s[0]] + s[1..] == s;
    }
  }

  /** Sorting an already sorted list changes nothing. */
  lemma {:induction false} SortSortedIsIdentity(s: seq<Frame>, k: Key)
    requires SortedBy(s, k)
    ensures SortBy(s, k) == s
  {
    if s != [] {
      SortSortedIsIdentity(s[1..], k);
      assert [s[0]] + s[1..] == s;
    }
  }

  // ---------------------------------------------------------------- buckets

  /** The chunk length of the bucketing step: `max(1, N / numGroups)`. */
  function GroupSize(n: nat, numGroups: nat): (gs: nat)
    requires numGroups > 0
    ensures gs >= 1
  {
    if n / numGroups < 1 then 1 else n / numGroups
  }

  /** The last frame of every chunk `chunks_mut(gs)` cuts `s` into: chunks
      of `gs` frames, the last one shorter when `gs` does not divide `|s|`. */
  function Tails(s: seq<Frame>, gs: nat): (r: seq<Frame>)
    requires gs >= 1
    ensures s == [] <==> r == []
    decreases |s|
  {
    if s == [] then []
    else if |s| <= gs then [s[|s| - 1]]
    else [s[gs - 1]] + Tails(s[gs..], gs)
  }

  /** One frame per chunk: `ceil(|s| / gs)` of them. */
  lemma {:induction false} TailsCount(s: seq<Frame>, gs: nat)
    requires gs >= 1 && s != []
    ensures (|Tails(s, gs)| - 1) * gs < |s| <= |Tails(s, gs)| * gs
    decreases |s|
  {
    if |s| > gs {
      var c := |Tails(s[gs..], gs)|;
      TailsCount(s[gs..], gs);
      assert |Tails(s, gs)| == c + 1;
      Distribute(c, gs);
    }
  }

  /** What the bucketing step keeps: with more than one group, the last
      frame of every chunk of `GroupSize` consecutive frames; otherwise
      every frame. */
  function Buckets(timeSorted: seq<Frame>, numGroups: nat): seq<Frame> {
    if numGroups > 1 then Tails(timeSorted, GroupSize(|timeSorted|, numGroups)) else timeSorted
  }

  /** The bucketing loop: every chunk is sorted by timestamp again and its
      last frame kept. */
  method ChunkTails(timeSorted: seq<Frame>, numGroups: nat) returns (selected: seq<Frame>)
    requires numGroups > 1 && SortedBy(timeSorted, ByTimestamp)
    ensures selected == Buckets(timeSorted, numGroups)
  {
    var n := |timeSorted|;
    var gs := GroupSize(n, numGroups);
    selected := [];
    var start := 0;
    while start < n
      invariant start <= n
      invariant selected + Tails(timeSorted[start..], gs) == Tails(timeSorted, gs)
      decreases n - start
    {
      var end := if start + gs < n then start + gs else n;
      var chunk := timeSorted[start..end];
      chunk := SortBy(chunk, ByTimestamp);
      ChunkStep(timeSorted, start, gs, selected, chunk);
      selected := selected + [chunk[|chunk| - 1]];
      start := end;
    }
  }

  /** One step of the bucketing loop keeps the loop invariant. */
  lemma ChunkStep(s: seq<Frame>, start: nat, gs: nat, prefix: seq<Frame>, chunk: seq<Frame>)
    requires gs >= 1 && start < |s| && SortedBy(s, ByTimestamp)
    requires prefix + Tails(s[start..], gs) == Tails(s, gs)
    requires chunk == SortBy(s[start..if start + gs < |s| then start + gs else |s|], ByTimestamp)
    ensures |chunk| >= 1
    ensures var end := if start + gs < |s| then start + gs else |s|;
      (prefix + [chunk[|chunk| - 1]]) + Tails(s[end..], gs) == Tails(s, gs)
  {
    var end := if start + gs < |s| then start + gs else |s|;
    SortedChunk(s, start, end);
    TailsStep(s, start, gs, prefix);
  }

  /** Sorting a chunk of a sorted list again leaves its last frame last. */
  lemma SortedChunk(s: seq<Frame>, a: nat, b: nat)
    requires a < b <= |s| && SortedBy(s, ByTimestamp)
    ensures SortBy(s[a..b], ByTimestamp)[b - a - 1] == s[b - 1]
  {
    SortedSlice(s, a, b, ByTimestamp);
    SortSortedIsIdentity(s[a..b], ByTimestamp);
  }

  lemma SortedSlice(s: seq<Frame>, a: nat, b: nat, k: Key)
    requires a <= b <= |s| && SortedBy(s, k)
    ensures SortedBy(s[a..b], k)
  {
    forall i, j | 0 <= i < j < b - a
      ensures KeyOf(s[a..b][i], k) <= KeyOf(s[a..b][j], k)
    {
      assert s[a..b][i] == s[a + i] && s[a..b][j] == s[a + j];
    }
  }

  /** One step of the chunk loop: the chunk at `start` contributes its last
      frame, and the rest is the tails of what follows it. */
  lemma TailsStep(s: seq<Frame>, start: nat, gs: nat, prefix: seq<Frame>)
    requires gs >= 1 && start < |s|
    requires prefix + Tails(s[start..], gs) == Tails(s, gs)
    ensures var end := if start + gs < |s| then start + gs else |s|;
      (prefix + [s[end - 1]]) + Tails(s[end..], gs) == Tails(s, gs)
  {
    var end := if start + gs < |s| then start + gs else |s|;
    TailsAt(s, start, gs);
    assert prefix + ([s[end - 1]] + Tails(s[end..], gs)) == (prefix + [s[end - 1]]) + Tails(s[end..], gs);
  }

  /** The chunk tails from `start` on: the chunk at `start` contributes its
      last frame, and the rest is the tails of what follows it. */
  lemma TailsAt(s: seq<Frame>, start: nat, gs: nat)
    requires gs >= 1 && start < |s|
    ensures var end := if start + gs < |s| then start + gs else |s|;
      Tails(s[start..], gs) == [s[end - 1]] + Tails(s[end..], gs)
  {
    if start + gs < |s| {
      assert s[start..][gs..] == s[start + gs..];
    } else {
      assert s[|s|..] == [];
    }
  }

  /** With at least as many frames as groups, bucketing keeps between
      `numGroups` and `2 * numGroups - 1` frames. */
  lemma BucketCount(n: nat, numGroups: nat)
    requires 1 < numGroups <= n
    ensures forall s: seq<Frame> | |s| == n :: numGroups <= |Buckets(s, numGroups)| <= 2 * numGroups - 1
  {
    var q := GroupSize(n, numGroups);
    DivBounds(n, numGroups);
    forall s: seq<Frame> | |s| == n
      ensures numGroups <= |Buckets(s, numGroups)| <= 2 * numGroups - 1
    {
      TailsCount(s, q);
      CountBounds(n, numGroups, q, |Tails(s, q)|);
    }
  }

  lemma Distribute(c: int, q: int)
    ensures (c + 1) * q == c * q + q && (c - 1) * q == c * q - q
  {
  }

  lemma CountBounds(n: nat, g: nat, q: nat, c: nat)
    requires q >= 1 && g >= 2 && q * g <= n < q * g + g
    requires (c - 1) * q < n <= c * q
    ensures g <= c <= 2 * g - 1
  {
    if c < g {
      MulMono(c, g - 1, q);
      assert false;
    }
    if c > 2 * g - 1 {
      MulMono(2 * g - 1, c - 1, q);
      MulMono(1, q, g - 1);
      assert false;
    }
  }

  lemma MulMono(a: nat, b: nat, q: nat)
    requires a <= b
    ensures a * q <= b * q
  {
  }

  /** The kept frames are in time order, and the last kept frame is the
      latest of all. */
  lemma BucketsInTimeOrder(timeSorted: seq<Frame>, numGroups: nat)
    requires SortedBy(timeSorted, ByTimestamp)
    ensures SortedBy(Buckets(timeSorted, numGroups), ByTimestamp)
    ensures forall f | f in Buckets(timeSorted, numGroups) :: f in timeSorted
    ensures timeSorted != [] ==> Buckets(timeSorted, numGroups)[|Buckets(timeSorted, numGroups)| - 1]
                                 == timeSorted[|timeSorted| - 1]
  {
    if numGroups > 1 {
      var gs := GroupSize(|timeSorted|, numGroups);
      TailsSorted(timeSorted, gs);
      TailsFromInput(timeSorted, gs);
      if timeSorted != [] {
        TailsLast(timeSorted, gs);
      }
    }
  }

  /** The last chunk's last frame is the last frame. */
  lemma {:induction false} TailsLast(s: seq<Frame>, gs: nat)
    requires gs >= 1 && s != []
    ensures Tails(s, gs)[|Tails(s, gs)| - 1] == s[|s| - 1]
    decreases |s|
  {
    if |s| > gs {
      TailsLast(s[gs..], gs);
    }
  }

  /** Every kept frame is one of the frames. */
  lemma {:induction false} TailsFromInput(s: seq<Frame>, gs: nat)
    requires gs >= 1
    ensures forall f | f in Tails(s, gs) :: f in s
    decreases |s|
  {
    if |s| > gs {
      var rest := s[gs..];
      TailsFromInput(rest, gs);
      forall f | f in Tails(s, gs)
        ensures f in s
      {
        if f != s[gs - 1] {
          assert f in Tails(rest, gs);
          var j :| 0 <= j < |rest| && rest[j] == f;
          assert s[gs + j] == f;
        }
      }
    }
  }

  /** Chunk tails of a time-sorted list are time-sorted. */
  lemma {:induction false} TailsSorted(s: seq<Frame>, gs: nat)
    requires gs >= 1 && SortedBy(s, ByTimestamp)
    ensures SortedBy(Tails(s, gs), ByTimestamp)
    decreases |s|
  {
    if |s| > gs {
      var rest := s[gs..];
      SortedSlice(s, gs, |s|, ByTimestamp);
      assert s[gs..|s|] == rest;
      TailsSorted(rest, gs);
      TailsFromInput(rest, gs);
      var t := Tails(rest, gs);
      forall k | 0 <= k < |t|
        ensures KeyOf(s[gs - 1], ByTimestamp) <= KeyOf(t[k], ByTimestamp)
      {
        assert t[k] in t;
        var j :| 0 <= j < |rest| && rest[j] == t[k];
        assert t[k] == s[gs + j];
      }
      ConsSorted(s[gs - 1], t, ByTimestamp);
      assert Tails(s, gs) == [s[gs - 1]] + t;
    }
  }

  /** A frame with a key no greater than any in a sorted list, put in front. */
  lemma ConsSorted(x: Frame, t: seq<Frame>, k: Key)
    requires SortedBy(t, k) && forall i | 0 <= i < |t| :: KeyOf(x, k) <= KeyOf(t[i], k)
    ensures SortedBy([x] + t, k)
  {
    var r := [x] + t;
    forall i, j | 0 <= i < j < |r|
      ensures KeyOf(r[i], k) <= KeyOf(r[j], k)
    {
      assert r[j] == t[j - 1];
      if i > 0 {
        assert r[i] == t[i - 1];
      }
    }
  }

  // ---------------------------------------------------------- colour variety

  /** The fold of `select_colour_variety`: starting from `acc`, the least of
      `acc` and the differences between `frame`'s colour and each colour of
      `rest`. */
  function ColourDistance(frame: Frame, rest: seq<Frame>, acc: real): (r: real)
    ensures r <= acc
    ensures forall i | 0 <= i < |rest| :: r <= frame.avgColour - rest[i].avgColour
    ensures r == acc || exists i | 0 <= i < |rest| :: r == frame.avgColour - rest[i].avgColour
  {
    if rest == [] then acc
    else
      var d := frame.avgColour - rest[0].avgColour;
      var r := ColourDistance(frame, rest[1..], if d < acc then d else acc);
      assert forall i | 1 <= i < |rest| :: rest[i] == rest[1..][i - 1];
      r
  }

  /** The colour span: the largest average colour minus the smallest. */
  function ColourSpan(frames: seq<Frame>): real
    requires |frames| >= 1
  {
    var byColour := SortBy(frames, ByColour);
    byColour[|byColour| - 1].avgColour - byColour[0].avgColour
  }

  lemma SpanNonNegative(frames: seq<Frame>)
    requires |frames| >= 1
    ensures ColourSpan(frames) >= 0.0
  {
    var byColour := SortBy(frames, ByColour);
    SortBySorted(frames, ByColour);
    if |byColour| > 1 {
      assert KeyOf(byColour[0], ByColour) <= KeyOf(byColour[|byColour| - 1], ByColour);
    }
  }

  /** The span is never negative, and it is zero exactly when all frames
      have the same colour. */
  lemma ColourSpanZero(frames: seq<Frame>)
    requires |frames| >= 1
    ensures ColourSpan(frames) >= 0.0
    ensures ColourSpan(frames) == 0.0 <==>
            forall f, g | f in frames && g in frames :: f.avgColour == g.avgColour
  {
    SortByEnds(frames, ByColour);
  }

  /** What `select_colour_variety` needs not to panic: a frame to take the
      colour range from, and a backfill count that neither underflows nor
      runs past the unselected frames. With all colours equal every frame
      is selected, so exactly `|frames|` may be asked for (the span is
      never negative, by `ColourSpanZero`). */
  predicate CanSelect(frames: seq<Frame>, numSelected: nat) {
    && |frames| >= 1 && 1 <= numSelected <= |frames|
    && (ColourSpan(frames) <= 0.0 ==> numSelected == |frames|)
  }

  /** The frames sorted by blurriness, ties ordered by colour. */
  function BlurOrder(frames: seq<Frame>): seq<Frame> {
    SortBy(SortBy(frames, ByColour), ByBlurriness)
  }

  /** Every frame of `s` has the same colour. */
  predicate Uniform(s: seq<Frame>) {
    forall i, j | 0 <= i < |s| && 0 <= j < |s| :: s[i].avgColour == s[j].avgColour
  }

  /** The pick from frames `s` in increasing blurriness, given `backfill`,
      the other frames in the order the backfill takes them: with a positive
      colour span the blurriest frame, then the first of the backfill;
      without one all frames, blurriest first. */
  function Pick(s: seq<Frame>, positive: bool, numSelected: nat, backfill: seq<Frame>): seq<Frame>
    requires 1 <= numSelected <= |s| && (!positive ==> numSelected == |s|)
    requires |backfill| == |s| - 1
  {
    if positive then [s[|s| - 1]] + backfill[..numSelected - 1]
    else Reverse(s)
  }

  /** The frames the backfill of `select_colour_variety` chooses from, in
      the order it takes them: all but the blurriest, least blurry first. */
  function Backfill(s: seq<Frame>): seq<Frame>
    requires |s| >= 1
  {
    SortBy(Reverse(s[..|s| - 1]), ByBlurriness)
  }

  /** Both sorts keep every frame. */
  lemma BlurOrderPermutes(frames: seq<Frame>)
    ensures multiset(BlurOrder(frames)) == multiset(frames)
  {
    SortByPermutes(frames, ByColour);
    SortByPermutes(SortBy(frames, ByColour), ByBlurriness);
  }

  /** The backfill chooses among all frames but the blurriest. */
  lemma BackfillPermutes(s: seq<Frame>)
    requires |s| >= 1
    ensures multiset(Backfill(s)) == multiset(s[..|s| - 1])
  {
    SortByPermutes(Reverse(s[..|s| - 1]), ByBlurriness);
    ReversePermutes(s[..|s| - 1]);
  }

  /** The result of `select_colour_variety`. With a positive colour span,
      no frame after the first passes the colour-distance test: the result
      is the blurriest frame, then the least blurry of the others. With
      all colours equal every frame passes: all of them, blurriest first. */
  function ColourVariety(frames: seq<Frame>, numSelected: nat): seq<Frame>
    requires CanSelect(frames, numSelected)
  {
    var s := BlurOrder(frames);
    Pick(s, ColourSpan(frames) > 0.0, numSelected, Backfill(s))
  }

  /** The popping loop of `select_colour_variety` over the frames `sorted`
      in increasing blurriness: the last frame is always kept; any other is
      kept only when its colour distance to the frames still waiting
      reaches `minColourDistance`. */
  method PopByColourDistance(sorted: seq<Frame>, minColourDistance: real)
    returns (selected: seq<Frame>, unselected: seq<Frame>)
    requires minColourDistance > 0.0 || (minColourDistance == 0.0 && Uniform(sorted))
    ensures sorted == [] ==> selected == [] && unselected == []
    ensures minColourDistance > 0.0 && sorted != [] ==>
      selected == [sorted[|sorted| - 1]] && unselected == Reverse(sorted[..|sorted| - 1])
    ensures minColourDistance == 0.0 ==> selected == Reverse(sorted) && unselected == []
    ensures |selected| + |unselected| == |sorted|
    ensures minColourDistance > 0.0 && sorted != [] ==> |selected| == 1
  {
    var pending := sorted;
    ghost var n := |sorted|;
    selected := [];
    unselected := [];
    while pending != []
      invariant |pending| <= n && pending == sorted[..|pending|]
      invariant minColourDistance > 0.0 ==>
        selected == (if |pending| == n then [] else [sorted[n - 1]])
        && unselected == (if |pending| == n then [] else Reverse(sorted[|pending|..n - 1]))
      invariant minColourDistance == 0.0 ==> selected == Reverse(sorted[|pending|..]) && unselected == []
    {
      var k := |pending|;
      var frame := pending[k - 1];
      pending := pending[..k - 1];
      if selected == [] {
        selected := selected + [frame];
        assert sorted[k - 1..] == [frame];
      } else {
        var colourDistance := ColourDistance(frame, pending, 0.0);
        if colourDistance < minColourDistance {
          if minColourDistance == 0.0 {
            assert false;
          }
          assert sorted[k - 1..n - 1][1..] == sorted[k..n - 1];
          unselected := unselected + [frame];
        } else {
          assert sorted[k - 1..][1..] == sorted[k..];
          selected := selected + [frame];
        }
      }
    }
    assert sorted[0..] == sorted;
    if n > 0 {
      assert sorted[0..n - 1] == sorted[..n - 1];
    }
  }

  /** Among frames of one colour no colour distance is negative. */
  lemma UniformDistance(s: seq<Frame>, k: nat, d: real)
    requires Uniform(s) && 1 <= k <= |s|
    requires d == ColourDistance(s[k - 1], s[..k - 1], 0.0)
    ensures d >= 0.0
  {
    var rest := s[..k - 1];
    forall i | 0 <= i < |rest|
      ensures rest[i].avgColour == s[k - 1].avgColour
    {
      assert rest[i] == s[i];
    }
  }

  /** `select_colour_variety`: sorts by colour to take the colour span,
      sorts by blurriness, pops frames from the blurriest down keeping
      those at least five percent of the span apart in colour, then
      backfills from the rejected frames in increasing blurriness. */
  method SelectColourVariety(frames: seq<Frame>, numSelected: nat) returns (selected: seq<Frame>)
    requires CanSelect(frames, numSelected)
    ensures selected == ColourVariety(frames, numSelected)
  {
    var byColour := SortBy(frames, ByColour);
    var minColour := byColour[0].avgColour;
    var maxColour := byColour[|byColour| - 1].avgColour;
    var colourSpan := maxColour - minColour;
    var minColourDistance := colourSpan * 0.05;
    var pending := SortBy(byColour, ByBlurriness);
    UniformWhenNoSpan(frames);
    var unselected;
    selected, unselected := PopByColourDistance(pending, minColourDistance);
    ghost var popped := selected;
    selected := BackfillLeastBlurry(selected, unselected, numSelected);
    PopThenBackfill(frames, numSelected, pending, minColourDistance, popped, unselected, selected);
  }

  /** The backfill of `select_colour_variety`: when fewer than
      `numSelected` frames were kept, the missing ones are taken from the
      rejected frames in increasing blurriness. */
  method BackfillLeastBlurry(selected: seq<Frame>, unselected: seq<Frame>, numSelected: nat)
    returns (result: seq<Frame>)
    requires |selected| <= numSelected <= |selected| + |unselected|
    ensures result == selected + SortBy(unselected, ByBlurriness)[..numSelected - |selected|]
    ensures |result| == numSelected && result[..|selected|] == selected
    ensures multiset(result[|selected|..]) <= multiset(unselected)
    ensures forall i, f | |selected| <= i < |result| && f in multiset(unselected) - multiset(result[|selected|..]) ::
      result[i].blurriness <= f.blurriness
  {
    result := selected;
    var missing := numSelected - |selected|;
    if missing > 0 {
      var rejected := SortBy(unselected, ByBlurriness);
      result := result + rejected[0..missing];
    }
    LeastBlurryFirst(unselected, missing);
    assert result[|selected|..] == SortBy(unselected, ByBlurriness)[..missing];
  }

  /** The first `m` frames in increasing blurriness come from `u`, and none
      of the frames of `u` left behind is less blurry than any of them. */
  lemma LeastBlurryFirst(u: seq<Frame>, m: nat)
    requires m <= |u|
    ensures var taken := SortBy(u, ByBlurriness)[..m];
      && multiset(taken) <= multiset(u)
      && forall i, f | 0 <= i < m && f in multiset(u) - multiset(taken) :: taken[i].blurriness <= f.blurriness
  {
    var sorted := SortBy(u, ByBlurriness);
    SortByPermutes(u, ByBlurriness);
    SortBySorted(u, ByBlurriness);
    SortedSplit(sorted, m);
  }

  /** A sorted sequence split at `m`: what the front leaves of it is the
      back, and nothing in the back is less blurry than the front. */
  lemma SortedSplit(sorted: seq<Frame>, m: nat)
    requires m <= |sorted| && SortedBy(sorted, ByBlurriness)
    ensures multiset(sorted[..m]) <= multiset(sorted)
    ensures forall i, f | 0 <= i < m && f in multiset(sorted) - multiset(sorted[..m]) ::
      sorted[..m][i].blurriness <= f.blurriness
  {
    var a, b := sorted[..m], sorted[m..];
    assert sorted == a + b;
    assert multiset(sorted) - multiset(a) == multiset(b);
    forall i, f | 0 <= i < m && f in multiset(sorted) - multiset(a)
      ensures a[i].blurriness <= f.blurriness
    {
      assert f in b;
      var j :| 0 <= j < |b| && b[j] == f;
      assert sorted[m + j] == f;
      assert KeyOf(sorted[i], ByBlurriness) <= KeyOf(sorted[m + j], ByBlurriness);
    }
  }

  /** The popping loop's result, backfilled, is the pick. */
  lemma PopThenBackfill(frames: seq<Frame>, numSelected: nat, s: seq<Frame>, d: real,
                        popped: seq<Frame>, unselected: seq<Frame>, selected: seq<Frame>)
    requires CanSelect(frames, numSelected) && s == BlurOrder(frames)
    requires d == ColourSpan(frames) * 0.05
    requires d > 0.0 ==> popped == [s[|s| - 1]] && unselected == Reverse(s[..|s| - 1])
    requires d == 0.0 ==> popped == Reverse(s) && unselected == []
    requires |popped| <= numSelected <= |popped| + |unselected|
    requires selected == popped + SortBy(unselected, ByBlurriness)[..numSelected - |popped|]
    ensures selected == ColourVariety(frames, numSelected)
  {
    SpanNonNegative(frames);
    if d > 0.0 {
      assert SortBy(unselected, ByBlurriness) == Backfill(s);
    } else {
      assert numSelected == |popped|;
    }
  }

  /** A reordering of frames whose colours lie between `lo` and `hi`, with
      `lo == hi`, has one colour. */
  lemma UniformBetween(s: seq<Frame>, frames: seq<Frame>, lo: real, hi: real)
    requires multiset(s) == multiset(frames) && lo == hi
    requires forall f | f in frames :: lo <= f.avgColour <= hi
    ensures Uniform(s)
  {
    forall i | 0 <= i < |s|
      ensures s[i].avgColour == lo
    {
      assert s[i] in multiset(frames);
    }
  }

  /** The span is never negative; without a span all frames have one colour. */
  lemma UniformWhenNoSpan(frames: seq<Frame>)
    requires |frames| >= 1
    ensures ColourSpan(frames) >= 0.0
    ensures ColourSpan(frames) == 0.0 ==> Uniform(BlurOrder(frames))
  {
    SortByEnds(frames, ByColour);
    var byColour := SortBy(frames, ByColour);
    if ColourSpan(frames) == 0.0 {
      BlurOrderPermutes(frames);
      UniformBetween(BlurOrder(frames), frames, byColour[0].avgColour, byColour[|byColour| - 1].avgColour);
    }
  }

  /** `select_colour_variety` returns exactly the number of frames asked for. */
  lemma ColourVarietyCount(frames: seq<Frame>, numSelected: nat)
    requires CanSelect(frames, numSelected)
    ensures |ColourVariety(frames, numSelected)| == numSelected
  {
  }

  lemma PickFromInput(s: seq<Frame>, positive: bool, numSelected: nat, backfill: seq<Frame>)
    requires 1 <= numSelected <= |s| && (!positive ==> numSelected == |s|)
    requires |backfill| == |s| - 1 && multiset(backfill) == multiset(s[..|s| - 1])
    ensures multiset(Pick(s, positive, numSelected, backfill)) <= multiset(s)
  {
    var n := |s|;
    if positive {
      assert s == s[..n - 1] + [s[n - 1]];
      assert backfill == backfill[..numSelected - 1] + backfill[numSelected - 1..];
    } else {
      ReversePermutes(s);
    }
  }

  /** Every selected frame is an input frame, and none is selected more
      often than it occurs. */
  lemma ColourVarietyFromInput(frames: seq<Frame>, numSelected: nat)
    requires CanSelect(frames, numSelected)
    ensures multiset(ColourVariety(frames, numSelected)) <= multiset(frames)
  {
    var s := BlurOrder(frames);
    BlurOrderPermutes(frames);
    BackfillPermutes(s);
    PickFromInput(s, ColourSpan(frames) > 0.0, numSelected, Backfill(s));
  }

  lemma PickFirstIsLast(s: seq<Frame>, positive: bool, numSelected: nat, backfill: seq<Frame>)
    requires 1 <= numSelected <= |s| && (!positive ==> numSelected == |s|)
    requires |backfill| == |s| - 1 && SortedBy(s, ByBlurriness)
    ensures forall f | f in s :: f.blurriness <= Pick(s, positive, numSelected, backfill)[0].blurriness
  {
    var n := |s|;
    assert Pick(s, positive, numSelected, backfill)[0] == s[n - 1];
    forall f | f in s
      ensures f.blurriness <= s[n - 1].blurriness
    {
      SortedEnds(s, ByBlurriness, f);
    }
  }

  /** The first selected frame is the blurriest input frame. */
  lemma ColourVarietyFirstIsBlurriest(frames: seq<Frame>, numSelected: nat)
    requires CanSelect(frames, numSelected)
    ensures forall f | f in frames :: f.blurriness <= ColourVariety(frames, numSelected)[0].blurriness
  {
    var s := BlurOrder(frames);
    SortBySorted(SortBy(frames, ByColour), ByBlurriness);
    PickFirstIsLast(s, ColourSpan(frames) > 0.0, numSelected, Backfill(s));
    BlurOrderPermutes(frames);
    forall f | f in frames
      ensures f in s
    {
      assert f in multiset(s);
    }
  }

  /** With all colours equal, every input frame is selected. */
  lemma UniformColourSelectsAll(frames: seq<Frame>, numSelected: nat)
    requires CanSelect(frames, numSelected) && ColourSpan(frames) == 0.0
    ensures multiset(ColourVariety(frames, numSelected)) == multiset(frames)
  {
    ReversePermutes(BlurOrder(frames));
    BlurOrderPermutes(frames);
  }

  lemma PickBackfill(s: seq<Frame>, numSelected: nat, backfill: seq<Frame>)
    requires 1 <= numSelected <= |s| && |backfill| == |s| - 1
    requires SortedBy(backfill, ByBlurriness) && multiset(backfill) == multiset(s[..|s| - 1])
    ensures var r := Pick(s, true, numSelected, backfill);
      && (forall i, j | 1 <= i < j < |r| :: r[i].blurriness <= r[j].blurriness)
      && (forall i, f | 1 <= i < |r| && f in s :: f.blurriness < r[i].blurriness ==> f in r)
  {
    var r := Pick(s, true, numSelected, backfill);
    forall i, j | 1 <= i < j < |r|
      ensures r[i].blurriness <= r[j].blurriness
    {
      assert r[i] == backfill[i - 1] && r[j] == backfill[j - 1];
      assert KeyOf(backfill[i - 1], ByBlurriness) <= KeyOf(backfill[j - 1], ByBlurriness);
    }
    forall i, f | 1 <= i < |r| && f in s && f.blurriness < r[i].blurriness
      ensures f in r
    {
      BackfillMember(s, backfill, r, numSelected, i, f);
    }
  }

  lemma BackfillMember(s: seq<Frame>, backfill: seq<Frame>, r: seq<Frame>, numSelected: nat, i: nat, f: Frame)
    requires 1 <= numSelected <= |s| && |backfill| == |s| - 1
    requires SortedBy(backfill, ByBlurriness) && multiset(backfill) == multiset(s[..|s| - 1])
    requires r == [s[|s| - 1]] + backfill[..numSelected - 1]
    requires 1 <= i < |r| && f in s && f.blurriness < r[i].blurriness
    ensures f in r
  {
    var n := |s|;
    assert s == s[..n - 1] + [s[n - 1]];
    if f != s[n - 1] {
      assert f in multiset(s[..n - 1]);
      assert f in multiset(backfill);
      var j :| 0 <= j < |backfill| && backfill[j] == f;
      assert r[i] == backfill[i - 1];
      assert r[j + 1] == f;
    } else {
      assert r[0] == f;
    }
  }

  /** With a positive colour span, the frames after the first are in
      increasing blurriness, and any input frame less blurry than one of
      them is selected too: the backfill takes the least blurry frames. */
  lemma VariedColourBackfillsLeastBlurry(frames: seq<Frame>, numSelected: nat)
    requires CanSelect(frames, numSelected) && ColourSpan(frames) > 0.0
    ensures var r := ColourVariety(frames, numSelected);
      && (forall i, j | 1 <= i < j < |r| :: r[i].blurriness <= r[j].blurriness)
      && (forall i, f | 1 <= i < |r| && f in frames :: f.blurriness < r[i].blurriness ==> f in r)
  {
    var s := BlurOrder(frames);
    SortBySorted(Reverse(s[..|s| - 1]), ByBlurriness);
    BackfillPermutes(s);
    BlurOrderPermutes(frames);
    PickBackfill(s, numSelected, Backfill(s));
    forall f | f in frames
      ensures f in s
    {
      assert f in multiset(s);
    }
  }

  /** `select_sharpest_images` after the captures: the frames sorted by
      time, the buckets' representatives, and the colour-variety pick of
      `numGroups` of them. */
  method SelectSharpestImages(captured: seq<Frame>, numGroups: nat)
    returns (selected: seq<Frame>, timeSorted: seq<Frame>)
    requires CanSelect(Buckets(SortBy(captured, ByTimestamp), numGroups), numGroups)
    ensures timeSorted == SortBy(captured, ByTimestamp)
    ensures selected == ColourVariety(Buckets(timeSorted, numGroups), numGroups)
  {
    timeSorted := SortBy(captured, ByTimestamp);
    SortBySorted(captured, ByTimestamp);
    var items;
    if numGroups > 1 {
      items := ChunkTails(timeSorted, numGroups);
    } else {
      items := timeSorted;
    }
    selected := SelectColourVariety(items, numGroups);
  }
}
