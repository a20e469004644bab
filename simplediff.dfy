/** The test suite's diff (Tests/CodeGeneratorTests/simplediff.swift), used to show where generated
    code departs from the expected text: the longest common contiguous run of the two lists is
    kept, and the parts before and after it are diffed again. */
module SimpleDiff {
  datatype ChangeType = Insert | Delete | Noop {
    /** `ChangeType.description`. */
    function Description(): (r: string)
      ensures |r| == 1
      ensures r == "+" <==> this == Insert
      ensures r == "-" <==> this == Delete
      ensures r == "=" <==> this == Noop
    {
      match this
      case Insert => "+"
      case Delete => "-"
      case Noop => "="
    }
  }

  /** `Change`: one operation and the elements it inserts, deletes or keeps. */
  datatype Change<T> = Change(kind: ChangeType, elements: seq<T>) {
    /** `Change.description`: insertions as "[+…]", deletions as "[-…]", no-ops as the bare
        elements; `show` is Swift's string interpolation of one element. */
    function Description(show: T -> string): (r: string)
      ensures kind == Noop ==> r == ElementsString(elements, show)
      ensures kind != Noop ==>
                |r| == |ElementsString(elements, show)| + 3
                && r[0] == '[' && r[1..2] == kind.Description() && r[|r| - 1] == ']'
                && r[2..|r| - 1] == ElementsString(elements, show)
    {
      match kind
      case Insert => "[+" + ElementsString(elements, show) + "]"
      case Delete => "[-" + ElementsString(elements, show) + "]"
      case Noop => ElementsString(elements, show)
    }
  }

  /** `Change.elementsString`: the elements' texts with no separator. */
  function ElementsString<T>(elements: seq<T>, show: T -> string): (r: string)
    ensures (forall k :: 0 <= k < |elements| ==> |show(elements[k])| == 1) ==> |r| == |elements|
    ensures |elements| == 1 ==> r == show(elements[0])
  {
    if |elements| == 0 then "" else show(elements[0]) + ElementsString(elements[1..], show)
  }

  /** The text of a concatenation is the concatenation of the texts. */
  lemma {:induction false} ElementsStringAppend<T>(a: seq<T>, b: seq<T>, show: T -> string)
    ensures ElementsString(a + b, show) == ElementsString(a, show) + ElementsString(b, show)
  {
    if |a| == 0 {
      assert a + b == b;
    } else {
      assert (a + b)[1..] == a[1..] + b;
      ElementsStringAppend(a[1..], b, show);
    }
  }

  /** The elements a list of changes keeps from the old list: its deletions and no-ops, in order. */
  function Before<T>(changes: seq<Change<T>>): seq<T> {
    if |changes| == 0 then []
    else (if changes[0].kind == Insert then [] else changes[0].elements) + Before(changes[1..])
  }

  /** The elements of the new list: the insertions and no-ops, in order. */
  function After<T>(changes: seq<Change<T>>): seq<T> {
    if |changes| == 0 then []
    else (if changes[0].kind == Delete then [] else changes[0].elements) + After(changes[1..])
  }

  lemma {:induction false} BeforeAfterAppend<T>(a: seq<Change<T>>, b: seq<Change<T>>)
    ensures Before(a + b) == Before(a) + Before(b)
    ensures After(a + b) == After(a) + After(b)
  {
    if |a| > 0 {
      assert (a + b)[1..] == a[1..] + b;
      BeforeAfterAppend(a[1..], b);
    } else {
      assert a + b == b;
    }
  }

  predicate NoEmptyChange<T>(changes: seq<Change<T>>) {
    forall k :: 0 <= k < |changes| ==> |changes[k].elements| > 0
  }

  // ---------------------------------------------------------------- the index map

  /** The indices at which `e` occurs in `s`, in increasing order. */
  function Positions<T(==)>(s: seq<T>, e: T): (r: seq<int>)
    ensures forall k :: 0 <= k < |r| ==> 0 <= r[k] < |s| && s[r[k]] == e
    ensures forall j :: 0 <= j < |s| && s[j] == e ==> j in r
    ensures forall k, l :: 0 <= k < l < |r| ==> r[k] < r[l]
  {
    if |s| == 0 then []
    else
      var init := s[..|s| - 1];
      var r := Positions(init, e);
      assert forall j :: 0 <= j < |init| ==> s[j] == init[j];
      if s[|s| - 1] == e then r + [|s| - 1] else r
  }

  lemma {:induction false} PositionsOfAbsent<T>(s: seq<T>, e: T)
    requires e !in s
    ensures Positions(s, e) == []
  {
    if |s| > 0 {
      assert e !in s[..|s| - 1];
      PositionsOfAbsent(s[..|s| - 1], e);
    }
  }

  /** The first loop: every element of `before` mapped to the indices where it occurs. */
  method BeforeIndices<T(==)>(before: seq<T>) returns (indices: map<T, seq<int>>)
    ensures forall e :: e in indices <==> e in before
    ensures forall e :: e in indices ==> indices[e] == Positions(before, e)
  {
    indices := map[];
    for i := 0 to |before|
      invariant forall e :: e in indices <==> e in before[..i]
      invariant forall e :: e in indices ==> indices[e] == Positions(before[..i], e)
    {
      var elem := before[i];
      if elem !in indices {
        PositionsOfAbsent(before[..i], elem);
      }
      var positions := if elem in indices then indices[elem] else [];
      positions := positions + [i];
      indices := indices[elem := positions];
      assert before[..i + 1][..i] == before[..i];
      assert forall e :: e in before[..i + 1] <==> e in before[..i] || e == elem;
    }
    assert before[..|before|] == before;
  }

  // ---------------------------------------------------------------- common runs

  /** The length of the longest common suffix of `before[..j]` and `after[..i]`: the run of equal
      elements ending just before those positions. */
  function Run<T(==)>(before: seq<T>, after: seq<T>, j: nat, i: nat): (r: nat)
    requires j <= |before| && i <= |after|
    ensures r <= j && r <= i
  {
    if j == 0 || i == 0 || before[j - 1] != after[i - 1] then 0 else 1 + Run(before, after, j - 1, i - 1)
  }

  /** What `Run` measures is a common run. */
  lemma {:induction false} RunIsCommon<T>(before: seq<T>, after: seq<T>, j: nat, i: nat)
    requires j <= |before| && i <= |after|
    ensures CommonRun(before, after, j - Run(before, after, j, i), i - Run(before, after, j, i), Run(before, after, j, i))
  {
    var r := Run(before, after, j, i);
    if r > 0 {
      RunIsCommon(before, after, j - 1, i - 1);
      assert r == Run(before, after, j - 1, i - 1) + 1;
      assert before[j - r..j - 1] == after[i - r..i - 1] && before[j - 1] == after[i - 1];
      assert before[j - r..j] == before[j - r..j - 1] + [before[j - 1]];
      assert after[i - r..i] == after[i - r..i - 1] + [after[i - 1]];
    }
  }

  /** `before[p..p+k]` and `after[q..q+k]` are the same run. */
  predicate CommonRun<T(==)>(before: seq<T>, after: seq<T>, p: nat, q: nat, k: nat) {
    p + k <= |before| && q + k <= |after| && before[p..p + k] == after[q..q + k]
  }

  /** Every common run ending at two positions is at most as long as `Run` there. */
  lemma {:induction false} RunIsLongest<T>(before: seq<T>, after: seq<T>, p: nat, q: nat, k: nat)
    requires CommonRun(before, after, p, q, k)
    ensures k <= Run(before, after, p + k, q + k)
  {
    if k > 0 {
      assert before[p + k - 1] == before[p..p + k][k - 1];
      assert after[q + k - 1] == after[q..q + k][k - 1];
      assert before[p..p + k - 1] == before[p..p + k][..k - 1];
      assert after[q..q + k - 1] == after[q..q + k][..k - 1];
      RunIsLongest(before, after, p, q, k - 1);
    }
  }

  // ---------------------------------------------------------------- the overlay scan

  /** `overlay` after the row of `after[i - 1]`: keyed by the indices of `before` holding that
      element, each with the length of the common run ending there. */
  ghost predicate RowOverlay<T>(before: seq<T>, after: seq<T>, overlay: map<int, int>, i: nat)
    requires i <= |after|
  {
    (forall j :: j in overlay <==> i > 0 && 0 <= j < |before| && before[j] == after[i - 1])
    && RunsStored(before, after, overlay, i)
  }

  /** Each key of `overlay` is an index of `before`, stored with the run ending just after it. */
  ghost predicate RunsStored<T>(before: seq<T>, after: seq<T>, overlay: map<int, int>, i: nat)
    requires i <= |after|
  {
    forall j :: j in overlay ==> 0 <= j < |before| && overlay[j] == Run(before, after, j + 1, i)
  }

  lemma StoreRun<T>(before: seq<T>, after: seq<T>, overlay: map<int, int>, i: nat, j: int, v: int)
    requires i <= |after| && RunsStored(before, after, overlay, i)
    requires 0 <= j < |before| && v == Run(before, after, j + 1, i)
    ensures RunsStored(before, after, overlay[j := v], i)
  {
  }

  /** After the rows ending at or before `rows`: `m` bounds every run seen, and when positive it
      is the run ending at `beforeStart + m` and `afterStart + m`, the first that long in scan
      order (by position in `after`, then in `before`). */
  ghost predicate Best<T>(before: seq<T>, after: seq<T>, m: int, beforeStart: int, afterStart: int, rows: nat)
    requires rows <= |after|
  {
    0 <= m
    && (forall j, i :: 0 <= j <= |before| && 0 <= i <= rows ==> Run(before, after, j, i) <= m)
    && (m > 0 ==> 0 <= beforeStart && 0 <= afterStart && beforeStart + m <= |before| && afterStart + m <= rows
                  && Run(before, after, beforeStart + m, afterStart + m) == m)
    && (m > 0 ==> forall j, i :: 0 <= j <= |before| && 0 <= i <= rows
                                 && (i < afterStart + m || (i == afterStart + m && j < beforeStart + m))
                                 ==> Run(before, after, j, i) < m)
  }

  /** The inner loop's bound after the first `k` indices of the row of `after[index]`: the
      earlier rows are covered as in `Best`, and so are the first `k` entries of this row. */
  ghost predicate Scanned<T>(before: seq<T>, after: seq<T>, index: nat, elemIndices: seq<int>, k: nat,
                             m: int, beforeStart: int, afterStart: int)
    requires index < |after| && k <= |elemIndices|
    requires forall l :: 0 <= l < |elemIndices| ==> 0 <= elemIndices[l] < |before|
  {
    PartialBest(before, after, m, beforeStart, afterStart, index)
    && (forall l :: 0 <= l < k ==> Run(before, after, elemIndices[l] + 1, index + 1) <= m)
    && (m > 0 ==> forall l :: 0 <= l < k && index + 1 == afterStart + m && elemIndices[l] + 1 < beforeStart + m
                              ==> Run(before, after, elemIndices[l] + 1, index + 1) < m)
    && (m > 0 && afterStart + m == index + 1 ==> k > 0 && beforeStart + m - 1 <= elemIndices[k - 1])
  }

  /** `Best` over the rows up to `index`, except that the run found may end in row `index + 1`. */
  ghost predicate PartialBest<T>(before: seq<T>, after: seq<T>, m: int, beforeStart: int, afterStart: int, index: nat)
    requires index < |after|
  {
    0 <= m
    && (forall j, i :: 0 <= j <= |before| && 0 <= i <= index ==> Run(before, after, j, i) <= m)
    && (m > 0 ==> 0 <= beforeStart && 0 <= afterStart && beforeStart + m <= |before| && afterStart + m <= index + 1
                  && Run(before, after, beforeStart + m, afterStart + m) == m)
    && (m > 0 ==> forall j, i :: 0 <= j <= |before| && 0 <= i <= index
                                 && (i < afterStart + m || (i == afterStart + m && j < beforeStart + m))
                                 ==> Run(before, after, j, i) < m)
  }

  /** One pass of the inner loop, over the indices in `before` of `after[index]`. */
  method ScanRow<T(==)>(before: seq<T>, after: seq<T>, index: nat, elemIndices: seq<int>, overlay: map<int, int>,
                        m0: int, beforeStart0: int, afterStart0: int)
    returns (nextOverlay: map<int, int>, maxOverlayLength: int, beforeStart: int, afterStart: int)
    requires index < |after| && elemIndices == Positions(before, after[index])
    requires RowOverlay(before, after, overlay, index) && Best(before, after, m0, beforeStart0, afterStart0, index)
    ensures RowOverlay(before, after, nextOverlay, index + 1)
    ensures Best(before, after, maxOverlayLength, beforeStart, afterStart, index + 1)
  {
    nextOverlay := map[];
    maxOverlayLength, beforeStart, afterStart := m0, beforeStart0, afterStart0;
    ScanStarts(before, after, index, elemIndices, m0, beforeStart0, afterStart0);
    for k := 0 to |elemIndices|
      invariant forall j :: j in nextOverlay <==> j in elemIndices[..k]
      invariant RunsStored(before, after, nextOverlay, index + 1)
      invariant Scanned(before, after, index, elemIndices, k, maxOverlayLength, beforeStart, afterStart)
    {
      nextOverlay, maxOverlayLength, beforeStart, afterStart :=
        ScanEntry(before, after, index, elemIndices, k, overlay, nextOverlay, maxOverlayLength, beforeStart, afterStart);
    }
    assert elemIndices[..|elemIndices|] == elemIndices;
    RowDone(before, after, index, elemIndices, maxOverlayLength, beforeStart, afterStart);
  }

  /** The run ending at `before[e]` and `after[index]` is one longer than the one stored for the
      previous row at `e - 1`, or 1 when none is stored. */
  lemma ExtendsRun<T>(before: seq<T>, after: seq<T>, overlay: map<int, int>, index: nat, e: int)
    requires index < |after| && RowOverlay(before, after, overlay, index)
    requires 0 <= e < |before| && before[e] == after[index]
    ensures (if e - 1 in overlay then 1 + overlay[e - 1] else 1) == Run(before, after, e + 1, index + 1)
  {
  }

  lemma ScanStarts<T>(before: seq<T>, after: seq<T>, index: nat, elemIndices: seq<int>,
                      m: int, beforeStart: int, afterStart: int)
    requires index < |after| && elemIndices == Positions(before, after[index])
    requires Best(before, after, m, beforeStart, afterStart, index)
    ensures Scanned(before, after, index, elemIndices, 0, m, beforeStart, afterStart)
  {
  }

  /** The body of the inner loop, for entry `k` of the row. */
  method ScanEntry<T(==)>(before: seq<T>, after: seq<T>, index: nat, elemIndices: seq<int>, k: nat,
                          overlay: map<int, int>, nextOverlay0: map<int, int>, m0: int, beforeStart0: int, afterStart0: int)
    returns (nextOverlay: map<int, int>, maxOverlayLength: int, beforeStart: int, afterStart: int)
    requires index < |after| && elemIndices == Positions(before, after[index]) && k < |elemIndices|
    requires RowOverlay(before, after, overlay, index)
    requires forall j :: j in nextOverlay0 <==> j in elemIndices[..k]
    requires RunsStored(before, after, nextOverlay0, index + 1)
    requires Scanned(before, after, index, elemIndices, k, m0, beforeStart0, afterStart0)
    ensures forall j :: j in nextOverlay <==> j in elemIndices[..k + 1]
    ensures RunsStored(before, after, nextOverlay, index + 1)
    ensures Scanned(before, after, index, elemIndices, k + 1, maxOverlayLength, beforeStart, afterStart)
  {
    maxOverlayLength, beforeStart, afterStart := m0, beforeStart0, afterStart0;
    var elemIndex := elemIndices[k];
    var overlayLength := 1;
    if elemIndex - 1 in overlay {
      overlayLength := overlayLength + overlay[elemIndex - 1];
    }
    ExtendsRun(before, after, overlay, index, elemIndex);
    assert elemIndices[..k + 1] == elemIndices[..k] + [elemIndex];
    StoreRun(before, after, nextOverlay0, index + 1, elemIndex, overlayLength);
    nextOverlay := nextOverlay0[elemIndex := overlayLength];
    if overlayLength > maxOverlayLength {
      maxOverlayLength := overlayLength;
      beforeStart := elemIndex - overlayLength + 1;
      afterStart := index - overlayLength + 1;
      ScanImproves(before, after, index, elemIndices, k, m0, beforeStart0, afterStart0,
                   maxOverlayLength, beforeStart, afterStart);
    } else {
      ScanKeeps(before, after, index, elemIndices, k, maxOverlayLength, beforeStart, afterStart);
    }
  }

  /** A longer run at entry `k` becomes the one found. */
  lemma ScanImproves<T>(before: seq<T>, after: seq<T>, index: nat, elemIndices: seq<int>, k: nat,
                        m: int, beforeStart: int, afterStart: int, l: int, beforeStart': int, afterStart': int)
    requires index < |after| && k < |elemIndices|
    requires forall q :: 0 <= q < |elemIndices| ==> 0 <= elemIndices[q] < |before|
    requires Scanned(before, after, index, elemIndices, k, m, beforeStart, afterStart)
    requires l == Run(before, after, elemIndices[k] + 1, index + 1) && l > m
    requires beforeStart' == elemIndices[k] + 1 - l && afterStart' == index + 1 - l
    ensures Scanned(before, after, index, elemIndices, k + 1, l, beforeStart', afterStart')
  {
    assert beforeStart' + l == elemIndices[k] + 1 && afterStart' + l == index + 1;
    assert 0 <= elemIndices[k] < |before|;
    assert Run(before, after, beforeStart' + l, afterStart' + l) == l;
    PartialBestRaised(before, after, m, beforeStart, afterStart, index, l, beforeStart', afterStart');
    forall q | 0 <= q < k + 1 ensures Run(before, after, elemIndices[q] + 1, index + 1) <= l {
      if q < k { assert Run(before, after, elemIndices[q] + 1, index + 1) <= m; }
    }
    forall q | 0 <= q < k + 1 && elemIndices[q] + 1 < beforeStart' + l
      ensures Run(before, after, elemIndices[q] + 1, index + 1) < l
    {
      assert q < k;
      assert Run(before, after, elemIndices[q] + 1, index + 1) <= m;
    }
  }

  /** A run longer than every run over the rows so far, ending in row `index + 1`, is the one found. */
  lemma PartialBestRaised<T>(before: seq<T>, after: seq<T>, m: int, beforeStart: int, afterStart: int, index: nat,
                             l: int, beforeStart': int, afterStart': int)
    requires index < |after| && PartialBest(before, after, m, beforeStart, afterStart, index) && m < l
    requires 0 <= beforeStart' && 0 <= afterStart' && beforeStart' + l <= |before| && afterStart' + l == index + 1
    requires Run(before, after, beforeStart' + l, afterStart' + l) == l
    ensures PartialBest(before, after, l, beforeStart', afterStart', index)
  {
    forall j, i | 0 <= j <= |before| && 0 <= i <= index ensures Run(before, after, j, i) < l {
      assert Run(before, after, j, i) <= m;
    }
  }

  /** A run at entry `k` no longer than the one found leaves it in place. */
  lemma ScanKeeps<T>(before: seq<T>, after: seq<T>, index: nat, elemIndices: seq<int>, k: nat,
                     m: int, beforeStart: int, afterStart: int)
    requires index < |after| && k < |elemIndices|
    requires forall q :: 0 <= q < |elemIndices| ==> 0 <= elemIndices[q] < |before|
    requires forall p, q :: 0 <= p < q < |elemIndices| ==> elemIndices[p] < elemIndices[q]
    requires Scanned(before, after, index, elemIndices, k, m, beforeStart, afterStart)
    requires Run(before, after, elemIndices[k] + 1, index + 1) <= m
    ensures Scanned(before, after, index, elemIndices, k + 1, m, beforeStart, afterStart)
  {
  }

  /** Every run ending in the row of `after[index]` ends at an index of that element, so bounds
      on those carry over to the whole row. */
  lemma RowDone<T>(before: seq<T>, after: seq<T>, index: nat, elemIndices: seq<int>, m: int, beforeStart: int, afterStart: int)
    requires index < |after| && elemIndices == Positions(before, after[index])
    requires Scanned(before, after, index, elemIndices, |elemIndices|, m, beforeStart, afterStart)
    ensures Best(before, after, m, beforeStart, afterStart, index + 1)
  {
    RowCovered(before, after, index, elemIndices, m, beforeStart, afterStart);
    BestFromRow(before, after, index, m, beforeStart, afterStart);
  }

  /** The runs ending in the row of `after[index]`: each ends at an index of that element. */
  lemma RowCovered<T>(before: seq<T>, after: seq<T>, index: nat, elemIndices: seq<int>, m: int, beforeStart: int, afterStart: int)
    requires index < |after| && 0 <= m
    requires forall l :: 0 <= l < |elemIndices| ==> 0 <= elemIndices[l] < |before|
    requires forall j :: 0 <= j < |before| && before[j] == after[index] ==> j in elemIndices
    requires forall l :: 0 <= l < |elemIndices| ==> Run(before, after, elemIndices[l] + 1, index + 1) <= m
    requires m > 0 ==> forall l :: 0 <= l < |elemIndices| && index + 1 == afterStart + m && elemIndices[l] + 1 < beforeStart + m
                                   ==> Run(before, after, elemIndices[l] + 1, index + 1) < m
    ensures forall j {:trigger Run(before, after, j, index + 1)} :: 0 <= j <= |before| ==>
              Run(before, after, j, index + 1) <= m
              && (m > 0 && index + 1 == afterStart + m && j < beforeStart + m ==> Run(before, after, j, index + 1) < m)
  {
    forall j {:trigger Run(before, after, j, index + 1)} | 0 <= j <= |before|
      ensures Run(before, after, j, index + 1) <= m
      ensures m > 0 && index + 1 == afterStart + m && j < beforeStart + m ==> Run(before, after, j, index + 1) < m
    {
      if j > 0 && before[j - 1] == after[index] {
        var l :| 0 <= l < |elemIndices| && elemIndices[l] == j - 1;
        RunAtIndex(before, after, index, elemIndices[l], j, m, beforeStart, afterStart);
      } else {
        assert Run(before, after, j, index + 1) == 0;
      }
    }
  }

  /** A run ending at `j`, one past an index `p` of `after[index]`, obeys the bounds known at `p`. */
  lemma RunAtIndex<T>(before: seq<T>, after: seq<T>, index: nat, p: int, j: nat, m: int, beforeStart: int, afterStart: int)
    requires index < |after| && 0 <= p < |before| && j == p + 1
    requires Run(before, after, p + 1, index + 1) <= m
    requires m > 0 && index + 1 == afterStart + m && p + 1 < beforeStart + m ==> Run(before, after, p + 1, index + 1) < m
    ensures Run(before, after, j, index + 1) <= m
    ensures m > 0 && index + 1 == afterStart + m && j < beforeStart + m ==> Run(before, after, j, index + 1) < m
  {
  }

  /** `PartialBest` over the rows before `index`, with the runs of row `index + 1` bounded, is
      `Best` over the rows up to `index + 1`. */
  lemma BestFromRow<T>(before: seq<T>, after: seq<T>, index: nat, m: int, beforeStart: int, afterStart: int)
    requires index < |after|
    requires PartialBest(before, after, m, beforeStart, afterStart, index)
    requires forall j {:trigger Run(before, after, j, index + 1)} :: 0 <= j <= |before| ==>
               Run(before, after, j, index + 1) <= m
               && (m > 0 && index + 1 == afterStart + m && j < beforeStart + m ==> Run(before, after, j, index + 1) < m)
    ensures Best(before, after, m, beforeStart, afterStart, index + 1)
  {
    forall j, i | 0 <= j <= |before| && 0 <= i <= index + 1
      ensures Run(before, after, j, i) <= m
      ensures m > 0 && (i < afterStart + m || (i == afterStart + m && j < beforeStart + m)) ==> Run(before, after, j, i) < m
    {
      if i == index + 1 {
        assert Run(before, after, j, index + 1) <= m;
      }
    }
  }

  /** The outcome of the scan: `m` is the length of a longest common run, the run at
      `beforeStart` and `afterStart` when it is positive, and the first of that length by position
      in `after`, then in `before`. It is zero exactly when the lists share no element. */
  ghost predicate Longest<T>(before: seq<T>, after: seq<T>, beforeStart: int, afterStart: int, m: int) {
    0 <= m
    && (m > 0 ==> 0 <= beforeStart && 0 <= afterStart && CommonRun(before, after, beforeStart, afterStart, m))
    && (forall p: nat, q: nat, k: nat :: CommonRun(before, after, p, q, k) ==> k <= m)
    && (m > 0 ==> forall p: nat, q: nat :: CommonRun(before, after, p, q, m) ==>
                    afterStart < q || (afterStart == q && beforeStart <= p))
    && (m == 0 <==> forall p, q :: 0 <= p < |before| && 0 <= q < |after| ==> before[p] != after[q])
  }

  lemma BestIsLongest<T>(before: seq<T>, after: seq<T>, beforeStart: int, afterStart: int, m: int)
    requires Best(before, after, m, beforeStart, afterStart, |after|)
    ensures Longest(before, after, beforeStart, afterStart, m)
  {
    forall p: nat, q: nat, k: nat | CommonRun(before, after, p, q, k) ensures k <= m {
      RunIsLongest(before, after, p, q, k);
    }
    if m > 0 {
      RunIsCommon(before, after, beforeStart + m, afterStart + m);
      forall p: nat, q: nat | CommonRun(before, after, p, q, m)
        ensures afterStart < q || (afterStart == q && beforeStart <= p)
      {
        RunIsLongest(before, after, p, q, m);
      }
      assert before[beforeStart] == before[beforeStart..beforeStart + m][0];
    } else {
      forall p, q | 0 <= p < |before| && 0 <= q < |after| ensures before[p] != after[q] {
        if before[p] == after[q] {
          assert CommonRun(before, after, p, q, 1);
        }
      }
    }
  }

  /** The second loop: the overlay scan over `after`, row by row. */
  method LongestOverlay<T(==)>(before: seq<T>, after: seq<T>, beforeIndices: map<T, seq<int>>)
    returns (beforeStart: int, afterStart: int, maxOverlayLength: int)
    requires forall e :: e in beforeIndices <==> e in before
    requires forall e :: e in beforeIndices ==> beforeIndices[e] == Positions(before, e)
    ensures Longest(before, after, beforeStart, afterStart, maxOverlayLength)
  {
    beforeStart, afterStart, maxOverlayLength := 0, 0, 0;
    var overlay: map<int, int> := map[];
    for index := 0 to |after|
      invariant RowOverlay(before, after, overlay, index)
      invariant Best(before, after, maxOverlayLength, beforeStart, afterStart, index)
    {
      var elem := after[index];
      var nextOverlay: map<int, int> := map[];
      if elem in beforeIndices {
        nextOverlay, maxOverlayLength, beforeStart, afterStart :=
          ScanRow(before, after, index, beforeIndices[elem], overlay, maxOverlayLength, beforeStart, afterStart);
      } else {
        PositionsOfAbsent(before, elem);
        ScanStarts(before, after, index, [], maxOverlayLength, beforeStart, afterStart);
        RowDone(before, after, index, [], maxOverlayLength, beforeStart, afterStart);
      }
      overlay := nextOverlay;
    }
    BestIsLongest(before, after, beforeStart, afterStart, maxOverlayLength);
  }

  // ---------------------------------------------------------------- the diff

  /** `simplediff(before:after:)`: the changes that turn `before` into `after`. Without a common
      element it deletes all of `before` and inserts all of `after`; otherwise it keeps the
      longest common run, the first found, and diffs what lies before it and after it. No change
      is empty, and equal lists give a single no-op. */
  method Diff<T(==)>(before: seq<T>, after: seq<T>) returns (operations: seq<Change<T>>)
    ensures Before(operations) == before && After(operations) == after
    ensures NoEmptyChange(operations)
    ensures (forall p, q :: 0 <= p < |before| && 0 <= q < |after| ==> before[p] != after[q]) ==>
              operations == (if |before| > 0 then [Change(Delete, before)] else [])
                            + (if |after| > 0 then [Change(Insert, after)] else [])
    ensures before == after ==> operations == (if |before| > 0 then [Change(Noop, before)] else [])
    decreases |before| + |after|, 1
  {
    var beforeIndices := BeforeIndices(before);
    var beforeStart, afterStart, maxOverlayLength := LongestOverlay(before, after, beforeIndices);
    NoCommonMeansZero(before, after, beforeStart, afterStart, maxOverlayLength);
    if maxOverlayLength == 0 {
      operations := (if |before| > 0 then [Change(Delete, before)] else [])
                    + (if |after| > 0 then [Change(Insert, after)] else []);
      DeleteInsert(before, after);
    } else {
      IdentityIsOneRun(before, after, beforeStart, afterStart, maxOverlayLength);
      operations := DiffAround(before, after, beforeStart, afterStart, maxOverlayLength);
    }
  }

  /** The recursive case of `simplediff`: the diffs of what lies before and after a common run of
      length `m`, around a no-op that keeps the run. */
  method DiffAround<T(==)>(before: seq<T>, after: seq<T>, beforeStart: int, afterStart: int, m: int)
    returns (operations: seq<Change<T>>)
    requires 0 <= beforeStart && 0 <= afterStart && m > 0 && CommonRun(before, after, beforeStart, afterStart, m)
    requires before == after ==> beforeStart == 0 && afterStart == 0 && m == |before|
    ensures Before(operations) == before && After(operations) == after
    ensures NoEmptyChange(operations)
    ensures before == after ==> operations == [Change(Noop, before)]
    decreases |before| + |after|, 0
  {
    var left := Diff(before[..beforeStart], after[..afterStart]);
    var right := Diff(before[beforeStart + m..], after[afterStart + m..]);
    operations := left + [Change(Noop, after[afterStart..afterStart + m])] + right;
    DiffJoins(before, after, beforeStart, afterStart, m, left, right);
    if before == after {
      assert left == [] && right == [];
      assert operations == [Change(Noop, after[afterStart..afterStart + m])];
      assert after[afterStart..afterStart + m] == before;
    }
  }

  /** The longest run is zero exactly when there is no common element. */
  lemma NoCommonMeansZero<T>(before: seq<T>, after: seq<T>, beforeStart: int, afterStart: int, m: int)
    requires Longest(before, after, beforeStart, afterStart, m)
    ensures m == 0 <==> forall p, q :: 0 <= p < |before| && 0 <= q < |after| ==> before[p] != after[q]
    ensures before == after && |before| > 0 ==> m > 0
  {
    if before == after && |before| > 0 {
      assert before[0] == after[0];
    }
  }

  /** For equal non-empty lists the longest run is the whole list. */
  lemma IdentityIsOneRun<T>(before: seq<T>, after: seq<T>, beforeStart: int, afterStart: int, m: int)
    requires Longest(before, after, beforeStart, afterStart, m) && m > 0
    ensures 0 <= beforeStart && 0 <= afterStart
    ensures beforeStart + m <= |before| && afterStart + m <= |after|
    ensures before == after ==> beforeStart == 0 && afterStart == 0 && m == |before|
    ensures CommonRun(before, after, beforeStart, afterStart, m)
  {
    if before == after {
      assert CommonRun(before, after, 0, 0, |before|);
    }
  }

  /** Deleting all of `before` and inserting all of `after` turns one into the other. */
  lemma DeleteInsert<T>(before: seq<T>, after: seq<T>)
    ensures var operations := (if |before| > 0 then [Change(Delete, before)] else [])
                              + (if |after| > 0 then [Change(Insert, after)] else []);
            Before(operations) == before && After(operations) == after && NoEmptyChange(operations)
  {
    var deletion: seq<Change<T>> := if |before| > 0 then [Change(Delete, before)] else [];
    var insertion: seq<Change<T>> := if |after| > 0 then [Change(Insert, after)] else [];
    BeforeAfterAppend(deletion, insertion);
    assert Before(deletion) == before && After(deletion) == [];
    assert Before(insertion) == [] && After(insertion) == after;
  }

  lemma DiffJoins<T>(before: seq<T>, after: seq<T>, beforeStart: int, afterStart: int, m: int,
                     left: seq<Change<T>>, right: seq<Change<T>>)
    requires 0 <= beforeStart && 0 <= afterStart && m > 0 && CommonRun(before, after, beforeStart, afterStart, m)
    requires Before(left) == before[..beforeStart] && After(left) == after[..afterStart]
    requires Before(right) == before[beforeStart + m..] && After(right) == after[afterStart + m..]
    requires NoEmptyChange(left) && NoEmptyChange(right)
    ensures var operations := left + [Change(Noop, after[afterStart..afterStart + m])] + right;
            Before(operations) == before && After(operations) == after && NoEmptyChange(operations)
  {
    var noop := Change(Noop, after[afterStart..afterStart + m]);
    var operations := left + [noop] + right;
    BeforeAfterAppend(left, [noop]);
    BeforeAfterAppend(left + [noop], right);
    assert Before([noop]) == noop.elements;
    assert After([noop]) == noop.elements;
    ThreeParts(before, beforeStart, beforeStart + m);
    ThreeParts(after, afterStart, afterStart + m);
    forall k | 0 <= k < |operations| ensures |operations[k].elements| > 0 {
      if k < |left| {
        assert operations[k] == left[k];
      } else if k > |left| {
        assert operations[k] == right[k - |left| - 1];
      }
    }
  }

  lemma ThreeParts<T>(s: seq<T>, i: int, j: int)
    requires 0 <= i <= j <= |s|
    ensures s == s[..i] + s[i..j] + s[j..]
  {
  }

}
