/** The progress bars (src/components/ui/Progress.tsx): a clamped percentage,
    and milestone marks laid out in ascending order and classified as
    complete, active (the next one to reach) or neither. */
module Progress {
  import opened Common

  /** `Math.min(100, Math.max(0, x))` on a finite number. */
  function Clamp(x: real): (r: real)
    ensures 0.0 <= r <= 100.0
    ensures 0.0 <= x <= 100.0 ==> r == x
  {
    if x > 100.0 then 100.0 else if x < 0.0 then 0.0 else x
  }

  /** `Math.min(100, Math.max(0, (value / max) * 100))`. A zero `max` divides
      to an infinity (clamped to 100 or 0) or, for a zero value, to `NaN`,
      here `None`. */
  function Percentage(value: real, max: real): (p: Option<real>)
    ensures p.None? <==> value == 0.0 && max == 0.0
    ensures p.Some? ==> 0.0 <= p.value <= 100.0
    ensures max > 0.0 && 0.0 <= value <= max ==> p == Some(value / max * 100.0)
    ensures max > 0.0 && value >= max ==> p == Some(100.0)
    ensures max > 0.0 && value <= 0.0 ==> p == Some(0.0)
  {
    if max == 0.0 then
      if value > 0.0 then Some(100.0) else if value < 0.0 then Some(0.0) else None
    else
      PercentageBounds(value, max);
      Some(Clamp(value / max * 100.0))
  }

  lemma PercentageBounds(value: real, max: real)
    requires max != 0.0
    ensures max > 0.0 && 0.0 <= value <= max ==> 0.0 <= value / max * 100.0 <= 100.0
    ensures max > 0.0 && value >= max ==> value / max * 100.0 >= 100.0
    ensures max > 0.0 && value <= 0.0 ==> value / max * 100.0 <= 0.0
  {
    if max > 0.0 {
      var q := value / max;
      assert q * max == value;
      if value >= max {
        assert q >= 1.0;
      }
      if 0.0 <= value <= max {
        assert q <= 1.0;
      }
      if value <= 0.0 {
        assert q <= 0.0;
      }
    }
  }

  predicate Sorted(s: seq<int>)
  {
    forall i, j :: 0 <= i < j < |s| ==> s[i] <= s[j]
  }

  /** Insert `x` before the first element not smaller than it. */
  function Insert(x: int, s: seq<int>): (r: seq<int>)
    ensures |r| == |s| + 1
  {
    if s == [] || x <= s[0] then [x] + s else [s[0]] + Insert(x, s[1..])
  }

  /** `[...milestones].sort((a, b) => a - b)`: an ascending copy. */
  function SortAscending(s: seq<int>): (r: seq<int>)
    ensures |r| == |s|
  {
    if s == [] then [] else Insert(s[0], SortAscending(s[1..]))
  }

  lemma {:induction false} InsertKeepsElements(x: int, s: seq<int>)
    ensures multiset(Insert(x, s)) == multiset(s) + multiset{x}
  {
    if s != [] && x > s[0] {
      InsertKeepsElements(x, s[1..]);
      assert s == [s[0]] + s[1..];
    }
  }

  lemma {:induction false} InsertSorted(x: int, s: seq<int>)
    requires Sorted(s)
    ensures Sorted(Insert(x, s))
  {
    if s != [] && x > s[0] {
      var t := s[1..];
      InsertSorted(x, t);
      InsertKeepsElements(x, t);
      var r := Insert(x, t);
      forall k | 0 <= k < |r|
        ensures s[0] <= r[k]
      {
        assert r[k] in multiset(r);
        if r[k] != x {
          assert r[k] in multiset(t);
          var m :| 0 <= m < |t| && t[m] == r[k];
          assert s[m + 1] == r[k];
        }
      }
    }
  }

  /** The sorted copy is ascending. */
  lemma {:induction false} SortSorted(s: seq<int>)
    ensures Sorted(SortAscending(s))
  {
    if s != [] {
      SortSorted(s[1..]);
      InsertSorted(s[0], SortAscending(s[1..]));
    }
  }

  /** The sorted copy holds exactly the input's milestones, duplicates included. */
  lemma {:induction false} SortPermutes(s: seq<int>)
    ensures multiset(SortAscending(s)) == multiset(s)
  {
    if s != [] {
      SortPermutes(s[1..]);
      InsertKeepsElements(s[0], SortAscending(s[1..]));
      assert s == [s[0]] + s[1..];
    }
  }

  /** The last element of the sorted copy, `max`, is the largest milestone. */
  lemma LastIsLargest(s: seq<int>)
    requires |s| > 0
    ensures var t := SortAscending(s);
      t[|t| - 1] in s && forall m :: m in s ==> m <= t[|t| - 1]
  {
    var t := SortAscending(s);
    SortSorted(s);
    SortPermutes(s);
    assert t[|t| - 1] in multiset(t);
    forall m | m in s
      ensures m <= t[|t| - 1]
    {
      assert m in multiset(s);
      var k :| 0 <= k < |t| && t[k] == m;
    }
  }

  /** `currentValue >= milestone`. */
  predicate IsComplete(current: int, milestone: int)
  {
    current >= milestone
  }

  /** Not yet reached, and either the first milestone or the previous one is reached. */
  predicate IsActive(sorted: seq<int>, current: int, i: nat)
    requires i < |sorted|
  {
    current < sorted[i] && (i == 0 || current >= sorted[i - 1])
  }

  /** One milestone dot: its value, its position as a percentage of `max`
      (`None` where that division is not finite) and its classification. */
  datatype Mark = Mark(value: int, position: Option<real>, isActive: bool, isComplete: bool)

  /** What `MilestoneProgress` renders: the bar's fill and the dots in ascending order. */
  datatype MilestoneBar = MilestoneBar(percentage: Option<real>, marks: seq<Mark>)

  function Position(milestone: int, max: int): Option<real>
  {
    if max == 0 then None else Some(milestone as real / max as real * 100.0)
  }

  function MilestoneProgress(current: int, milestones: seq<int>): (r: MilestoneBar)
    ensures |r.marks| == |milestones|
    ensures forall i :: 0 <= i < |r.marks| ==> !(r.marks[i].isActive && r.marks[i].isComplete)
    ensures milestones == [] ==> r.percentage.None?
  {
    var sorted := SortAscending(milestones);
    if sorted == [] then MilestoneBar(None, [])
    else
      var max := sorted[|sorted| - 1];
      MilestoneBar(
        Percentage(current as real, max as real),
        seq(|sorted|, i requires 0 <= i < |sorted| =>
          Mark(sorted[i], Position(sorted[i], max), IsActive(sorted, current, i), IsComplete(current, sorted[i]))))
  }

  /** The dots are the milestones in ascending order, none lost or added. */
  lemma MarksAreSortedMilestones(current: int, milestones: seq<int>)
    ensures var marks := MilestoneProgress(current, milestones).marks;
      && (forall i, j :: 0 <= i < j < |marks| ==> marks[i].value <= marks[j].value)
      && multiset(seq(|marks|, i requires 0 <= i < |marks| => marks[i].value)) == multiset(milestones)
  {
    SortSorted(milestones);
    SortPermutes(milestones);
    var sorted := SortAscending(milestones);
    var marks := MilestoneProgress(current, milestones).marks;
    assert seq(|marks|, i requires 0 <= i < |marks| => marks[i].value) == sorted;
  }

  /** A dot is active exactly when it is the first milestone above the current value. */
  lemma ActiveIsFirstUnreached(sorted: seq<int>, current: int, i: nat)
    requires Sorted(sorted) && i < |sorted|
    ensures IsActive(sorted, current, i) <==>
      current < sorted[i] && forall j :: 0 <= j < i ==> sorted[j] <= current
  {
  }

  /** At most one dot is active, and the complete dots are a prefix. */
  lemma AtMostOneActive(current: int, milestones: seq<int>)
    ensures var marks := MilestoneProgress(current, milestones).marks;
      && (forall i, j :: 0 <= i < |marks| && 0 <= j < |marks| && marks[i].isActive && marks[j].isActive ==> i == j)
      && (forall i, j :: 0 <= i < j < |marks| && marks[j].isComplete ==> marks[i].isComplete)
  {
    SortSorted(milestones);
  }

  /** With at least one milestone, some dot is active exactly while the
      largest milestone is not reached. */
  lemma ActiveUntilLast(current: int, milestones: seq<int>)
    requires |milestones| > 0
    ensures var marks := MilestoneProgress(current, milestones).marks;
      (exists i :: 0 <= i < |marks| && marks[i].isActive) <==> current < marks[|marks| - 1].value
  {
    SortSorted(milestones);
    var sorted := SortAscending(milestones);
    var marks := MilestoneProgress(current, milestones).marks;
    if current < sorted[|sorted| - 1] {
      var k := FirstAbove(sorted, current);
      assert marks[k].isActive;
    } else {
      forall i | 0 <= i < |marks|
        ensures !marks[i].isActive
      {
        assert sorted[i] <= sorted[|sorted| - 1];
      }
    }
  }

  /** The index of the first element above `current`. */
  lemma FirstAbove(sorted: seq<int>, current: int) returns (k: nat)
    requires Sorted(sorted) && |sorted| > 0 && current < sorted[|sorted| - 1]
    ensures k < |sorted| && IsActive(sorted, current, k)
  {
    k := 0;
    while sorted[k] <= current
      invariant k < |sorted|
      invariant k == 0 || sorted[k - 1] <= current
      decreases |sorted| - k
    {
      k := k + 1;
    }
  }
}
