/**
 * What the problem list's grouping, toggling and tallies promise: every
 * problem in exactly the group of its week, weeks in strictly ascending
 * order, each week's problems stably sorted by position, a flip of exactly
 * one checkbox, and tallies that partition the problems.
 */
module ProblemListProperties {
  import opened Wrappers
  import Decimal
  import opened StableSort
  import opened ProblemList

  predicate DistinctInts(s: seq<int>) {
    forall i, j :: 0 <= i < j < |s| ==> s[i] != s[j]
  }

  /** The weeks of the map are distinct and are exactly the input's weeks. */
  lemma {:induction false} WeeksInOrderSpec(ps: seq<Problem>)
    ensures DistinctInts(WeeksInOrder(ps))
    ensures (set w | w in WeeksInOrder(ps)) == (set p | p in ps :: WeekOf(p))
    decreases |ps|
  {
    if ps != [] {
      var init := ps[..|ps| - 1];
      WeeksInOrderSpec(init);
      assert ps == init + [ps[|ps| - 1]];
      assert (set p | p in ps :: WeekOf(p)) == (set p | p in init :: WeekOf(p)) + {WeekOf(ps[|ps| - 1])};
    }
  }

  /** An entry is in a week's list exactly when some problem of that week normalises to it. */
  lemma {:induction false} EntriesOfWeekSpec(ps: seq<Problem>, week: int, e: Entry)
    ensures e in EntriesOfWeek(ps, week) <==> exists i :: 0 <= i < |ps| && WeekOf(ps[i]) == week && ToEntry(ps[i]) == e
    decreases |ps|
  {
    if ps != [] {
      var init := ps[..|ps| - 1];
      EntriesOfWeekSpec(init, week, e);
      if e in EntriesOfWeek(init, week) {
        var i :| 0 <= i < |init| && WeekOf(init[i]) == week && ToEntry(init[i]) == e;
        assert ps[i] == init[i];
      }
      if exists i :: 0 <= i < |ps| && WeekOf(ps[i]) == week && ToEntry(ps[i]) == e {
        var i :| 0 <= i < |ps| && WeekOf(ps[i]) == week && ToEntry(ps[i]) == e;
        if i < |init| {
          assert init[i] == ps[i];
        }
      }
    }
  }

  lemma BucketsDistinct(ps: seq<Problem>)
    ensures DistinctKeys(Buckets(ps), BucketWeek)
  {
    WeeksInOrderSpec(ps);
  }

  /** Every sorted bucket is the bucket of its own week. */
  lemma SortedBucketsAreBuckets(ps: seq<Problem>, k: int)
    requires 0 <= k < |SortedBuckets(ps)|
    ensures SortedBuckets(ps)[k] == BucketOf(ps, SortedBuckets(ps)[k].week)
    ensures SortedBuckets(ps)[k].week in WeeksInOrder(ps)
  {
    var bs := Buckets(ps);
    SortByPermutation(bs, BucketWeek);
    var b := SortedBuckets(ps)[k];
    assert b in multiset(SortedBuckets(ps));
    assert b in bs;
  }

  /** The weeks the input's problems belong to. */
  ghost function InputWeeks(ps: seq<Problem>): set<int> {
    set p | p in ps :: WeekOf(p)
  }

  /** The weeks of the sorted buckets. */
  ghost function GroupWeeks(ps: seq<Problem>): set<int> {
    set b | b in SortedBuckets(ps) :: b.week
  }

  /**
   * The groups come one per distinct week of the input, in strictly
   * ascending week order, and each is the bucket of its week.
   */
  lemma GroupsOnePerWeek(ps: seq<Problem>)
    ensures |Grouped(ps)| == |SortedBuckets(ps)|
    ensures forall i, j :: 0 <= i < j < |SortedBuckets(ps)| ==> SortedBuckets(ps)[i].week < SortedBuckets(ps)[j].week
    ensures GroupWeeks(ps) == InputWeeks(ps)
  {
    var bs := Buckets(ps);
    var sb := SortedBuckets(ps);
    var ws := WeeksInOrder(ps);
    BucketsDistinct(ps);
    SortByStrict(bs, BucketWeek);
    WeeksInOrderSpec(ps);
    SortByPermutation(bs, BucketWeek);
    forall w | w in GroupWeeks(ps) ensures w in InputWeeks(ps) {
      var b :| b in sb && b.week == w;
      assert b in multiset(sb);
      assert b in bs;
      var i :| 0 <= i < |bs| && bs[i] == b;
      assert ws[i] == w;
    }
    forall w | w in InputWeeks(ps) ensures w in GroupWeeks(ps) {
      var i :| 0 <= i < |ws| && ws[i] == w;
      assert bs[i] in multiset(sb);
      assert bs[i] in sb;
    }
  }

  /**
   * A group's title names its week; its count, its problems and its
   * checkboxes agree in number, all unchecked; its problems are the week's
   * entries sorted by position, a permutation of them that keeps the input
   * order among equal positions.
   */
  lemma GroupContents(ps: seq<Problem>, k: int)
    requires 0 <= k < |Grouped(ps)|
    ensures var g := Grouped(ps)[k];
      var w := SortedBuckets(ps)[k].week;
      var es := EntriesOfWeek(ps, w);
      && g.title == WeekTitle(w)
      && g.count == |g.problems| == |es| && |g.checked| == g.count
      && (forall i :: 0 <= i < |g.checked| ==> !g.checked[i])
      && SortedBy(g.problems, EntryPosition)
      && multiset(g.problems) == multiset(es)
      && (forall q :: WithKey(g.problems, EntryPosition, q) == WithKey(es, EntryPosition, q))
  {
    SortedBucketsAreBuckets(ps, k);
    var es := EntriesOfWeek(ps, SortedBuckets(ps)[k].week);
    SortBySorted(es, EntryPosition);
    SortByPermutation(es, EntryPosition);
    SortByLength(es, EntryPosition);
    forall q ensures WithKey(SortBy(es, EntryPosition), EntryPosition, q) == WithKey(es, EntryPosition, q) {
      SortByStable(es, EntryPosition, q);
    }
  }

  /**
   * Each problem lands in exactly one group, the one of its week, and a
   * group holds only problems of its week.
   */
  lemma EveryProblemInItsWeek(ps: seq<Problem>, i: int)
    requires 0 <= i < |ps|
    ensures exists k :: 0 <= k < |Grouped(ps)| && SortedBuckets(ps)[k].week == WeekOf(ps[i])
                        && ToEntry(ps[i]) in Grouped(ps)[k].problems
    ensures forall k, k' :: 0 <= k < k' < |Grouped(ps)| ==> SortedBuckets(ps)[k].week != SortedBuckets(ps)[k'].week
  {
    GroupsOnePerWeek(ps);
    var sb := SortedBuckets(ps);
    assert WeekOf(ps[i]) in InputWeeks(ps);
    assert WeekOf(ps[i]) in GroupWeeks(ps);
    var k :| 0 <= k < |sb| && sb[k].week == WeekOf(ps[i]);
    GroupContents(ps, k);
    EntriesOfWeekSpec(ps, WeekOf(ps[i]), ToEntry(ps[i]));
    var es := EntriesOfWeek(ps, WeekOf(ps[i]));
    assert ToEntry(ps[i]) in multiset(es);
    assert ToEntry(ps[i]) in multiset(Grouped(ps)[k].problems);
  }

  lemma GroupHoldsOnlyItsWeek(ps: seq<Problem>, k: int, e: Entry)
    requires 0 <= k < |Grouped(ps)| && e in Grouped(ps)[k].problems
    ensures exists i :: 0 <= i < |ps| && WeekOf(ps[i]) == SortedBuckets(ps)[k].week && ToEntry(ps[i]) == e
  {
    GroupContents(ps, k);
    var w := SortedBuckets(ps)[k].week;
    assert e in multiset(Grouped(ps)[k].problems);
    assert e in EntriesOfWeek(ps, w);
    EntriesOfWeekSpec(ps, w, e);
  }

  /** The entries of the given weeks, counted. */
  function EntryCount(ps: seq<Problem>, ws: seq<int>): nat {
    if ws == [] then 0 else EntryCount(ps, ws[..|ws| - 1]) + |EntriesOfWeek(ps, ws[|ws| - 1])|
  }

  lemma {:induction false} EntryCountStep(ps: seq<Problem>, p: Problem, ws: seq<int>)
    requires DistinctInts(ws)
    ensures EntryCount(ps + [p], ws) == EntryCount(ps, ws) + (if WeekOf(p) in ws then 1 else 0)
    decreases |ws|
  {
    var ps' := ps + [p];
    assert ps'[..|ps'| - 1] == ps;
    if ws != [] {
      var init := ws[..|ws| - 1];
      assert DistinctInts(init) by {
        forall i, j | 0 <= i < j < |init| ensures init[i] != init[j] {
          assert init[i] == ws[i] && init[j] == ws[j];
        }
      }
      EntryCountStep(ps, p, init);
      assert WeekOf(p) in ws <==> WeekOf(p) in init || WeekOf(p) == ws[|ws| - 1] by {
        assert ws == init + [ws[|ws| - 1]];
      }
      if WeekOf(p) == ws[|ws| - 1] {
        assert WeekOf(p) !in init by {
          forall i | 0 <= i < |init| ensures init[i] != WeekOf(p) {
            assert init[i] == ws[i];
          }
        }
      }
    }
  }

  /** Over the map's weeks, the entries number exactly the problems. */
  lemma {:induction false} EntryCountOfAllWeeks(ps: seq<Problem>)
    ensures EntryCount(ps, WeeksInOrder(ps)) == |ps|
    decreases |ps|
  {
    if ps != [] {
      var init, p := ps[..|ps| - 1], ps[|ps| - 1];
      assert ps == init + [p];
      var ws := WeeksInOrder(init);
      EntryCountOfAllWeeks(init);
      WeeksInOrderSpec(init);
      EntryCountStep(init, p, ws);
      if WeekOf(p) !in ws {
        var ws' := ws + [WeekOf(p)];
        assert ws'[..|ws'| - 1] == ws;
        NoEntriesOfUnseenWeek(init, WeekOf(p));
      }
    }
  }

  function BucketSize(b: Bucket): int {
    |b.problems|
  }

  lemma {:induction false} SumOfBucketSizes(ps: seq<Problem>, ws: seq<int>)
    ensures SumOf(seq(|ws|, i requires 0 <= i < |ws| => BucketOf(ps, ws[i])), BucketSize) == EntryCount(ps, ws)
    decreases |ws|
  {
    if ws != [] {
      var bs := seq(|ws|, i requires 0 <= i < |ws| => BucketOf(ps, ws[i]));
      var init := ws[..|ws| - 1];
      assert bs[..|bs| - 1] == seq(|init|, i requires 0 <= i < |init| => BucketOf(ps, init[i]));
      SumOfBucketSizes(ps, init);
    }
  }

  lemma {:induction false} ProblemCountOfGroups(bs: seq<Bucket>)
    ensures ProblemCount(seq(|bs|, i requires 0 <= i < |bs| => ToGroup(bs[i]))) == SumOf(bs, BucketSize)
    decreases |bs|
  {
    if bs != [] {
      var gs := seq(|bs|, i requires 0 <= i < |bs| => ToGroup(bs[i]));
      var init := bs[..|bs| - 1];
      assert gs[..|gs| - 1] == seq(|init|, i requires 0 <= i < |init| => ToGroup(init[i]));
      ProblemCountOfGroups(init);
      SortByLength(bs[|bs| - 1].problems, EntryPosition);
    }
  }

  /** The groups' problem counts add up to the number of input problems. */
  lemma GroupCountsSum(ps: seq<Problem>)
    ensures ProblemCount(Grouped(ps)) == |ps|
  {
    ProblemCountOfGroups(SortedBuckets(ps));
    SortBySumOf(Buckets(ps), BucketWeek, BucketSize);
    SumOfBucketSizes(ps, WeeksInOrder(ps));
    EntryCountOfAllWeeks(ps);
  }

  /** Distinct weeks get distinct titles. */
  lemma WeekTitleInjective(a: int, b: int)
    requires WeekTitle(a) == WeekTitle(b)
    ensures a == b
  {
    assert WeekTitle(a)[0] == (if a == 0 then 'U' else 'W');
    assert WeekTitle(b)[0] == (if b == 0 then 'U' else 'W');
    if a != 0 && b != 0 {
      assert Decimal.IntToString(a) == WeekTitle(a)[5..];
      assert Decimal.IntToString(b) == WeekTitle(b)[5..];
      Decimal.IntToStringInjective(a, b);
    }
  }

  /**
   * A week's title names it: "Unassigned Week" exactly for week 0, and
   * otherwise "Week " followed by decimal digits reading back as the week,
   * after a minus sign for a negative week, and never with a leading zero.
   */
  lemma WeekTitleReadsBack(week: int)
    ensures week == 0 <==> WeekTitle(week) == "Unassigned Week"
    ensures week != 0 ==> |WeekTitle(week)| >= 6 && WeekTitle(week)[..5] == "Week "
    ensures week > 0 ==> Decimal.AllDigits(WeekTitle(week)[5..]) && Decimal.Value(WeekTitle(week)[5..]) == week
    ensures week > 0 ==> WeekTitle(week)[5] != '0'
    ensures week < 0 ==> WeekTitle(week)[5] == '-' && Decimal.AllDigits(WeekTitle(week)[6..]) && Decimal.Value(WeekTitle(week)[6..]) == -week
    ensures week < 0 ==> |WeekTitle(week)| >= 7 && WeekTitle(week)[6] != '0'
  {
    if week != 0 {
      var n := Decimal.IntToString(week);
      assert WeekTitle(week)[5..] == n;
      assert week < 0 ==> WeekTitle(week)[6..] == n[1..];
      assert WeekTitle(week)[0] == 'W';
    }
  }

  /**
   * Lower-case easy, medium and hard are capitalised and every other value
   * is kept; normalising twice changes nothing more.
   */
  lemma NormalizeDifficultySpec(d: string)
    ensures d == "easy" ==> NormalizeDifficulty(d) == "Easy"
    ensures d == "medium" ==> NormalizeDifficulty(d) == "Medium"
    ensures d == "hard" ==> NormalizeDifficulty(d) == "Hard"
    ensures d !in {"easy", "medium", "hard"} ==> NormalizeDifficulty(d) == d
    ensures NormalizeDifficulty(NormalizeDifficulty(d)) == NormalizeDifficulty(d)
    ensures var r := NormalizeDifficulty(d);
      r != d ==> |r| == |d| && 'a' <= d[0] <= 'z' && r[0] == (d[0] as int - 32) as char && r[1..] == d[1..]
  {
  }

  /** Toggling the same in-range checkbox twice restores the weeks. */
  lemma ToggleTwiceRestores(ws: seq<WeekGroup>, wi: int, pi: int)
    requires 0 <= wi < |ws| && 0 <= pi < |ws[wi].checked|
    ensures ToggleProblem(ToggleProblem(ws, wi, pi), wi, pi) == ws
  {
    var once := ToggleProblem(ws, wi, pi);
    var twice := ToggleProblem(once, wi, pi);
    assert twice[wi].checked == ws[wi].checked;
    assert forall j :: 0 <= j < |ws| ==> twice[j] == ws[j];
  }

  lemma {:induction false} NothingCheckedInWeek(w: WeekGroup, n: nat, c: Difficulty)
    requires n <= |w.problems|
    requires forall i :: 0 <= i < |w.checked| ==> !w.checked[i]
    ensures CountInWeek(w, n, c, true) == 0
  {
    if n > 0 {
      NothingCheckedInWeek(w, n - 1, c);
    }
  }

  lemma {:induction false} NothingChecked(ws: seq<WeekGroup>, c: Difficulty)
    requires forall k :: 0 <= k < |ws| ==> forall i :: 0 <= i < |ws[k].checked| ==> !ws[k].checked[i]
    ensures Count(ws, c, true) == 0
    decreases |ws|
  {
    if ws != [] {
      NothingChecked(ws[..|ws| - 1], c);
      NothingCheckedInWeek(ws[|ws| - 1], |ws[|ws| - 1].problems|, c);
    }
  }

  /** Freshly grouped problems are all counted, and none as solved. */
  lemma FreshGroupsTallies(ps: seq<Problem>, c: Difficulty)
    ensures Count(Grouped(ps), Easy, false) + Count(Grouped(ps), Medium, false) + Count(Grouped(ps), Hard, false) == |ps|
    ensures Count(Grouped(ps), c, true) == 0
  {
    TalliesPartition(Grouped(ps));
    GroupCountsSum(ps);
    forall k | 0 <= k < |Grouped(ps)|
      ensures forall i :: 0 <= i < |Grouped(ps)[k].checked| ==> !Grouped(ps)[k].checked[i]
    {
      GroupContents(ps, k);
    }
    NothingChecked(Grouped(ps), c);
  }

  /** `Bar` never draws less for a larger percentage. */
  lemma BarMonotonic(x: real, y: real)
    requires x <= y
    ensures BarPercent(Finite(x)) <= BarPercent(Finite(y))
  {
    assert (x + 0.5).Floor <= (y + 0.5).Floor;
  }
}
