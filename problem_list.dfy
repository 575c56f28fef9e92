/**
 * The problem list page: grouping the problems from `/api/problems` into
 * weeks, the per-problem checkboxes, the difficulty tallies shown in the
 * progress bar, and the clamped percentage of a bar.
 */
module ProblemList {
  import opened Wrappers
  import Decimal
  import opened StableSort

  /** A problem as `/api/problems` returns it; week and position may be null. */
  datatype Problem = Problem(id: string, title: string, difficulty: string, link: string,
                             week: Option<int>, position: Option<int>)

  /** A problem as a week lists it. */
  datatype Entry = Entry(id: string, title: string, difficulty: string, link: string, position: int)

  /** A value of the grouping map: a week and its problems in arrival order. */
  datatype Bucket = Bucket(week: int, title: string, problems: seq<Entry>)

  /** One week of the page: its title, problem count, problems and checkbox states. */
  datatype WeekGroup = WeekGroup(title: string, count: nat, problems: seq<Entry>, checked: seq<bool>)

  /** `p.week ?? 0`: problems without a week go to week 0. */
  function WeekOf(p: Problem): int {
    p.week.GetOr(0)
  }

  /** "Unassigned Week" for week 0, otherwise "Week " and the number. */
  function WeekTitle(week: int): string {
    if week == 0 then "Unassigned Week" else "Week " + Decimal.IntToString(week)
  }

  /** Lower-case easy, medium and hard get a capital first letter. */
  function NormalizeDifficulty(d: string): string {
    if d == "easy" then "Easy"
    else if d == "medium" then "Medium"
    else if d == "hard" then "Hard"
    else d
  }

  function ToEntry(p: Problem): Entry {
    Entry(p.id, p.title, NormalizeDifficulty(p.difficulty), p.link, p.position.GetOr(0))
  }

  function EntryPosition(e: Entry): int {
    e.position
  }

  function BucketWeek(b: Bucket): int {
    b.week
  }

  /** The distinct weeks of the problems, in order of first appearance (the map's key order). */
  function WeeksInOrder(ps: seq<Problem>): seq<int> {
    if ps == [] then []
    else
      var prev := WeeksInOrder(ps[..|ps| - 1]);
      var w := WeekOf(ps[|ps| - 1]);
      if w in prev then prev else prev + [w]
  }

  /** The entries of the problems in the given week, in input order. */
  function EntriesOfWeek(ps: seq<Problem>, week: int): seq<Entry> {
    if ps == [] then []
    else EntriesOfWeek(ps[..|ps| - 1], week) + (if WeekOf(ps[|ps| - 1]) == week then [ToEntry(ps[|ps| - 1])] else [])
  }

  function BucketOf(ps: seq<Problem>, week: int): Bucket {
    Bucket(week, WeekTitle(week), EntriesOfWeek(ps, week))
  }

  /** The map's values in insertion order. */
  function Buckets(ps: seq<Problem>): seq<Bucket> {
    var ws := WeeksInOrder(ps);
    seq(|ws|, i requires 0 <= i < |ws| => BucketOf(ps, ws[i]))
  }

  /** The buckets sorted by week. */
  function SortedBuckets(ps: seq<Problem>): seq<Bucket> {
    SortBy(Buckets(ps), BucketWeek)
  }

  function ToGroup(b: Bucket): WeekGroup {
    WeekGroup(b.title, |b.problems|, SortBy(b.problems, EntryPosition), seq(|b.problems|, _ => false))
  }

  /** What `groupProblemsByWeek` returns for the problems. */
  function Grouped(ps: seq<Problem>): seq<WeekGroup> {
    var bs := SortedBuckets(ps);
    seq(|bs|, i requires 0 <= i < |bs| => ToGroup(bs[i]))
  }

  /**
   * The `forEach` pass of `groupProblemsByWeek`: each problem creates its
   * week's bucket if the map has none yet, then appends its normalised
   * entry to it. `order` is the map's key order.
   */
  method FillByWeek(problems: seq<Problem>) returns (byWeek: map<int, Bucket>, order: seq<int>)
    ensures order == WeeksInOrder(problems)
    ensures byWeek == BucketMap(problems)
  {
    byWeek, order := map[], [];
    var i := 0;
    while i < |problems|
      invariant 0 <= i <= |problems|
      invariant order == WeeksInOrder(problems[..i])
      invariant byWeek == BucketMap(problems[..i])
    {
      var p := problems[i];
      assert problems[..i + 1] == problems[..i] + [p];
      ExtendByOne(problems[..i], p);
      BucketMapStep(problems[..i], p);
      var weekNum := p.week.GetOr(0);
      if weekNum !in byWeek {
        byWeek := byWeek[weekNum := Bucket(weekNum, WeekTitle(weekNum), [])];
        order := order + [weekNum];
      }
      var entry := Entry(p.id, p.title, NormalizeDifficulty(p.difficulty), p.link, p.position.GetOr(0));
      byWeek := byWeek[weekNum := byWeek[weekNum].(problems := byWeek[weekNum].problems + [entry])];
      i := i + 1;
    }
    assert problems[..i] == problems;
  }

  /**
   * `groupProblemsByWeek`: the pass above fills the map; its buckets are
   * then sorted by week and each week's problems by position, and every
   * week gets a count and an unchecked checkbox per problem.
   */
  method GroupProblemsByWeek(problems: seq<Problem>) returns (groups: seq<WeekGroup>)
    ensures groups == Grouped(problems)
  {
    var byWeek, order := FillByWeek(problems);
    var values := seq(|order|, k requires 0 <= k < |order| => byWeek[order[k]]);
    assert values == Buckets(problems);
    var weeksArray := SortBy(values, BucketWeek);
    groups := seq(|weeksArray|, k requires 0 <= k < |weeksArray| =>
      var w := weeksArray[k];
      WeekGroup(w.title, |w.problems|, SortBy(w.problems, EntryPosition), seq(|w.problems|, _ => false)));
  }

  /** The map after a pass over the problems: each seen week to its bucket. */
  function BucketMap(ps: seq<Problem>): map<int, Bucket> {
    map w | w in WeeksInOrder(ps) :: BucketOf(ps, w)
  }

  /** One more problem creates its week's bucket if missing, then appends its entry there. */
  lemma BucketMapStep(ps: seq<Problem>, p: Problem)
    ensures var w := WeekOf(p);
      var m := if w in BucketMap(ps) then BucketMap(ps) else BucketMap(ps)[w := Bucket(w, WeekTitle(w), [])];
      BucketMap(ps + [p]) == m[w := m[w].(problems := m[w].problems + [ToEntry(p)])]
  {
    var w := WeekOf(p);
    if w in BucketMap(ps) {
      BucketMapSeen(ps, p);
    } else {
      BucketMapNew(ps, p);
      var m := BucketMap(ps)[w := Bucket(w, WeekTitle(w), [])];
      assert m[w].problems + [ToEntry(p)] == [ToEntry(p)];
      assert m[w := m[w].(problems := [ToEntry(p)])] == BucketMap(ps)[w := Bucket(w, WeekTitle(w), [ToEntry(p)])];
    }
  }

  /** A problem of a week already in the map appends its entry to that week's bucket. */
  lemma BucketMapSeen(ps: seq<Problem>, p: Problem)
    requires WeekOf(p) in BucketMap(ps)
    ensures BucketMap(ps + [p]) == BucketMap(ps)[WeekOf(p) := BucketOf(ps, WeekOf(p)).(problems := EntriesOfWeek(ps, WeekOf(p)) + [ToEntry(p)])]
  {
    ExtendByOne(ps, p);
    var w := WeekOf(p);
    var lhs, rhs := BucketMap(ps + [p]), BucketMap(ps)[w := BucketOf(ps, w).(problems := EntriesOfWeek(ps, w) + [ToEntry(p)])];
    assert lhs.Keys == rhs.Keys;
    forall k | k in lhs ensures lhs[k] == rhs[k] {
      if k != w {
        assert EntriesOfWeek(ps + [p], k) == EntriesOfWeek(ps, k);
      }
    }
  }

  /** A problem of a week not yet in the map starts that week's bucket with its entry. */
  lemma BucketMapNew(ps: seq<Problem>, p: Problem)
    requires WeekOf(p) !in BucketMap(ps)
    ensures BucketMap(ps + [p]) == BucketMap(ps)[WeekOf(p) := Bucket(WeekOf(p), WeekTitle(WeekOf(p)), [ToEntry(p)])]
  {
    ExtendByOne(ps, p);
    var w := WeekOf(p);
    NoEntriesOfUnseenWeek(ps, w);
    var lhs, rhs := BucketMap(ps + [p]), BucketMap(ps)[w := Bucket(w, WeekTitle(w), [ToEntry(p)])];
    assert lhs.Keys == rhs.Keys;
    forall k | k in lhs ensures lhs[k] == rhs[k] {
      if k != w {
        assert EntriesOfWeek(ps + [p], k) == EntriesOfWeek(ps, k);
      }
    }
  }

  /** One more problem adds its week, if new, and its entry to that week. */
  lemma ExtendByOne(ps: seq<Problem>, p: Problem)
    ensures WeeksInOrder(ps + [p]) == if WeekOf(p) in WeeksInOrder(ps) then WeeksInOrder(ps) else WeeksInOrder(ps) + [WeekOf(p)]
    ensures forall w :: EntriesOfWeek(ps + [p], w) == EntriesOfWeek(ps, w) + (if WeekOf(p) == w then [ToEntry(p)] else [])
  {
    assert (ps + [p])[..|ps|] == ps;
  }

  /** A week that no problem has yet has no entries. */
  lemma {:induction false} NoEntriesOfUnseenWeek(ps: seq<Problem>, week: int)
    requires week !in WeeksInOrder(ps)
    ensures EntriesOfWeek(ps, week) == []
  {
    if ps != [] {
      NoEntriesOfUnseenWeek(ps[..|ps| - 1], week);
    }
  }

  /** `toggleProblem` on one week's checkboxes: `copy[i] = !copy[i]`. */
  function FlipAt(checked: seq<bool>, i: int): (r: seq<bool>)
    ensures 0 <= i < |checked| ==>
      && |r| == |checked| && r[i] == !checked[i]
      && forall j :: 0 <= j < |checked| && j != i ==> r[j] == checked[j]
    ensures |checked| <= i ==> r == checked + seq(i - |checked|, _ => false) + [true]
    ensures i < 0 ==> r == checked
  {
    if i < 0 then checked
    else if i < |checked| then checked[i := !checked[i]]
    else checked + seq(i - |checked|, _ => false) + [true]
  }

  /**
   * `toggleProblem(weekIndex, probIndex)`: a copy of the weeks where only
   * the one checkbox of the one week flips. An index past the end extends the
   * copy as a JavaScript array assignment does; the holes read as false.
   */
  function ToggleProblem(weeks: seq<WeekGroup>, weekIndex: int, probIndex: int): (r: seq<WeekGroup>)
    ensures |r| == |weeks|
    ensures forall wi :: 0 <= wi < |weeks| && wi != weekIndex ==> r[wi] == weeks[wi]
    ensures 0 <= weekIndex < |weeks| ==>
      r[weekIndex] == weeks[weekIndex].(checked := FlipAt(weeks[weekIndex].checked, probIndex))
  {
    seq(|weeks|, wi requires 0 <= wi < |weeks| =>
      if wi != weekIndex then weeks[wi] else weeks[wi].(checked := FlipAt(weeks[wi].checked, probIndex)))
  }

  datatype Difficulty = Easy | Medium | Hard

  /** How the tallies classify a difficulty: anything but "Easy" and "Medium" counts as hard. */
  function Category(d: string): Difficulty {
    if d == "Easy" then Easy else if d == "Medium" then Medium else Hard
  }

  /** `week.checked[pi]` is truthy; a missing entry reads as false. */
  predicate IsChecked(w: WeekGroup, i: int) {
    0 <= i < |w.checked| && w.checked[i]
  }

  /** The first `n` problems of a week with the difficulty, counting only checked ones if asked. */
  function CountInWeek(w: WeekGroup, n: nat, c: Difficulty, onlyChecked: bool): nat
    requires n <= |w.problems|
  {
    if n == 0 then 0
    else
      var hit := Category(w.problems[n - 1].difficulty) == c && (!onlyChecked || IsChecked(w, n - 1));
      CountInWeek(w, n - 1, c, onlyChecked) + (if hit then 1 else 0)
  }

  /** The problems of all weeks with the difficulty, counting only checked ones if asked. */
  function Count(ws: seq<WeekGroup>, c: Difficulty, onlyChecked: bool): nat {
    if ws == [] then 0
    else Count(ws[..|ws| - 1], c, onlyChecked) + CountInWeek(ws[|ws| - 1], |ws[|ws| - 1].problems|, c, onlyChecked)
  }

  /** The number of problems over all weeks. */
  function ProblemCount(ws: seq<WeekGroup>): nat {
    if ws == [] then 0 else ProblemCount(ws[..|ws| - 1]) + |ws[|ws| - 1].problems|
  }

  lemma {:induction false} CountInWeekBounds(w: WeekGroup, n: nat, c: Difficulty)
    requires n <= |w.problems|
    ensures CountInWeek(w, n, c, true) <= CountInWeek(w, n, c, false)
    ensures CountInWeek(w, n, Easy, false) + CountInWeek(w, n, Medium, false) + CountInWeek(w, n, Hard, false) == n
  {
    if n > 0 {
      CountInWeekBounds(w, n - 1, c);
    }
  }

  /** Every problem is counted under exactly one difficulty. */
  lemma {:induction false} TalliesPartition(ws: seq<WeekGroup>)
    ensures Count(ws, Easy, false) + Count(ws, Medium, false) + Count(ws, Hard, false) == ProblemCount(ws)
    decreases |ws|
  {
    if ws != [] {
      TalliesPartition(ws[..|ws| - 1]);
      CountInWeekBounds(ws[|ws| - 1], |ws[|ws| - 1].problems|, Easy);
    }
  }

  /** A difficulty's solved count never exceeds its total. */
  lemma {:induction false} SolvedAtMostTotal(ws: seq<WeekGroup>, c: Difficulty)
    ensures Count(ws, c, true) <= Count(ws, c, false)
    decreases |ws|
  {
    if ws != [] {
      SolvedAtMostTotal(ws[..|ws| - 1], c);
      CountInWeekBounds(ws[|ws| - 1], |ws[|ws| - 1].problems|, c);
    }
  }

  datatype Tallies = Tallies(easyTotal: nat, mediumTotal: nat, hardTotal: nat,
                             easySolved: nat, mediumSolved: nat, hardSolved: nat)
  {
    function TotalProblems(): nat { easyTotal + mediumTotal + hardTotal }
    function TotalSolved(): nat { easySolved + mediumSolved + hardSolved }
  }

  /** The six counters of the progress bar, counted by a nested loop over the weeks. */
  method ComputeTallies(weeks: seq<WeekGroup>) returns (t: Tallies)
    ensures t.easyTotal == Count(weeks, Easy, false) && t.easySolved == Count(weeks, Easy, true)
    ensures t.mediumTotal == Count(weeks, Medium, false) && t.mediumSolved == Count(weeks, Medium, true)
    ensures t.hardTotal == Count(weeks, Hard, false) && t.hardSolved == Count(weeks, Hard, true)
    ensures t.TotalProblems() == ProblemCount(weeks)
    ensures t.easySolved <= t.easyTotal && t.mediumSolved <= t.mediumTotal && t.hardSolved <= t.hardTotal
    ensures t.TotalSolved() <= t.TotalProblems()
  {
    var easyTotal, mediumTotal, hardTotal := 0, 0, 0;
    var easySolved, mediumSolved, hardSolved := 0, 0, 0;
    var wi := 0;
    while wi < |weeks|
      invariant 0 <= wi <= |weeks|
      invariant easyTotal == Count(weeks[..wi], Easy, false) && easySolved == Count(weeks[..wi], Easy, true)
      invariant mediumTotal == Count(weeks[..wi], Medium, false) && mediumSolved == Count(weeks[..wi], Medium, true)
      invariant hardTotal == Count(weeks[..wi], Hard, false) && hardSolved == Count(weeks[..wi], Hard, true)
    {
      var week := weeks[wi];
      assert weeks[..wi + 1] == weeks[..wi] + [week];
      var pi := 0;
      while pi < |week.problems|
        invariant 0 <= pi <= |week.problems|
        invariant easyTotal == Count(weeks[..wi], Easy, false) + CountInWeek(week, pi, Easy, false)
        invariant easySolved == Count(weeks[..wi], Easy, true) + CountInWeek(week, pi, Easy, true)
        invariant mediumTotal == Count(weeks[..wi], Medium, false) + CountInWeek(week, pi, Medium, false)
        invariant mediumSolved == Count(weeks[..wi], Medium, true) + CountInWeek(week, pi, Medium, true)
        invariant hardTotal == Count(weeks[..wi], Hard, false) + CountInWeek(week, pi, Hard, false)
        invariant hardSolved == Count(weeks[..wi], Hard, true) + CountInWeek(week, pi, Hard, true)
      {
        var p := week.problems[pi];
        assert Category(p.difficulty) == Easy <==> p.difficulty == "Easy";
        assert Category(p.difficulty) == Medium <==> p.difficulty == "Medium";
        if p.difficulty == "Easy" {
          easyTotal := easyTotal + 1;
        } else if p.difficulty == "Medium" {
          mediumTotal := mediumTotal + 1;
        } else {
          hardTotal := hardTotal + 1;
        }
        if pi < |week.checked| && week.checked[pi] {
          if p.difficulty == "Easy" {
            easySolved := easySolved + 1;
          } else if p.difficulty == "Medium" {
            mediumSolved := mediumSolved + 1;
          } else {
            hardSolved := hardSolved + 1;
          }
        }
        pi := pi + 1;
      }
      wi := wi + 1;
    }
    assert weeks[..wi] == weeks;
    TalliesPartition(weeks);
    SolvedAtMostTotal(weeks, Easy);
    SolvedAtMostTotal(weeks, Medium);
    SolvedAtMostTotal(weeks, Hard);
    t := Tallies(easyTotal, mediumTotal, hardTotal, easySolved, mediumSolved, hardSolved);
  }

  /** A JavaScript number: finite, or NaN or an infinity. */
  datatype JsNumber = Finite(value: real) | NonFinite

  /** `Math.round`: the floor of x + 1/2. */
  function Round(x: real): int {
    (x + 0.5).Floor
  }

  /**
   * The width `Bar` draws: the rounded percent clamped to [0, 100], with 0
   * for a non-finite input; inside the range, the nearest whole percent.
   */
  function BarPercent(percent: JsNumber): (p: int)
    ensures 0 <= p <= 100
    ensures percent.NonFinite? ==> p == 0
    ensures percent.Finite? && 0.0 <= percent.value <= 100.0 ==>
      p as real - 0.5 <= percent.value < p as real + 0.5
    ensures percent.Finite? && percent.value < 0.0 ==> p == 0
    ensures percent.Finite? && percent.value >= 100.0 ==> p == 100
  {
    if percent.Finite? then Max(0, Min(100, Round(percent.value))) else 0
  }
}
