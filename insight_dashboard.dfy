/**
 * The insight dashboard's data shaping: the ten most asked questions for the bar chart, the
 * axis-label shortening, and the rows of the zero-hit table.
 */
module InsightDashboard {
  import opened Wrappers
  import opened Seqs

  /** One row of `/api/stats/questions`. */
  datatype QuestionStats = QuestionStats(
    question: string, count: int, zeroHitCount: int, zeroHitRate: int, lastAskedAt: string, createdAt: string)

  // ------------------------------------------------------------------ ranking

  /** Counts never increase along `s`. */
  ghost predicate ByCountDescending(s: seq<QuestionStats>) {
    forall i, j :: 0 <= i < j < |s| ==> s[i].count >= s[j].count
  }

  /** Puts `x` into a list sorted by descending count, before every entry that does not outrank it. */
  function InsertByCount(x: QuestionStats, sorted: seq<QuestionStats>): (r: seq<QuestionStats>)
    ensures |r| == |sorted| + 1
    ensures multiset(r) == multiset(sorted) + multiset{x}
  {
    if sorted == [] || sorted[0].count <= x.count then [x] + sorted
    else
      assert sorted == [sorted[0]] + sorted[1..];
      [sorted[0]] + InsertByCount(x, sorted[1..])
  }

  /** Inserting into a list sorted by descending count keeps it sorted. */
  lemma {:induction false} InsertByCountSorted(x: QuestionStats, sorted: seq<QuestionStats>)
    requires ByCountDescending(sorted)
    ensures ByCountDescending(InsertByCount(x, sorted))
  {
    if sorted != [] && sorted[0].count > x.count {
      var tail := sorted[1..];
      assert ByCountDescending(tail) by {
        forall i, j | 0 <= i < j < |tail| ensures tail[i].count >= tail[j].count {
          assert tail[i] == sorted[i + 1] && tail[j] == sorted[j + 1];
        }
      }
      InsertByCountSorted(x, tail);
      assert forall k :: 0 <= k < |tail| ==> tail[k].count <= sorted[0].count by {
        forall k | 0 <= k < |tail| ensures tail[k].count <= sorted[0].count {
          assert tail[k] == sorted[k + 1];
        }
      }
      InsertByCountBounded(x, tail, sorted[0].count);
      ConsByCount(sorted[0], InsertByCount(x, tail));
    }
  }

  /** Inserting an entry no higher than a bound into entries no higher than it gives entries no higher than it. */
  lemma {:induction false} InsertByCountBounded(x: QuestionStats, sorted: seq<QuestionStats>, bound: int)
    requires x.count <= bound
    requires forall k :: 0 <= k < |sorted| ==> sorted[k].count <= bound
    ensures forall k :: 0 <= k < |InsertByCount(x, sorted)| ==> InsertByCount(x, sorted)[k].count <= bound
  {
    if sorted != [] && sorted[0].count > x.count {
      var tail := sorted[1..];
      assert forall k :: 0 <= k < |tail| ==> tail[k] == sorted[k + 1];
      InsertByCountBounded(x, tail, bound);
      var r := InsertByCount(x, sorted);
      assert r == [sorted[0]] + InsertByCount(x, tail);
      assert forall k :: 0 < k < |r| ==> r[k] == InsertByCount(x, tail)[k - 1];
    }
  }

  /** An entry outranking every entry of a sorted list may head it. */
  lemma ConsByCount(h: QuestionStats, rest: seq<QuestionStats>)
    requires ByCountDescending(rest)
    requires forall k :: 0 <= k < |rest| ==> rest[k].count <= h.count
    ensures ByCountDescending([h] + rest)
  {
    var r := [h] + rest;
    forall i, j | 0 <= i < j < |r| ensures r[i].count >= r[j].count {
      assert r[j] == rest[j - 1];
      if i > 0 {
        assert r[i] == rest[i - 1];
      }
    }
  }

  /**
   * `[...questionStats].sort((a, b) => b.count - a.count)`: a sorted copy, descending by count,
   * with equal counts in their original order; the input list itself is a value and is not
   * reordered.
   */
  function SortByCount(s: seq<QuestionStats>): (r: seq<QuestionStats>)
    ensures |r| == |s|
    ensures multiset(r) == multiset(s)
    ensures ByCountDescending(r)
  {
    if s == [] then []
    else
      assert s == [s[0]] + s[1..];
      InsertByCountSorted(s[0], SortByCount(s[1..]));
      InsertByCount(s[0], SortByCount(s[1..]))
  }

  /** The number of bars: ten, or fewer when fewer questions exist. */
  function Shown(n: nat): nat {
    if n < 10 then n else 10
  }

  /** `sortedQuestions.slice(0, 10)`. */
  function Top10(s: seq<QuestionStats>): seq<QuestionStats> {
    SortByCount(s)[..Shown(|s|)]
  }

  /** The questions that did not make the chart. */
  function LeftOut(s: seq<QuestionStats>): seq<QuestionStats> {
    SortByCount(s)[Shown(|s|)..]
  }

  /**
   * The chart shows `min(10, n)` questions by descending count; together with the ones left out
   * they are exactly the input (a prefix of a permutation of it); and no question left out was
   * asked more often than any question shown.
   */
  lemma Top10Properties(s: seq<QuestionStats>)
    ensures |Top10(s)| == Shown(|s|)
    ensures ByCountDescending(Top10(s))
    ensures multiset(Top10(s)) + multiset(LeftOut(s)) == multiset(s)
    ensures forall i, j :: 0 <= i < |Top10(s)| && 0 <= j < |LeftOut(s)| ==> Top10(s)[i].count >= LeftOut(s)[j].count
  {
    var sorted := SortByCount(s);
    var n := Shown(|s|);
    assert sorted == sorted[..n] + sorted[n..];
    CutByCount(sorted, n);
  }

  /** Cutting a list sorted by descending count leaves a sorted head that outranks the tail. */
  lemma CutByCount(sorted: seq<QuestionStats>, n: nat)
    requires ByCountDescending(sorted) && n <= |sorted|
    ensures ByCountDescending(sorted[..n])
    ensures forall i, j :: 0 <= i < n && 0 <= j < |sorted| - n ==> sorted[..n][i].count >= sorted[n..][j].count
  {
    forall i, j | 0 <= i < n && 0 <= j < |sorted| - n
      ensures sorted[..n][i].count >= sorted[n..][j].count
    {
      assert sorted[n..][j] == sorted[n + j];
    }
  }

  /** Every shown question is one of the input's. */
  lemma Top10FromInput(s: seq<QuestionStats>)
    ensures forall k :: 0 <= k < |Top10(s)| ==> Top10(s)[k] in s
  {
    Top10Properties(s);
    forall k | 0 <= k < |Top10(s)|
      ensures Top10(s)[k] in s
    {
      assert Top10(s)[k] in multiset(Top10(s));
      assert Top10(s)[k] in multiset(s);
    }
  }

  /** The two series handed to the chart. */
  datatype ChartData = ChartData(questionNames: seq<string>, questionCounts: seq<int>)

  /** `top10Questions.map(q => q.question)` and `.map(q => q.count)`: bar `k` names and counts the same question. */
  function Series(top: seq<QuestionStats>): (c: ChartData)
    ensures |c.questionNames| == |top| && |c.questionCounts| == |top|
    ensures forall k :: 0 <= k < |top| ==> c.questionNames[k] == top[k].question && c.questionCounts[k] == top[k].count
  {
    if top == [] then ChartData([], [])
    else
      var rest := Series(top[1..]);
      ChartData([top[0].question] + rest.questionNames, [top[0].count] + rest.questionCounts)
  }

  /** `renderTopQuestionsChart`: nothing while the data is loading, otherwise the top ten's series. */
  function TopQuestionsChart(loading: bool, questionStats: seq<QuestionStats>): (c: Option<ChartData>)
    ensures loading <==> c.None?
    ensures c.Some? ==> |c.value.questionCounts| == Shown(|questionStats|)
  {
    if loading then None
    else
      Top10Properties(questionStats);
      Some(Series(Top10(questionStats)))
  }

  /** The bar heights of a rendered chart never increase from left to right. */
  lemma ChartCountsDescending(questionStats: seq<QuestionStats>)
    ensures var c := TopQuestionsChart(false, questionStats).value;
      forall i, j :: 0 <= i < j < |c.questionCounts| ==> c.questionCounts[i] >= c.questionCounts[j]
  {
    Top10Properties(questionStats);
  }

  // ------------------------------------------------------------------ labels and the table

  /** The axis-label formatter: at most 15 characters are kept, a cut label ends in `...`. */
  function TruncateLabel(value: string): (r: string)
    ensures |value| <= 15 ==> r == value
    ensures |value| > 15 ==> |r| == 18 && r[..15] == value[..15] && r[15..] == "..."
  {
    if |value| > 15 then value[..15] + "..." else value
  }

  /** Shortening a shortened label changes nothing. */
  lemma TruncateLabelIdempotent(value: string)
    ensures TruncateLabel(TruncateLabel(value)) == TruncateLabel(value)
  {
    if |value| > 15 {
      var r := TruncateLabel(value);
      assert r[..15] + "..." == r;
    }
  }

  function HasZeroHits(q: QuestionStats): bool {
    q.zeroHitCount > 0
  }

  /** `questionStats.filter(q => q.zeroHitCount > 0)`. */
  function ZeroHitRows(questionStats: seq<QuestionStats>): seq<QuestionStats> {
    Filter(questionStats, HasZeroHits)
  }

  /** The zero-hit table lists exactly the questions with a zero hit, in their original order. */
  lemma ZeroHitRowsExact(questionStats: seq<QuestionStats>, q: QuestionStats)
    ensures q in ZeroHitRows(questionStats) <==> q in questionStats && q.zeroHitCount > 0
    ensures IsSubsequence(ZeroHitRows(questionStats), questionStats)
  {
    FilterIsSubsequence(questionStats, HasZeroHits);
    if q in questionStats && q.zeroHitCount > 0 {
      var k :| 0 <= k < |questionStats| && questionStats[k] == q;
      assert HasZeroHits(questionStats[k]);
    }
  }
}
