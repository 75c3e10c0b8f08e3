/** How the advice table is shown: an icon per row, the first `maxRecs`
    rows as cards, and the remaining rows behind a "show more" expander. */
module Display {
  import opened Wrappers
  import opened Sequences
  import R = Recommendations
  import C = Categorizer

  datatype Icon = Fire | Warning | Check

  /** The icon for a share `pct` in a table of `count` rows. */
  function IconFor(pct: real, count: nat): Icon
    requires count > 0
  {
    if pct > 30.0 then Fire
    else if pct > R.MeanShare(count) then Warning
    else Check
  }

  /** The icon tests the same thresholds as the tier. */
  lemma IconMatchesTier(pct: real, total: real, count: nat)
    requires count > 0
    ensures IconFor(pct, count) == Fire <==> R.TierFor(pct, total, count).HighBurn?
    ensures IconFor(pct, count) == Warning <==> R.TierFor(pct, total, count).AboveAverage?
    ensures IconFor(pct, count) == Check <==> R.TierFor(pct, total, count).WellControlled?
  {
  }

  /** Where pandas' `head(n)` stops and `iloc[n:]` starts: the first `n` rows
      when `n` is not negative, all but the last `-n` rows when it is. */
  function Cut(length: nat, n: int): (k: nat)
    ensures k <= length
  {
    if n >= 0 then (if n < length then n else length)
    else if length + n > 0 then length + n
    else 0
  }

  /** `head(n)`. */
  function Head<T>(s: seq<T>, n: int): (r: seq<T>)
    ensures |r| <= |s| && r == s[..|r|]
    ensures n >= 0 ==> |r| == if |s| < n then |s| else n
    ensures n < 0 ==> |r| == if |s| + n < 0 then 0 else |s| + n
  {
    s[..Cut(|s|, n)]
  }

  /** `iloc[n:]`. */
  function From<T>(s: seq<T>, n: int): (r: seq<T>)
    ensures |r| <= |s| && r == s[|s| - |r|..]
    ensures n >= 0 ==> |r| == if |s| < n then 0 else |s| - n
    ensures n < 0 ==> |r| == if |s| + n < 0 then |s| else -n
  {
    s[Cut(|s|, n)..]
  }

  /** The shown rows and the rows behind the expander are the whole table,
      in order, with nothing repeated and nothing lost. */
  lemma HeadThenFrom<T>(s: seq<T>, n: int)
    ensures Head(s, n) + From(s, n) == s
  {
  }

  /** The expander has rows to show exactly when the table is longer than
      `n`, which is the test the page uses to show it. */
  lemma MoreExactlyWhenLonger<T>(s: seq<T>, n: int)
    requires |s| > 0
    ensures From(s, n) != [] <==> |s| > n
  {
  }

  datatype Card = Card(icon: Icon, advice: R.Recommendation)

  function Cards(xs: seq<R.Recommendation>, count: nat): (cards: seq<Card>)
    requires count > 0
    ensures |cards| == |xs|
    ensures forall i :: 0 <= i < |xs| ==> cards[i] == Card(IconFor(xs[i].pct, count), xs[i])
  {
    if |xs| == 0 then []
    else [Card(IconFor(xs[0].pct, count), xs[0])] + Cards(xs[1..], count)
  }

  /** What the advice section shows. */
  datatype Panel =
    | NoDiscretionarySpending
    | Insights(top: seq<Card>, more: Option<seq<Card>>)

  /** Lays out a nonempty table: the first `maxRecs` rows as cards and, when
      the table is longer, the rest behind an expander. Icons are chosen
      against the number of rows in the table. */
  function Layout(recs: seq<R.Recommendation>, maxRecs: int): (p: Panel)
    requires recs != []
    ensures p.Insights?
    ensures p.more.Some? <==> |recs| > maxRecs
    ensures p.more.Some? ==> p.more.value != []
  {
    MoreExactlyWhenLonger(recs, maxRecs);
    var top := Cards(Head(recs, maxRecs), |recs|);
    if |recs| > maxRecs then Insights(top, Some(Cards(From(recs, maxRecs), |recs|)))
    else Insights(top, None)
  }

  /** The advice section: a notice when there is no discretionary spending,
      otherwise the laid-out table. */
  function ShowRecommendations(rows: seq<C.Categorized>, maxRecs: int): (p: Panel)
    ensures p.NoDiscretionarySpending? <==> R.Discretionary(rows) == []
  {
    var recs := R.CategoryRecommendations(rows);
    if recs == [] then NoDiscretionarySpending else Layout(recs, maxRecs)
  }

  function AdviceOf(c: Card): R.Recommendation {
    c.advice
  }

  /** All cards of the panel. */
  function AllCards(p: Panel): seq<Card> {
    match p
    case NoDiscretionarySpending => []
    case Insights(top, more) => top + more.GetOr([])
  }

  /** Every row of the table appears on exactly one card, in table order,
      with the icon its share earns. */
  lemma LayoutShowsEveryRowOnce(recs: seq<R.Recommendation>, maxRecs: int)
    requires recs != []
    ensures |AllCards(Layout(recs, maxRecs))| == |recs|
    ensures forall i :: 0 <= i < |recs| ==>
      AllCards(Layout(recs, maxRecs))[i] == Card(IconFor(recs[i].pct, |recs|), recs[i])
  {
    var all := AllCards(Layout(recs, maxRecs));
    var top := Head(recs, maxRecs);
    HeadThenFrom(recs, maxRecs);
    if |recs| <= maxRecs {
      assert From(recs, maxRecs) == [];
    }
    forall i | 0 <= i < |recs|
      ensures all[i] == Card(IconFor(recs[i].pct, |recs|), recs[i])
    {
      if i >= |top| {
        assert recs[i] == From(recs, maxRecs)[i - |top|];
      }
    }
  }

  /** Every row of the advice table appears on exactly one card, in table
      order. */
  lemma EveryRowOnce(rows: seq<C.Categorized>, maxRecs: int)
    ensures Map(AdviceOf, AllCards(ShowRecommendations(rows, maxRecs))) == R.CategoryRecommendations(rows)
  {
    var recs := R.CategoryRecommendations(rows);
    if recs != [] {
      LayoutShowsEveryRowOnce(recs, maxRecs);
    }
  }

  /** A card's icon is the tier of its row: fire for high-burn, warning for
      above-average, a check mark for well-controlled. The page recounts the
      table when choosing icons, and the count it gets is the number of
      categories the tiers were chosen against. */
  lemma IconShowsTier(rows: seq<C.Categorized>, maxRecs: int, card: Card)
    requires card in AllCards(ShowRecommendations(rows, maxRecs))
    ensures card.icon == Fire <==> card.advice.tier.HighBurn?
    ensures card.icon == Warning <==> card.advice.tier.AboveAverage?
    ensures card.icon == Check <==> card.advice.tier.WellControlled?
  {
    var recs := R.CategoryRecommendations(rows);
    LayoutShowsEveryRowOnce(recs, maxRecs);
    var all := AllCards(Layout(recs, maxRecs));
    var k :| 0 <= k < |all| && all[k] == card;
    R.RowShare(rows, k);
    assert card == Card(IconFor(recs[k].pct, |recs|), recs[k]);
    IconMatchesTier(recs[k].pct, recs[k].total, |recs|);
  }

  /** In a table sorted by total, largest first, no row behind the expander
      spent more than a row shown up front. */
  lemma LayoutShowsLargestFirst(recs: seq<R.Recommendation>, maxRecs: int, i: int, j: int)
    requires recs != [] && Sorted(recs, R.ByTotalDescending)
    requires 0 <= i < |Layout(recs, maxRecs).top|
    requires Layout(recs, maxRecs).more.Some?
    requires 0 <= j < |Layout(recs, maxRecs).more.value|
    ensures Layout(recs, maxRecs).top[i].advice.total >= Layout(recs, maxRecs).more.value[j].advice.total
  {
    var top, rest := Head(recs, maxRecs), From(recs, maxRecs);
    HeadThenFrom(recs, maxRecs);
    assert Layout(recs, maxRecs).top[i].advice == top[i] == recs[i];
    assert Layout(recs, maxRecs).more.value[j].advice == rest[j] == recs[|top| + j];
    assert R.ByTotalDescending(recs[i], recs[|top| + j]);
  }

  /** No category behind the expander spent more than a category shown up
      front. */
  lemma ShownFirstSpentMost(rows: seq<C.Categorized>, maxRecs: int, i: int, j: int)
    requires ShowRecommendations(rows, maxRecs).Insights?
    requires 0 <= i < |ShowRecommendations(rows, maxRecs).top|
    requires ShowRecommendations(rows, maxRecs).more.Some?
    requires 0 <= j < |ShowRecommendations(rows, maxRecs).more.value|
    ensures ShowRecommendations(rows, maxRecs).top[i].advice.total
         >= ShowRecommendations(rows, maxRecs).more.value[j].advice.total
  {
    LayoutShowsLargestFirst(R.CategoryRecommendations(rows), maxRecs, i, j);
  }

  /** When every row carries one of the categorizer's labels, every card
      advises on a category that is never essential. */
  lemma CardsOnDiscretionaryLabels(rows: seq<C.Categorized>, maxRecs: int, card: Card)
    requires forall k :: 0 <= k < |rows| ==> rows[k].category in C.Labels
    requires card in AllCards(ShowRecommendations(rows, maxRecs))
    ensures card.advice.category in R.DiscretionaryLabels
  {
    var recs := R.CategoryRecommendations(rows);
    LayoutShowsEveryRowOnce(recs, maxRecs);
    var all := AllCards(Layout(recs, maxRecs));
    var k :| 0 <= k < |all| && all[k] == card;
    R.DiscretionaryCategories(rows, k);
  }
}
