/** Per-category advice on discretionary spending: which rows count as
    discretionary, their totals per category, each category's share, the
    advice tier that share earns, and how the advice is paged on screen. */
module Recommendations {
  import opened Wrappers
  import opened Sequences
  import Ledger
  import C = Categorizer

  /** Categories the advice leaves alone. */
  const Essential: set<string> := {
    C.Transfers, C.Loans, C.Fees, C.Utilities, C.Salary, C.Insurance,
    C.Payments, C.Miscellaneous
  }

  function Spend(c: C.Categorized): real {
    c.txn.withdrawal
  }

  /** A dated withdrawal in a category that is not essential. */
  predicate IsDiscretionary(c: C.Categorized) {
    c.txn.date.Some? && c.category !in Essential && c.txn.withdrawal > 0.0
  }

  function Discretionary(rows: seq<C.Categorized>): seq<C.Categorized> {
    Filter(IsDiscretionary, rows)
  }

  function InCategory(category: string): C.Categorized -> bool {
    (c: C.Categorized) => c.category == category
  }

  function OutsideCategory(category: string): C.Categorized -> bool {
    (c: C.Categorized) => c.category != category
  }

  predicate HasCategory(rows: seq<C.Categorized>, category: string) {
    exists j :: 0 <= j < |rows| && rows[j].category == category
  }

  /** One category and the sum of its rows' withdrawals. */
  datatype Group = Group(category: string, total: real)

  function TotalOf(g: Group): real {
    g.total
  }

  /** Rows of other categories keep every group total other than `category`'s. */
  lemma OtherCategoryTotal(rows: seq<C.Categorized>, category: string, other: string)
    requires other != category
    ensures Filter(InCategory(other), Filter(OutsideCategory(category), rows))
         == Filter(InCategory(other), rows)
  {
    FilterFilter(InCategory(other), OutsideCategory(category), InCategory(other), rows);
  }

  /** Taking out the rows of the first row's category leaves fewer rows, none of
      that category. */
  lemma RestShrinks(rows: seq<C.Categorized>)
    requires |rows| > 0
    ensures |Filter(OutsideCategory(rows[0].category), rows)| < |rows|
  {
    var category := rows[0].category;
    FilterSplitsCount(OutsideCategory(category), InCategory(category), rows);
    FilterMember(InCategory(category), rows, rows[0]);
  }

  /** The categories of the rows, each once, in order of its first row. */
  function Categories(rows: seq<C.Categorized>): (r: seq<string>)
    ensures |r| <= |rows|
    ensures forall i :: 0 <= i < |r| ==> HasCategory(rows, r[i])
    decreases |rows|
  {
    if |rows| == 0 then []
    else
      var category := rows[0].category;
      var rest := Filter(OutsideCategory(category), rows);
      RestShrinks(rows);
      var others := Categories(rest);
      forall i | 0 <= i < |others|
        ensures HasCategory(rows, others[i])
      {
        RestCategories(rows, others[i]);
      }
      assert rows[0].category == category;
      [category] + others
  }

  /** Categories of the rows left once the first row's category is taken out. */
  lemma RestCategories(rows: seq<C.Categorized>, other: string)
    requires |rows| > 0
    requires HasCategory(Filter(OutsideCategory(rows[0].category), rows), other)
    ensures other != rows[0].category
    ensures HasCategory(rows, other)
  {
    var rest := Filter(OutsideCategory(rows[0].category), rows);
    var j :| 0 <= j < |rest| && rest[j].category == other;
    FilterMember(OutsideCategory(rows[0].category), rows, rest[j]);
    var k :| 0 <= k < |rows| && rows[k] == rest[j];
  }

  /** Every category some row has is listed. */
  lemma {:induction false} CategoriesCover(rows: seq<C.Categorized>)
    ensures forall j :: 0 <= j < |rows| ==> rows[j].category in Categories(rows)
    decreases |rows|
  {
    if |rows| > 0 {
      var category := rows[0].category;
      var rest := Filter(OutsideCategory(category), rows);
      RestShrinks(rows);
      CategoriesCover(rest);
      assert Categories(rows) == [category] + Categories(rest);
      forall j | 0 <= j < |rows|
        ensures rows[j].category in Categories(rows)
      {
        if rows[j].category != category {
          FilterMember(OutsideCategory(category), rows, rows[j]);
          var k :| 0 <= k < |rest| && rest[k] == rows[j];
        }
      }
    }
  }

  /** No category is listed twice. */
  lemma {:induction false} CategoriesDistinct(rows: seq<C.Categorized>)
    ensures NoDuplicates(Categories(rows))
    decreases |rows|
  {
    if |rows| > 0 {
      var category := rows[0].category;
      var rest := Filter(OutsideCategory(category), rows);
      RestShrinks(rows);
      CategoriesDistinct(rest);
      var others := Categories(rest);
      forall i | 0 <= i < |others|
        ensures others[i] != category
      {
        RestCategories(rows, others[i]);
      }
      NoDuplicatesCons(category, others);
    }
  }

  /** The withdrawals of the rows of one category. */
  function CategoryTotal(rows: seq<C.Categorized>, category: string): real {
    SumOf(Filter(InCategory(category), rows), Spend)
  }

  /** `groupby(category).sum()`: one group per category, in the order of
      `Categories`, holding the withdrawals of that category's rows. */
  function GroupTotals(rows: seq<C.Categorized>): (r: seq<Group>)
    ensures |r| == |Categories(rows)|
    ensures forall i :: 0 <= i < |r| ==> r[i].category == Categories(rows)[i]
    ensures forall i :: 0 <= i < |r| ==> r[i].total == CategoryTotal(rows, r[i].category)
  {
    var categories := Categories(rows);
    seq(|categories|, i requires 0 <= i < |categories| => Group(categories[i], CategoryTotal(rows, categories[i])))
  }

  /** The group totals add up to the withdrawals of all the rows. */
  lemma {:induction false} GroupTotalsPartition(rows: seq<C.Categorized>)
    ensures SumOf(GroupTotals(rows), TotalOf) == SumOf(rows, Spend)
    decreases |rows|
  {
    if |rows| > 0 {
      var category := rows[0].category;
      var rest := Filter(OutsideCategory(category), rows);
      RestShrinks(rows);
      GroupTotalsPartition(rest);
      GroupTotalsHead(rows);
      GroupTotalsTail(rows);
      FilterSplitsSum(InCategory(category), OutsideCategory(category), rows, Spend);
    }
  }

  /** The first group is the first row's category. */
  lemma GroupTotalsHead(rows: seq<C.Categorized>)
    requires |rows| > 0
    ensures GroupTotals(rows)[0].total == CategoryTotal(rows, rows[0].category)
  {
  }

  /** Past the first row's group, the groups of all the rows have the same
      totals as the groups of the rows outside that category. */
  lemma GroupTotalsTail(rows: seq<C.Categorized>)
    requires |rows| > 0
    ensures SumOf(GroupTotals(rows)[1..], TotalOf)
         == SumOf(GroupTotals(Filter(OutsideCategory(rows[0].category), rows)), TotalOf)
  {
    var rest := Filter(OutsideCategory(rows[0].category), rows);
    var groups, restGroups := GroupTotals(rows), GroupTotals(rest);
    GroupTotalsLength(rows);
    var tail := groups[1..];
    forall i | 0 <= i < |restGroups|
      ensures TotalOf(tail[i]) == TotalOf(restGroups[i])
    {
      TailGroup(rows, i);
      assert tail[i] == groups[i + 1];
    }
    SumOfSameMeasure(tail, restGroups, TotalOf);
  }

  lemma GroupTotalsLength(rows: seq<C.Categorized>)
    requires |rows| > 0
    ensures |GroupTotals(rows)| == |GroupTotals(Filter(OutsideCategory(rows[0].category), rows))| + 1
  {
  }

  lemma TailGroup(rows: seq<C.Categorized>, i: int)
    requires |rows| > 0
    requires 0 <= i < |GroupTotals(Filter(OutsideCategory(rows[0].category), rows))|
    ensures |GroupTotals(rows)| == |GroupTotals(Filter(OutsideCategory(rows[0].category), rows))| + 1
    ensures GroupTotals(rows)[i + 1].total == GroupTotals(Filter(OutsideCategory(rows[0].category), rows))[i].total
  {
    var category := rows[0].category;
    var rest := Filter(OutsideCategory(category), rows);
    var others := Categories(rest);
    CategoriesCons(rows);
    var other := others[i];
    GroupTotalsAt(rows, i + 1);
    GroupTotalsAt(rest, i);
    RestCategories(rows, other);
    OtherCategoryTotal(rows, category, other);
  }

  /** The first row's category comes first, then the categories of the rows
      outside it. */
  lemma CategoriesCons(rows: seq<C.Categorized>)
    requires |rows| > 0
    ensures Categories(rows) == [rows[0].category] + Categories(Filter(OutsideCategory(rows[0].category), rows))
  {
  }

  /** The group at position `i` totals the rows of the `i`-th category. */
  lemma GroupTotalsAt(rows: seq<C.Categorized>, i: int)
    requires 0 <= i < |Categories(rows)|
    ensures GroupTotals(rows)[i].total == CategoryTotal(rows, Categories(rows)[i])
  {
  }

  /** A category some row has totals more than zero when every row withdraws
      more than zero. */
  lemma CategoryTotalPositive(rows: seq<C.Categorized>, category: string)
    requires forall j :: 0 <= j < |rows| ==> Spend(rows[j]) > 0.0
    requires HasCategory(rows, category)
    ensures CategoryTotal(rows, category) > 0.0
  {
    var kept := Filter(InCategory(category), rows);
    var j :| 0 <= j < |rows| && rows[j].category == category;
    FilterMember(InCategory(category), rows, rows[j]);
    forall k | 0 <= k < |kept|
      ensures Spend(kept[k]) > 0.0
    {
      FilterMember(InCategory(category), rows, kept[k]);
    }
    SumOfPositive(kept, Spend);
  }

  /** Advice tiers: more than 30% of discretionary spending; more than the
      average share, with a cap 10% below the current total; or neither. */
  datatype Tier = HighBurn | AboveAverage(cap: real) | WellControlled

  /** One row of the advice table. */
  datatype Recommendation = Recommendation(category: string, total: real, pct: real, tier: Tier)

  function TotalSpend(r: Recommendation): real {
    r.total
  }

  function PctOf(r: Recommendation): real {
    r.pct
  }

  /** `total` as a percentage of `grand`. */
  function Share(total: real, grand: real): real
    requires grand > 0.0
  {
    total / grand * 100.0
  }

  /** The average share of `count` categories. */
  function MeanShare(count: nat): real
    requires count > 0
  {
    100.0 / (count as real)
  }

  /** The tier for a share `pct` of a total `total` among `count` categories. */
  function TierFor(pct: real, total: real, count: nat): (t: Tier)
    requires count > 0
    ensures t.HighBurn? <==> pct > 30.0
    ensures t.AboveAverage? <==> pct <= 30.0 && pct > MeanShare(count)
    ensures t.AboveAverage? ==> t.cap * 10.0 == total * 9.0
  {
    if pct > 30.0 then HighBurn
    else if pct > MeanShare(count) then AboveAverage(total * 0.9)
    else WellControlled
  }

  function Recommend(g: Group, grand: real, count: nat): (r: Recommendation)
    requires grand > 0.0 && count > 0
  {
    var pct := Share(g.total, grand);
    Recommendation(g.category, g.total, pct, TierFor(pct, g.total, count))
  }

  /** Advice for every group, in group order. */
  function Advise(groups: seq<Group>, grand: real, count: nat): (r: seq<Recommendation>)
    requires grand > 0.0 && count > 0
    ensures |r| == |groups|
    ensures forall k :: 0 <= k < |groups| ==> r[k] == Recommend(groups[k], grand, count)
  {
    if |groups| == 0 then []
    else [Recommend(groups[0], grand, count)] + Advise(groups[1..], grand, count)
  }

  /** Largest total first. */
  predicate ByTotalDescending(a: Recommendation, b: Recommendation) {
    a.total >= b.total
  }

  lemma ByTotalDescendingIsTotalPreorder()
    ensures TotalPreorder(ByTotalDescending)
  {
  }

  /** The discretionary rows' groups are nonempty with a positive total. */
  lemma SomeDiscretionarySpending(rows: seq<C.Categorized>)
    requires Discretionary(rows) != []
    ensures |DiscretionaryGroups(rows)| > 0
    ensures DiscretionaryTotal(rows) > 0.0
  {
    var disc := Discretionary(rows);
    forall j | 0 <= j < |disc|
      ensures Spend(disc[j]) > 0.0
    {
      FilterMember(IsDiscretionary, rows, disc[j]);
    }
    SumOfPositive(disc, Spend);
    GroupTotalsPartition(disc);
  }

  /** The groups of the discretionary rows and their overall total. */
  function DiscretionaryGroups(rows: seq<C.Categorized>): seq<Group> {
    GroupTotals(Discretionary(rows))
  }

  function DiscretionaryTotal(rows: seq<C.Categorized>): real {
    SumOf(DiscretionaryGroups(rows), TotalOf)
  }

  /** The advice table: one row per discretionary category with its total,
      its share of all discretionary spending and its tier, largest total
      first; empty when there is no discretionary spending. */
  function CategoryRecommendations(rows: seq<C.Categorized>): (r: seq<Recommendation>)
    ensures |r| == 0 <==> Discretionary(rows) == []
    ensures |r| == |Categories(Discretionary(rows))|
    ensures Sorted(r, ByTotalDescending)
  {
    var disc := Discretionary(rows);
    if disc == [] then []
    else
      var groups := DiscretionaryGroups(rows);
      SomeDiscretionarySpending(rows);
      ByTotalDescendingIsTotalPreorder();
      SortBy(Advise(groups, DiscretionaryTotal(rows), |groups|), ByTotalDescending)
  }

  /** The advice table before sorting. */
  function Unsorted(rows: seq<C.Categorized>): seq<Recommendation>
    requires Discretionary(rows) != []
  {
    SomeDiscretionarySpending(rows);
    var groups := DiscretionaryGroups(rows);
    Advise(groups, DiscretionaryTotal(rows), |groups|)
  }

  /** Sorting only reorders the table. */
  lemma SortedFromUnsorted(rows: seq<C.Categorized>)
    requires Discretionary(rows) != []
    ensures multiset(CategoryRecommendations(rows)) == multiset(Unsorted(rows))
  {
  }

  /** Each row of the advice table comes from one discretionary group. */
  lemma RowFromGroup(rows: seq<C.Categorized>, i: int) returns (k: int)
    requires 0 <= i < |CategoryRecommendations(rows)|
    ensures Discretionary(rows) != []
    ensures 0 <= k < |DiscretionaryGroups(rows)|
    ensures CategoryRecommendations(rows)[i] == Unsorted(rows)[k]
  {
    var r := CategoryRecommendations(rows);
    SortedFromUnsorted(rows);
    assert r[i] in multiset(Unsorted(rows));
    k :| 0 <= k < |Unsorted(rows)| && Unsorted(rows)[k] == r[i];
  }

  /** Each row of the advice table is a discretionary category with the
      positive sum of that category's discretionary withdrawals. */
  lemma RowTotal(rows: seq<C.Categorized>, i: int)
    requires 0 <= i < |CategoryRecommendations(rows)|
    ensures HasCategory(Discretionary(rows), CategoryRecommendations(rows)[i].category)
    ensures CategoryRecommendations(rows)[i].total
         == CategoryTotal(Discretionary(rows), CategoryRecommendations(rows)[i].category)
    ensures 0.0 < CategoryRecommendations(rows)[i].total <= DiscretionaryTotal(rows)
  {
    var k := RowFromGroup(rows, i);
    var disc := Discretionary(rows);
    var groups := DiscretionaryGroups(rows);
    var category := Categories(disc)[k];
    assert groups[k] == Group(category, CategoryTotal(disc, category));
    forall j | 0 <= j < |disc|
      ensures Spend(disc[j]) > 0.0
    {
      FilterMember(IsDiscretionary, rows, disc[j]);
    }
    forall m | 0 <= m < |groups|
      ensures TotalOf(groups[m]) > 0.0
    {
      CategoryTotalPositive(disc, Categories(disc)[m]);
    }
    SumOfAtLeastTerm(groups, TotalOf, k);
  }

  /** Each row's share is its total over the discretionary total, between 0
      and 100 percent, and its tier is the one that share earns among all
      the table's categories. */
  lemma RowShare(rows: seq<C.Categorized>, i: int)
    requires 0 <= i < |CategoryRecommendations(rows)|
    ensures DiscretionaryTotal(rows) > 0.0
    ensures CategoryRecommendations(rows)[i].pct
         == Share(CategoryRecommendations(rows)[i].total, DiscretionaryTotal(rows))
    ensures 0.0 < CategoryRecommendations(rows)[i].pct <= 100.0
    ensures CategoryRecommendations(rows)[i].tier == TierFor(
              CategoryRecommendations(rows)[i].pct,
              CategoryRecommendations(rows)[i].total,
              |CategoryRecommendations(rows)|)
  {
    var k := RowFromGroup(rows, i);
    RowTotal(rows, i);
    var t := CategoryRecommendations(rows)[i].total;
    ShareBounds(t, DiscretionaryTotal(rows));
  }

  lemma ShareBounds(total: real, grand: real)
    requires 0.0 < total <= grand
    ensures 0.0 < Share(total, grand) <= 100.0
  {
  }

  /** The table lists `category`. */
  predicate Lists(r: seq<Recommendation>, category: string) {
    exists i :: 0 <= i < |r| && r[i].category == category
  }

  /** The table lists exactly the categories of the discretionary rows. */
  lemma TableCategories(rows: seq<C.Categorized>, category: string)
    ensures Lists(CategoryRecommendations(rows), category) <==> HasCategory(Discretionary(rows), category)
  {
    var r := CategoryRecommendations(rows);
    var disc := Discretionary(rows);
    if Lists(r, category) {
      var i :| 0 <= i < |r| && r[i].category == category;
      RowTotal(rows, i);
    }
    if HasCategory(disc, category) {
      CategoriesCover(disc);
      var j :| 0 <= j < |disc| && disc[j].category == category;
      var k :| 0 <= k < |Categories(disc)| && Categories(disc)[k] == category;
      var unsorted := Unsorted(rows);
      assert unsorted[k].category == category;
      SortedFromUnsorted(rows);
      assert unsorted[k] in multiset(r);
      var i :| 0 <= i < |r| && r[i] == unsorted[k];
    }
  }

  function CategoryOf(r: Recommendation): string {
    r.category
  }

  /** No category is listed twice. */
  lemma TableDistinct(rows: seq<C.Categorized>)
    ensures forall i, j :: 0 <= i < j < |CategoryRecommendations(rows)| ==>
      CategoryRecommendations(rows)[i].category != CategoryRecommendations(rows)[j].category
  {
    var r := CategoryRecommendations(rows);
    if Discretionary(rows) != [] {
      var unsorted := Unsorted(rows);
      UnsortedCategories(rows);
      SortedFromUnsorted(rows);
      MapPermutation(CategoryOf, unsorted, r);
      PermutationNoDuplicates(Map(CategoryOf, unsorted), Map(CategoryOf, r));
      var names := Map(CategoryOf, r);
      forall i, j | 0 <= i < j < |r|
        ensures r[i].category != r[j].category
      {
        assert names[i] != names[j];
      }
    }
  }

  /** Before sorting, the table lists the categories in group order. */
  lemma UnsortedCategories(rows: seq<C.Categorized>)
    requires Discretionary(rows) != []
    ensures NoDuplicates(Map(CategoryOf, Unsorted(rows)))
  {
    var disc := Discretionary(rows);
    assert Map(CategoryOf, Unsorted(rows)) == Categories(disc);
    CategoriesDistinct(disc);
  }

  lemma ShareOfSum(a: real, b: real, grand: real)
    requires grand > 0.0
    ensures Share(a, grand) + Share(b, grand) == Share(a + b, grand)
  {
  }

  lemma ShareOfWhole(grand: real)
    requires grand > 0.0
    ensures Share(grand, grand) == 100.0
  {
  }

  /** The shares of the groups add up to the share of their total. */
  lemma {:induction false} AdviseShares(groups: seq<Group>, grand: real, count: nat)
    requires grand > 0.0 && count > 0
    ensures SumOf(Advise(groups, grand, count), PctOf) == Share(SumOf(groups, TotalOf), grand)
    decreases |groups|
  {
    if |groups| > 0 {
      AdviseShares(groups[1..], grand, count);
      ShareOfSum(groups[0].total, SumOf(groups[1..], TotalOf), grand);
    }
  }

  /** The advice rows carry the groups' totals. */
  lemma {:induction false} AdviseTotals(groups: seq<Group>, grand: real, count: nat)
    requires grand > 0.0 && count > 0
    ensures SumOf(Advise(groups, grand, count), TotalSpend) == SumOf(groups, TotalOf)
    decreases |groups|
  {
    if |groups| > 0 {
      AdviseTotals(groups[1..], grand, count);
    }
  }

  /** The shares in a nonempty table add up to 100 percent. */
  lemma SharesSumTo100(rows: seq<C.Categorized>)
    requires CategoryRecommendations(rows) != []
    ensures SumOf(CategoryRecommendations(rows), PctOf) == 100.0
  {
    SomeDiscretionarySpending(rows);
    var groups := DiscretionaryGroups(rows);
    var grand := DiscretionaryTotal(rows);
    SortedFromUnsorted(rows);
    SumOfPermutation(CategoryRecommendations(rows), Unsorted(rows), PctOf);
    AdviseShares(groups, grand, |groups|);
    ShareOfWhole(grand);
  }

  /** The table's totals add up to all discretionary withdrawals. */
  lemma TableTotal(rows: seq<C.Categorized>)
    ensures SumOf(CategoryRecommendations(rows), TotalSpend) == SumOf(Discretionary(rows), Spend)
  {
    if Discretionary(rows) != [] {
      SomeDiscretionarySpending(rows);
      var groups := DiscretionaryGroups(rows);
      SortedFromUnsorted(rows);
      SumOfPermutation(CategoryRecommendations(rows), Unsorted(rows), TotalSpend);
      AdviseTotals(groups, DiscretionaryTotal(rows), |groups|);
      GroupTotalsPartition(Discretionary(rows));
    }
  }

  /** The average-share threshold is the mean of the table's shares. */
  lemma ThresholdIsMeanShare(rows: seq<C.Categorized>)
    requires CategoryRecommendations(rows) != []
    ensures SumOf(CategoryRecommendations(rows), PctOf) / (|CategoryRecommendations(rows)| as real)
         == MeanShare(|CategoryRecommendations(rows)|)
  {
    SharesSumTo100(rows);
  }

  /** A single discretionary category takes all the spending and is high-burn. */
  lemma SingleCategory(rows: seq<C.Categorized>)
    requires |CategoryRecommendations(rows)| == 1
    ensures CategoryRecommendations(rows)[0].pct == 100.0
    ensures CategoryRecommendations(rows)[0].tier.HighBurn?
  {
    var r := CategoryRecommendations(rows);
    SharesSumTo100(rows);
    assert SumOf(r, PctOf) == r[0].pct + SumOf(r[1..], PctOf);
    assert r[1..] == [];
    RowShare(rows, 0);
  }

  predicate IsHighBurn(r: Recommendation) {
    r.tier.HighBurn?
  }

  predicate NotHighBurn(r: Recommendation) {
    !r.tier.HighBurn?
  }

  /** Every row of the table has a positive share, and it is high-burn
      exactly when that share is above 30 percent. */
  lemma MemberShare(rows: seq<C.Categorized>, x: Recommendation)
    requires x in CategoryRecommendations(rows)
    ensures x.pct > 0.0
    ensures x.tier.HighBurn? <==> x.pct > 30.0
  {
    var r := CategoryRecommendations(rows);
    var i :| 0 <= i < |r| && r[i] == x;
    RowShare(rows, i);
  }

  /** The high-burn rows take more than 30 percent each. */
  lemma HighBurnShares(rows: seq<C.Categorized>)
    ensures var high := Filter(IsHighBurn, CategoryRecommendations(rows));
      SumOf(high, PctOf) >= 30.0 * (|high| as real)
  {
    var r := CategoryRecommendations(rows);
    var high := Filter(IsHighBurn, r);
    forall k | 0 <= k < |high|
      ensures PctOf(high[k]) > 30.0
    {
      FilterMember(IsHighBurn, r, high[k]);
      MemberShare(rows, high[k]);
    }
    var bound, count := 30.0, |high| as real;
    SumAboveBound(high, PctOf, bound);
    assert bound * count == 30.0 * count;
  }

  /** The other rows take a share that is not negative. */
  lemma OtherShares(rows: seq<C.Categorized>)
    ensures SumOf(Filter(NotHighBurn, CategoryRecommendations(rows)), PctOf) >= 0.0
  {
    var r := CategoryRecommendations(rows);
    var rest := Filter(NotHighBurn, r);
    forall k | 0 <= k < |rest|
      ensures PctOf(rest[k]) >= 0.0
    {
      FilterMember(NotHighBurn, r, rest[k]);
      MemberShare(rows, rest[k]);
    }
    SumOfNonnegative(rest, PctOf);
  }

  /** Shares add up to 100 percent, so at most three categories can each
      take more than 30 percent. */
  lemma AtMostThreeHighBurn(rows: seq<C.Categorized>)
    ensures |Filter(IsHighBurn, CategoryRecommendations(rows))| <= 3
  {
    var r := CategoryRecommendations(rows);
    if r != [] {
      HighBurnShares(rows);
      OtherShares(rows);
      FilterSplitsSum(IsHighBurn, NotHighBurn, r, PctOf);
      SharesSumTo100(rows);
    }
  }

  /** The categories that are never essential. */
  const DiscretionaryLabels: set<string> := {
    C.Entertainment, C.CashHandling, C.CardReference, C.Account, C.Others
  }

  lemma NonEssentialLabel(x: C.Categorized)
    requires IsDiscretionary(x) && x.category in C.Labels
    ensures x.category in DiscretionaryLabels
  {
  }

  /** When every row carries one of the categorizer's labels, the table only
      ever advises on entertainment, cash handling, card references, accounts
      and others. */
  lemma DiscretionaryCategories(rows: seq<C.Categorized>, i: int)
    requires forall k :: 0 <= k < |rows| ==> rows[k].category in C.Labels
    requires 0 <= i < |CategoryRecommendations(rows)|
    ensures CategoryRecommendations(rows)[i].category in DiscretionaryLabels
  {
    var disc := Discretionary(rows);
    RowTotal(rows, i);
    var j :| 0 <= j < |disc| && disc[j].category == CategoryRecommendations(rows)[i].category;
    FilterMember(IsDiscretionary, rows, disc[j]);
    NonEssentialLabel(disc[j]);
  }
}
