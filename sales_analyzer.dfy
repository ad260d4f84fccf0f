/** The analyses over a list of sales. The analyzer keeps its own copy of the list it is given
    and never changes it, so every operation is a function of that list. */
module SalesAnalyzer {
  import opened Wrappers
  import opened Sales
  import opened JavaStrings
  import opened Sequences

  // ---------------------------------------------------------------- counting and extremes

  /** countTotalTransactions and getSalesCount. */
  function CountTotalTransactions(sales: seq<Sale>): (n: nat)
    ensures n == |sales|
  {
    |sales|
  }

  /** findHighestValueSale: the first sale of the largest amount. */
  function FindHighestValueSale(sales: seq<Sale>): (r: Option<Sale>)
    ensures r.None? <==> sales == []
    ensures r.Some? ==> exists i | FirstMaximumAt(sales, TotalAmount, i) :: sales[i] == r.value
  {
    MaxBy(sales, TotalAmount)
  }

  /** findLowestValueSale: the first sale of the smallest amount. */
  function FindLowestValueSale(sales: seq<Sale>): (r: Option<Sale>)
    ensures r.None? <==> sales == []
    ensures r.Some? ==> exists i | FirstMinimumAt(sales, TotalAmount, i) :: sales[i] == r.value
  {
    MinBy(sales, TotalAmount)
  }

  // ---------------------------------------------------------------- filters and partition

  function AmountAbove(minAmount: real): Sale -> bool
  {
    s => TotalAmount(s) > minAmount
  }

  /** filterSalesAboveAmount: the sales of amount strictly greater than `minAmount`. */
  function FilterSalesAboveAmount(sales: seq<Sale>, minAmount: real): (r: seq<Sale>)
    ensures forall i | 0 <= i < |r| :: TotalAmount(r[i]) > minAmount
  {
    Filter(sales, AmountAbove(minAmount))
  }

  /** The filter keeps the input order and drops no qualifying sale. */
  lemma FilterSalesAboveAmountComplete(sales: seq<Sale>, minAmount: real)
    ensures SubsequenceOf(FilterSalesAboveAmount(sales, minAmount), sales)
    ensures forall s | TotalAmount(s) > minAmount ::
      multiset(FilterSalesAboveAmount(sales, minAmount))[s] == multiset(sales)[s]
  {
    FilterIsSubsequence(sales, AmountAbove(minAmount));
    forall s | TotalAmount(s) > minAmount
      ensures multiset(FilterSalesAboveAmount(sales, minAmount))[s] == multiset(sales)[s]
    {
      FilterKeepsMatches(sales, AmountAbove(minAmount), s);
    }
  }

  function CategoryOf(s: Sale): string { s.category }
  function RegionOf(s: Sale): string { s.region }
  function SalespersonOf(s: Sale): string { s.salesperson }
  function ProductOf(s: Sale): string { s.product }

  /** The sales whose `field` equals `value` ignoring case. */
  function FieldMatches(field: Sale -> string, value: string): (r: Sale -> bool)
    ensures forall s :: r(s) == EqualsIgnoreCase(field(s), value)
  {
    s => EqualsIgnoreCase(field(s), value)
  }

  /** filterByCategory. */
  function FilterByCategory(sales: seq<Sale>, category: string): (r: seq<Sale>)
    ensures forall i | 0 <= i < |r| :: EqualsIgnoreCase(r[i].category, category)
  {
    Filter(sales, FieldMatches(CategoryOf, category))
  }

  /** filterByRegion. */
  function FilterByRegion(sales: seq<Sale>, region: string): (r: seq<Sale>)
    ensures forall i | 0 <= i < |r| :: EqualsIgnoreCase(r[i].region, region)
  {
    Filter(sales, FieldMatches(RegionOf, region))
  }

  /** findSalesBySalesperson. */
  function FindSalesBySalesperson(sales: seq<Sale>, salesperson: string): (r: seq<Sale>)
    ensures forall i | 0 <= i < |r| :: EqualsIgnoreCase(r[i].salesperson, salesperson)
  {
    Filter(sales, FieldMatches(SalespersonOf, salesperson))
  }

  /** The three field filters keep the input order and drop no matching sale. */
  lemma FieldFilterComplete(sales: seq<Sale>, field: Sale -> string, value: string)
    ensures SubsequenceOf(Filter(sales, FieldMatches(field, value)), sales)
    ensures forall s | EqualsIgnoreCase(field(s), value) ::
      multiset(Filter(sales, FieldMatches(field, value)))[s] == multiset(sales)[s]
  {
    FilterIsSubsequence(sales, FieldMatches(field, value));
    forall s | EqualsIgnoreCase(field(s), value)
      ensures multiset(Filter(sales, FieldMatches(field, value)))[s] == multiset(sales)[s]
    {
      FilterKeepsMatches(sales, FieldMatches(field, value), s);
    }
  }

  /** Arguments that differ only in ASCII case select the same sales. */
  lemma FieldFilterIgnoresCase(sales: seq<Sale>, field: Sale -> string, a: string, b: string)
    requires EqualsIgnoreCase(a, b)
    ensures Filter(sales, FieldMatches(field, a)) == Filter(sales, FieldMatches(field, b))
  {
    forall s ensures FieldMatches(field, a)(s) == FieldMatches(field, b)(s) {
      EqualsIgnoreCaseIsEquivalence(field(s), a, b);
      EqualsIgnoreCaseIsEquivalence(field(s), b, a);
      EqualsIgnoreCaseIsEquivalence(a, b, b);
    }
    FilterSamePredicate(sales, FieldMatches(field, a), FieldMatches(field, b));
  }

  function AmountAtLeast(threshold: real): Sale -> bool
  {
    s => TotalAmount(s) >= threshold
  }

  function AmountBelow(threshold: real): Sale -> bool
  {
    s => TotalAmount(s) < threshold
  }

  /** partitionSalesByValue: `true` maps to the sales of amount at least the threshold, `false`
      to the others; together they are exactly the input. */
  function PartitionSalesByValue(sales: seq<Sale>, threshold: real): (r: map<bool, seq<Sale>>)
    ensures r.Keys == {true, false}
    ensures forall i | 0 <= i < |r[true]| :: TotalAmount(r[true][i]) >= threshold
    ensures forall i | 0 <= i < |r[false]| :: TotalAmount(r[false][i]) < threshold
    ensures |r[true]| + |r[false]| == |sales|
    ensures multiset(r[true]) + multiset(r[false]) == multiset(sales)
  {
    FilterComplement(sales, AmountAtLeast(threshold), AmountBelow(threshold));
    map[true := Filter(sales, AmountAtLeast(threshold)), false := Filter(sales, AmountBelow(threshold))]
  }

  /** Both sides of the partition keep the input order. */
  lemma PartitionKeepsOrder(sales: seq<Sale>, threshold: real)
    ensures SubsequenceOf(PartitionSalesByValue(sales, threshold)[true], sales)
    ensures SubsequenceOf(PartitionSalesByValue(sales, threshold)[false], sales)
  {
    FilterIsSubsequence(sales, AmountAtLeast(threshold));
    FilterIsSubsequence(sales, AmountBelow(threshold));
  }

  // ---------------------------------------------------------------- sorting and top-N

  /** Comparator.comparingDouble(Sale::getTotalAmount).reversed(): `a` may precede `b` when
      its amount is not smaller. */
  predicate ByAmountDescending(a: Sale, b: Sale)
  {
    TotalAmount(a) >= TotalAmount(b)
  }

  /** Comparator.comparing(Sale::getDate). */
  predicate ByDate(a: Sale, b: Sale)
  {
    DateLe(a.date, b.date)
  }

  lemma ByAmountDescendingIsTotalPreorder()
    ensures TotalPreorder(ByAmountDescending)
  {
  }

  lemma ByDateIsTotalPreorder()
    ensures TotalPreorder(ByDate)
  {
  }

  /** Error of Stream.limit: a negative maximum size is an IllegalArgumentException. */
  datatype LimitError = NegativeLimit(n: int)

  /** getTopNSalesByAmount: the first `n` sales of the stable sort by descending amount. */
  function GetTopNSalesByAmount(sales: seq<Sale>, n: int): (r: Result<seq<Sale>, LimitError>)
    ensures r.Failure? <==> n < 0
    ensures r.Failure? ==> r.error == NegativeLimit(n)
    ensures r.Success? ==> |r.value| == if n < |sales| then n else |sales|
    ensures r.Success? ==> r.value == StableSort(sales, ByAmountDescending)[..|r.value|]
  {
    if n < 0 then Failure(NegativeLimit(n))
    else
      var sorted := StableSort(sales, ByAmountDescending);
      Success(if n < |sorted| then sorted[..n] else sorted)
  }

  /** The top-N list runs from the largest amount down. */
  lemma TopNOrdered(sales: seq<Sale>, n: int)
    requires 0 <= n
    ensures var top := GetTopNSalesByAmount(sales, n).value;
      forall i, j | 0 <= i < j < |top| :: TotalAmount(top[i]) >= TotalAmount(top[j])
  {
    var top := GetTopNSalesByAmount(sales, n).value;
    ByAmountDescendingIsTotalPreorder();
    SortedPrefixDominates(sales, ByAmountDescending, |top|);
    forall i, j | 0 <= i < j < |top| ensures TotalAmount(top[i]) >= TotalAmount(top[j]) {
      assert ByAmountDescending(top[i], top[j]);
    }
  }

  /** No sale left out of the top-N list is larger than a sale kept in it. */
  lemma TopNDominates(sales: seq<Sale>, n: int)
    requires 0 <= n
    ensures var top := GetTopNSalesByAmount(sales, n).value;
      forall t, s | t in top && s in sales && s !in top :: TotalAmount(t) >= TotalAmount(s)
  {
    var top := GetTopNSalesByAmount(sales, n).value;
    ByAmountDescendingIsTotalPreorder();
    SortedPrefixDominates(sales, ByAmountDescending, |top|);
    forall t, s | t in top && s in sales && s !in top ensures TotalAmount(t) >= TotalAmount(s) {
      assert ByAmountDescending(t, s);
    }
  }

  /** Every sale in the top-N list comes from the input, no more often than it occurs there. */
  lemma TopNFromInput(sales: seq<Sale>, n: int)
    requires 0 <= n
    ensures multiset(GetTopNSalesByAmount(sales, n).value) <= multiset(sales)
  {
    ByAmountDescendingIsTotalPreorder();
    SortedPrefixDominates(sales, ByAmountDescending, |GetTopNSalesByAmount(sales, n).value|);
  }

  /** Among sales of equal amount the top-N list keeps the input order. */
  lemma TopNStable(sales: seq<Sale>, n: int, k: Sale)
    requires 0 <= n
    ensures var top := GetTopNSalesByAmount(sales, n).value;
      SubsequenceOf(Ties(top, ByAmountDescending, k), Ties(sales, ByAmountDescending, k))
  {
    ByAmountDescendingIsTotalPreorder();
    var top := GetTopNSalesByAmount(sales, n).value;
    SortedPrefixStable(sales, ByAmountDescending, k, |top|);
  }

  /** getSalesSortedByDate: the stable sort by date. */
  function GetSalesSortedByDate(sales: seq<Sale>): (r: seq<Sale>)
    ensures |r| == |sales|
    ensures multiset(r) == multiset(sales)
  {
    StableSort(sales, ByDate)
  }

  /** The dates never decrease, and sales of the same date keep the input order. */
  lemma SortedByDateOrdered(sales: seq<Sale>, k: Sale)
    ensures var r := GetSalesSortedByDate(sales);
      forall i, j | 0 <= i < j < |r| :: DateLe(r[i].date, r[j].date)
    ensures Ties(GetSalesSortedByDate(sales), ByDate, k) == Ties(sales, ByDate, k)
  {
    ByDateIsTotalPreorder();
    StableSortSorted(sales, ByDate);
    StableSortStable(sales, ByDate, k);
  }

  // ---------------------------------------------------------------- distinct values and grouping

  /** map(key).collect(toSet()): the keys that occur among the sales. */
  function Image<K>(sales: seq<Sale>, key: Sale -> K): (r: set<K>)
    ensures forall i | 0 <= i < |sales| :: key(sales[i]) in r
    ensures forall k | k in r :: exists i | 0 <= i < |sales| :: key(sales[i]) == k
  {
    set i | 0 <= i < |sales| :: key(sales[i])
  }

  /** There are never more distinct keys than sales, and none exactly when there are no sales. */
  lemma {:induction false} ImageBounds<K>(sales: seq<Sale>, key: Sale -> K)
    ensures |Image(sales, key)| <= |sales|
    ensures Image(sales, key) == {} <==> sales == []
  {
    if sales != [] {
      ImageBounds(sales[1..], key);
      assert Image(sales, key) == Image(sales[1..], key) + {key(sales[0])} by {
        forall x | x in Image(sales, key) ensures x in Image(sales[1..], key) + {key(sales[0])} {
          var i :| 0 <= i < |sales| && key(sales[i]) == x;
          if i > 0 { assert key(sales[1..][i - 1]) == x; }
        }
      }
    }
  }

  /** getUniqueProducts. */
  function UniqueProducts(sales: seq<Sale>): (r: set<string>)
    ensures forall p :: p in r <==> exists i | 0 <= i < |sales| :: sales[i].product == p
  {
    Image(sales, ProductOf)
  }

  /** getUniqueCategories. */
  function UniqueCategories(sales: seq<Sale>): (r: set<string>)
    ensures forall c :: c in r <==> exists i | 0 <= i < |sales| :: sales[i].category == c
  {
    Image(sales, CategoryOf)
  }

  /** getUniqueRegions. */
  function UniqueRegions(sales: seq<Sale>): (r: set<string>)
    ensures forall g :: g in r <==> exists i | 0 <= i < |sales| :: sales[i].region == g
  {
    Image(sales, RegionOf)
  }

  /** getUniqueSalespersons. */
  function UniqueSalespersons(sales: seq<Sale>): (r: set<string>)
    ensures forall p :: p in r <==> exists i | 0 <= i < |sales| :: sales[i].salesperson == p
  {
    Image(sales, SalespersonOf)
  }

  function KeyIs<K(==)>(key: Sale -> K, k: K): Sale -> bool
  {
    s => key(s) == k
  }

  /** The group groupingBy forms for key `k`: the sales with that key, in order. */
  function GroupOf<K(==)>(sales: seq<Sale>, key: Sale -> K, k: K): seq<Sale>
  {
    Filter(sales, KeyIs(key, k))
  }

  lemma GroupsOfImageNonEmpty<K>(sales: seq<Sale>, key: Sale -> K)
    ensures forall k | k in Image(sales, key) :: GroupOf(sales, key, k) != []
  {
    forall k | k in Image(sales, key) ensures GroupOf(sales, key, k) != [] {
      var i :| 0 <= i < |sales| && key(sales[i]) == k;
      FilterKeepsMatches(sales, KeyIs(key, k), sales[i]);
      assert sales[i] in multiset(sales);
    }
  }

  /** groupingBy(key, counting()): one entry per key that occurs, holding the size of its group,
      which is never zero. */
  function CountBy<K(==)>(sales: seq<Sale>, key: Sale -> K): (r: map<K, nat>)
    ensures r.Keys == Image(sales, key)
    ensures forall k | k in r :: r[k] == |GroupOf(sales, key, k)| && r[k] > 0
  {
    GroupsOfImageNonEmpty(sales, key);
    map k | k in Image(sales, key) :: |GroupOf(sales, key, k)|
  }

  /** countSalesByProduct. */
  function CountSalesByProduct(sales: seq<Sale>): (r: map<string, nat>)
    ensures r.Keys == UniqueProducts(sales)
    ensures forall p | p in r :: r[p] == |GroupOf(sales, ProductOf, p)| && r[p] > 0
  {
    CountBy(sales, ProductOf)
  }

  /** Two maps that agree on every key but `k0` are equal once `k0` is removed. */
  lemma MapsAgreeOffKey<K, V>(m: map<K, V>, m': map<K, V>, k0: K)
    requires m.Keys - {k0} == m'.Keys - {k0}
    requires forall k | k in m && k != k0 :: k in m' && m[k] == m'[k]
    ensures m - {k0} == m' - {k0}
  {
  }

  /** The sum of the values of a map, in no particular order. */
  ghost function SumCounts<K>(m: map<K, nat>): nat
    decreases |m.Keys|
  {
    if m == map[] then 0
    else
      var k :| k in m;
      assert |(m - {k}).Keys| < |m.Keys| by { assert (m - {k}).Keys < m.Keys; }
      m[k] + SumCounts(m - {k})
  }

  lemma {:induction false} SumCountsRemove<K>(m: map<K, nat>, k: K)
    requires k in m
    ensures SumCounts(m) == m[k] + SumCounts(m - {k})
    decreases |m.Keys|
  {
    var k' :| k' in m && SumCounts(m) == m[k'] + SumCounts(m - {k'});
    if k' != k {
      assert (m - {k'}).Keys < m.Keys;
      assert (m - {k}).Keys < m.Keys;
      SumCountsRemove(m - {k'}, k);
      SumCountsRemove(m - {k}, k');
      assert m - {k'} - {k} == m - {k} - {k'};
    }
  }

  /** Adding one to the count of a single key adds one to the sum. */
  lemma SumCountsIncrement<K>(c: map<K, nat>, c': map<K, nat>, k0: K)
    requires k0 in c && c[k0] == 1 + (if k0 in c' then c'[k0] else 0)
    requires c - {k0} == c' - {k0}
    ensures SumCounts(c) == SumCounts(c') + 1
  {
    SumCountsRemove(c, k0);
    if k0 in c' {
      SumCountsRemove(c', k0);
    } else {
      assert c' - {k0} == c';
    }
  }

  /** The counts of a grouping add up to the number of sales. */
  lemma {:induction false} CountsSumToSize<K>(sales: seq<Sale>, key: Sale -> K)
    ensures SumCounts(CountBy(sales, key)) == |sales|
  {
    if sales == [] {
      assert CountBy(sales, key) == map[];
    } else {
      CountsSumToSize(sales[1..], key);
      CountByHead(sales, key);
      CountByRest(sales, key);
      SumCountsIncrement(CountBy(sales, key), CountBy(sales[1..], key), key(sales[0]));
    }
  }

  /** One more sale at the front adds one to the count of its key... */
  lemma CountByHead<K>(sales: seq<Sale>, key: Sale -> K)
    requires sales != []
    ensures var c, c', k0 := CountBy(sales, key), CountBy(sales[1..], key), key(sales[0]);
      k0 in c && c[k0] == 1 + (if k0 in c' then c'[k0] else 0)
  {
    var k0 := key(sales[0]);
    ImageStep(sales, key);
    GroupStep(sales, key, k0);
    if k0 !in CountBy(sales[1..], key) {
      GroupOutsideImageEmpty(sales[1..], key, k0);
    }
  }

  lemma CountOfOtherKey<K>(sales: seq<Sale>, key: Sale -> K, k: K)
    requires sales != [] && k != key(sales[0]) && k in CountBy(sales, key)
    ensures k in CountBy(sales[1..], key) && CountBy(sales, key)[k] == CountBy(sales[1..], key)[k]
  {
    ImageStep(sales, key);
    GroupStep(sales, key, k);
    assert GroupOf(sales, key, k) == GroupOf(sales[1..], key, k);
  }

  /** ...and changes no other count. */
  lemma CountByRest<K>(sales: seq<Sale>, key: Sale -> K)
    requires sales != []
    ensures CountBy(sales, key) - {key(sales[0])} == CountBy(sales[1..], key) - {key(sales[0])}
  {
    var c, c', k0 := CountBy(sales, key), CountBy(sales[1..], key), key(sales[0]);
    ImageStep(sales, key);
    forall k | k in c && k != k0 ensures k in c' && c[k] == c'[k] {
      CountOfOtherKey(sales, key, k);
    }
    MapsAgreeOffKey(c, c', k0);
  }

  lemma GroupOutsideImageEmpty<K>(sales: seq<Sale>, key: Sale -> K, k: K)
    requires k !in Image(sales, key)
    ensures GroupOf(sales, key, k) == []
  {
    var g := GroupOf(sales, key, k);
    if g != [] {
      assert g[0] in multiset(g);
      FilterKeepsMatches(sales, KeyIs(key, k), g[0]);
    }
  }

  /** One more sale at the front adds its key to the keys. */
  lemma ImageStep<K>(sales: seq<Sale>, key: Sale -> K)
    requires sales != []
    ensures Image(sales, key) == Image(sales[1..], key) + {key(sales[0])}
  {
    forall x | x in Image(sales, key) ensures x in Image(sales[1..], key) + {key(sales[0])} {
      var i :| 0 <= i < |sales| && key(sales[i]) == x;
      if i > 0 { assert key(sales[1..][i - 1]) == x; }
    }
  }

  /** One more sale at the front joins the front of its own group and no other. */
  lemma GroupStep<K>(sales: seq<Sale>, key: Sale -> K, k: K)
    requires sales != []
    ensures GroupOf(sales, key, k) == (if key(sales[0]) == k then [sales[0]] else []) + GroupOf(sales[1..], key, k)
  {
    if key(sales[0]) != k {
      assert [] + GroupOf(sales[1..], key, k) == GroupOf(sales[1..], key, k);
    }
  }

  // ---------------------------------------------------------------- revenue

  /** calculateTotalRevenue. */
  function TotalRevenue(sales: seq<Sale>): (r: real)
    ensures sales == [] ==> r == 0.0
    ensures (forall i | 0 <= i < |sales| :: 0.0 <= sales[i].quantity && 0.0 <= sales[i].unitPrice) ==> 0.0 <= r
  {
    forall i | 0 <= i < |sales| && 0.0 <= sales[i].quantity && 0.0 <= sales[i].unitPrice
      ensures 0.0 <= TotalAmount(sales[i])
    {
    }
    SumOf(sales, TotalAmount)
  }

  /** calculateAverageOrderValue: the mean amount, or 0 when there are no sales. */
  function AverageOrderValue(sales: seq<Sale>): (r: real)
    ensures sales == [] ==> r == 0.0
    ensures sales != [] ==> r * (|sales| as real) == TotalRevenue(sales)
  {
    if sales == [] then 0.0 else TotalRevenue(sales) / (|sales| as real)
  }

  /** Revenue adds up over consecutive parts of the list. */
  lemma TotalRevenueAdditive(a: seq<Sale>, b: seq<Sale>)
    ensures TotalRevenue(a + b) == TotalRevenue(a) + TotalRevenue(b)
  {
    SumOfAppend(a, b, TotalAmount);
  }

  /** groupingBy(key, summingDouble(getTotalAmount)): one entry per key that occurs, holding the
      revenue of its group. */
  function RevenueBy<K(==)>(sales: seq<Sale>, key: Sale -> K): (r: map<K, real>)
    ensures r.Keys == Image(sales, key)
  {
    map k | k in Image(sales, key) :: TotalRevenue(GroupOf(sales, key, k))
  }

  /** The sum of the values of a map, in no particular order. */
  ghost function SumRevenues<K>(m: map<K, real>): real
    decreases |m.Keys|
  {
    if m == map[] then 0.0
    else
      var k :| k in m;
      assert |(m - {k}).Keys| < |m.Keys| by { assert (m - {k}).Keys < m.Keys; }
      m[k] + SumRevenues(m - {k})
  }

  lemma {:induction false} SumRevenuesRemove<K>(m: map<K, real>, k: K)
    requires k in m
    ensures SumRevenues(m) == m[k] + SumRevenues(m - {k})
    decreases |m.Keys|
  {
    var k' :| k' in m && SumRevenues(m) == m[k'] + SumRevenues(m - {k'});
    if k' != k {
      assert (m - {k'}).Keys < m.Keys;
      assert (m - {k}).Keys < m.Keys;
      SumRevenuesRemove(m - {k'}, k);
      SumRevenuesRemove(m - {k}, k');
      assert m - {k'} - {k} == m - {k} - {k'};
    }
  }

  /** One more sale at the front adds its amount to the revenue of its key... */
  lemma RevenueByHead<K>(sales: seq<Sale>, key: Sale -> K)
    requires sales != []
    ensures var r, r', k0 := RevenueBy(sales, key), RevenueBy(sales[1..], key), key(sales[0]);
      k0 in r && r[k0] == TotalAmount(sales[0]) + (if k0 in r' then r'[k0] else 0.0)
  {
    var k0 := key(sales[0]);
    ImageStep(sales, key);
    GroupStep(sales, key, k0);
    var g' := GroupOf(sales[1..], key, k0);
    TotalRevenueAdditive([sales[0]], g');
    assert TotalRevenue([sales[0]]) == TotalAmount(sales[0]);
    if k0 !in RevenueBy(sales[1..], key) {
      GroupOutsideImageEmpty(sales[1..], key, k0);
    }
  }

  lemma RevenueOfOtherKey<K>(sales: seq<Sale>, key: Sale -> K, k: K)
    requires sales != [] && k != key(sales[0]) && k in RevenueBy(sales, key)
    ensures k in RevenueBy(sales[1..], key) && RevenueBy(sales, key)[k] == RevenueBy(sales[1..], key)[k]
  {
    ImageStep(sales, key);
    GroupStep(sales, key, k);
    assert GroupOf(sales, key, k) == GroupOf(sales[1..], key, k);
  }

  /** ...and changes no other revenue. */
  lemma RevenueByRest<K>(sales: seq<Sale>, key: Sale -> K)
    requires sales != []
    ensures RevenueBy(sales, key) - {key(sales[0])} == RevenueBy(sales[1..], key) - {key(sales[0])}
  {
    var r, r', k0 := RevenueBy(sales, key), RevenueBy(sales[1..], key), key(sales[0]);
    ImageStep(sales, key);
    forall k | k in r && k != k0 ensures k in r' && r[k] == r'[k] {
      RevenueOfOtherKey(sales, key, k);
    }
    MapsAgreeOffKey(r, r', k0);
  }

  /** Adding an amount to the revenue of a single key adds it to the sum. */
  lemma SumRevenuesAdd<K>(r: map<K, real>, r': map<K, real>, k0: K, a: real)
    requires k0 in r && r[k0] == a + (if k0 in r' then r'[k0] else 0.0)
    requires r - {k0} == r' - {k0}
    ensures SumRevenues(r) == a + SumRevenues(r')
  {
    SumRevenuesRemove(r, k0);
    if k0 in r' {
      SumRevenuesRemove(r', k0);
    } else {
      assert r' - {k0} == r';
    }
  }

  /** The revenues of a grouping add up to the total revenue. */
  lemma {:induction false} RevenuesSumToTotal<K>(sales: seq<Sale>, key: Sale -> K)
    ensures SumRevenues(RevenueBy(sales, key)) == TotalRevenue(sales)
  {
    if sales == [] {
      assert RevenueBy(sales, key) == map[];
    } else {
      RevenuesSumToTotal(sales[1..], key);
      RevenueByHead(sales, key);
      RevenueByRest(sales, key);
      SumRevenuesAdd(RevenueBy(sales, key), RevenueBy(sales[1..], key), key(sales[0]), TotalAmount(sales[0]));
      assert TotalRevenue(sales) == TotalAmount(sales[0]) + TotalRevenue(sales[1..]);
    }
  }

  /** calculateRevenueByCategory. */
  function RevenueByCategory(sales: seq<Sale>): (r: map<string, real>)
    ensures r.Keys == UniqueCategories(sales)
  {
    RevenueBy(sales, CategoryOf)
  }

  /** calculateRevenueByRegion. */
  function RevenueByRegion(sales: seq<Sale>): (r: map<string, real>)
    ensures r.Keys == UniqueRegions(sales)
  {
    RevenueBy(sales, RegionOf)
  }

  /** calculateRevenueBySalesperson. */
  function RevenueBySalesperson(sales: seq<Sale>): (r: map<string, real>)
    ensures r.Keys == UniqueSalespersons(sales)
  {
    RevenueBy(sales, SalespersonOf)
  }

  function MonthOf(s: Sale): int
  {
    Month(s)
  }

  /** calculateRevenueByMonth: months are numbered 1 to 12, and only months with sales appear. */
  function RevenueByMonth(sales: seq<Sale>): (r: map<int, real>)
    ensures r.Keys == Image(sales, MonthOf)
    ensures forall m | m in r :: 1 <= m <= 12
  {
    RevenueBy(sales, MonthOf)
  }

  // ---------------------------------------------------------------- products string

  function Products(sales: seq<Sale>): (r: seq<string>)
    ensures |r| == |sales|
    ensures forall i | 0 <= i < |sales| :: r[i] == sales[i].product
  {
    seq(|sales|, i requires 0 <= i < |sales| => sales[i].product)
  }

  /** map(getProduct).distinct().sorted(). */
  function SortedDistinctProducts(sales: seq<Sale>): seq<string>
  {
    StableSort(Distinct(Products(sales)), StringLe)
  }

  /** getAllProductsAsString: joining(", "). */
  function GetAllProductsAsString(sales: seq<Sale>): (r: string)
    ensures sales == [] ==> r == []
  {
    Join(SortedDistinctProducts(sales), ", ")
  }

  lemma StringLeIsTotalPreorder()
    ensures TotalPreorder(StringLe)
  {
    forall a, b ensures StringLe(a, b) || StringLe(b, a) {
      StringLeTotal(a, b);
    }
    forall a, b, c | StringLe(a, b) && StringLe(b, c) ensures StringLe(a, c) {
      StringLeTransitive(a, b, c);
    }
  }

  /** The joined names are the unique products, each once, in ascending string order. */
  lemma SortedDistinctProductsSpec(sales: seq<Sale>)
    ensures var ps := SortedDistinctProducts(sales);
      && (forall i, j | 0 <= i < j < |ps| :: StringLe(ps[i], ps[j]) && ps[i] != ps[j])
      && (forall p :: p in ps <==> p in UniqueProducts(sales))
  {
    var d := Distinct(Products(sales));
    var ps := SortedDistinctProducts(sales);
    StringLeIsTotalPreorder();
    StableSortSorted(d, StringLe);
    PermutationKeepsNoDuplicates(d, ps);
    forall p ensures p in ps <==> p in UniqueProducts(sales) {
      calc {
        p in ps;
        p in multiset(ps);
        p in multiset(d);
        p in d;
      }
      if p in Products(sales) {
        var i :| 0 <= i < |sales| && Products(sales)[i] == p;
        assert sales[i].product == p;
      }
    }
  }

  /** The string depends only on the set of products sold. */
  lemma AllProductsDependsOnlyOnProductSet(a: seq<Sale>, b: seq<Sale>)
    requires UniqueProducts(a) == UniqueProducts(b)
    ensures GetAllProductsAsString(a) == GetAllProductsAsString(b)
  {
    SortedDistinctProductsSpec(a);
    SortedDistinctProductsSpec(b);
    forall x, y | StringLe(x, y) && StringLe(y, x) ensures x == y {
      StringLeAntisymmetric(x, y);
    }
    var pa, pb := SortedDistinctProducts(a), SortedDistinctProducts(b);
    StringLeIsTotalPreorder();
    SortedDistinctUnique(pa, pb, StringLe);
  }

  // ---------------------------------------------------------------- monthly growth

  /** The revenue of the latest month before `month` that has an entry, if any. */
  function PreviousRevenue(revenue: map<int, real>, month: int): Option<real>
    decreases month
  {
    if month <= 1 then None
    else if month - 1 in revenue then Some(revenue[month - 1])
    else PreviousRevenue(revenue, month - 1)
  }

  /** A month gets a growth rate when it has revenue and the latest earlier month with revenue
      has non-zero revenue. */
  predicate HasGrowth(revenue: map<int, real>, month: int)
  {
    && month in revenue
    && PreviousRevenue(revenue, month).Some?
    && PreviousRevenue(revenue, month).value != 0.0
  }

  /** The percentage change from `previous` to `current`. */
  function GrowthRate(current: real, previous: real): real
    requires previous != 0.0
  {
    ((current - previous) / previous) * 100.0
  }

  /** The growth rate of a month that has one. */
  function MonthGrowth(revenue: map<int, real>, month: int): real
    requires HasGrowth(revenue, month)
  {
    GrowthRate(revenue[month], PreviousRevenue(revenue, month).value)
  }

  /** Growing `previous` by the rate gives back `current`. */
  lemma GrowthRateInverse(current: real, previous: real)
    requires previous != 0.0
    ensures previous + previous * GrowthRate(current, previous) / 100.0 == current
  {
    var q := (current - previous) / previous;
    assert previous * q == current - previous;
    assert previous * (q * 100.0) / 100.0 == previous * q;
  }

  /** The loop of calculateMonthlyGrowthRate over a month-to-revenue map: visits the months in
      ascending order (TreeMap order) and keeps the revenue of the last month visited. */
  method GrowthRates(monthlyRevenue: map<int, real>) returns (growthRates: map<int, real>)
    requires forall m | m in monthlyRevenue :: 1 <= m <= 12
    ensures forall m | m in growthRates :: HasGrowth(monthlyRevenue, m)
    ensures forall m | HasGrowth(monthlyRevenue, m) ::
      m in growthRates && growthRates[m] == MonthGrowth(monthlyRevenue, m)
  {
    growthRates := map[];
    var previousRevenue: Option<real> := None;
    var month := 1;
    while month <= 12
      invariant 1 <= month <= 13
      invariant previousRevenue == PreviousRevenue(monthlyRevenue, month)
      invariant forall m | m in growthRates :: m < month && HasGrowth(monthlyRevenue, m)
      invariant forall m | m < month && HasGrowth(monthlyRevenue, m) ::
        m in growthRates && growthRates[m] == MonthGrowth(monthlyRevenue, m)
    {
      if month in monthlyRevenue {
        if previousRevenue.Some? && previousRevenue.value != 0.0 {
          growthRates := growthRates[month := GrowthRate(monthlyRevenue[month], previousRevenue.value)];
        }
        previousRevenue := Some(monthlyRevenue[month]);
      }
      month := month + 1;
    }
  }

  /** calculateMonthlyGrowthRate: the growth loop over the revenue by month. */
  method CalculateMonthlyGrowthRate(sales: seq<Sale>) returns (growthRates: map<int, real>)
    ensures forall m | m in growthRates :: HasGrowth(RevenueByMonth(sales), m)
    ensures forall m | HasGrowth(RevenueByMonth(sales), m) ::
      m in growthRates && growthRates[m] == MonthGrowth(RevenueByMonth(sales), m)
  {
    growthRates := GrowthRates(RevenueByMonth(sales));
  }

  /** The previous revenue is that of the latest earlier month with an entry, and there is none
      exactly when no earlier month (from January on) has an entry. */
  lemma {:induction false} PreviousRevenueIsLatestEarlierMonth(revenue: map<int, real>, month: int)
    ensures PreviousRevenue(revenue, month).None? <==> forall p | 1 <= p < month :: p !in revenue
    ensures PreviousRevenue(revenue, month).Some? ==>
      exists p | 1 <= p < month && p in revenue ::
        && PreviousRevenue(revenue, month).value == revenue[p]
        && forall q | p < q < month :: q !in revenue
    decreases month
  {
    if month > 1 && month - 1 !in revenue {
      PreviousRevenueIsLatestEarlierMonth(revenue, month - 1);
      if PreviousRevenue(revenue, month).Some? {
        var p :| 1 <= p < month - 1 && p in revenue
          && PreviousRevenue(revenue, month - 1).value == revenue[p]
          && forall q | p < q < month - 1 :: q !in revenue;
        assert forall q | p < q < month :: q !in revenue;
      }
    } else if month > 1 {
      assert forall q | month - 1 < q < month :: q !in revenue;
    }
  }

  /** The first month with sales never has a growth rate. */
  lemma FirstMonthHasNoGrowth(sales: seq<Sale>, month: int)
    requires month in RevenueByMonth(sales)
    requires forall p | p in RevenueByMonth(sales) :: month <= p
    ensures !HasGrowth(RevenueByMonth(sales), month)
  {
    PreviousRevenueIsLatestEarlierMonth(RevenueByMonth(sales), month);
  }
}
