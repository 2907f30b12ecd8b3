/**
 * The reports the dashboard draws from the working subset: the four KPI
 * metrics, revenue by city and by category, the top-20 clients, the
 * age-by-gender client counts, the per-client order and spend sums, and the
 * customer search. Each is a pure query over the filtered rows.
 */
module Reports {

  import opened Seqs
  import opened Strings
  import opened Grouping
  import opened Loader

  function AmountOf(r: Record): int { r.amount }
  function OrdersOf(r: Record): int { r.orders }
  function CityKey(r: Record): string { r.city }
  function CategoryKey(r: Record): string { r.productCategory }
  function UserKey(r: Record): string { r.userId }
  function AgeKey(r: Record): string { r.ageGroup }
  function GenderKey(r: Record): string { r.gender }
  function ClientKey(r: Record): (string, string) { (r.userId, r.custName) }

  // ---------------------------------------------------------------------------
  // KPI metrics
  // ---------------------------------------------------------------------------

  datatype Kpis = Kpis(revenue: int, orders: int, clients: nat, categories: nat)

  /** Total revenue, total orders, `User_ID.nunique()` and `Product_Category.nunique()`. */
  function KpiSummary(rows: seq<Record>): Kpis
  {
    Kpis(Total(rows, AmountOf), Total(rows, OrdersOf),
         |DistinctKeys(rows, UserKey)|, |DistinctKeys(rows, CategoryKey)|)
  }

  /**
   * The client and category counts are the numbers of distinct `User_ID`s
   * and categories among the rows, and an empty subset gives all zeros.
   */
  lemma KpiSpec(rows: seq<Record>)
    ensures KpiSummary(rows).clients == |set r | r in rows :: r.userId|
    ensures KpiSummary(rows).categories == |set r | r in rows :: r.productCategory|
    ensures KpiSummary(rows).clients <= |rows| && KpiSummary(rows).categories <= |rows|
    ensures rows == [] ==> KpiSummary(rows) == Kpis(0, 0, 0, 0)
  {
    DistinctKeysSpec(rows, UserKey);
    DistinctKeysSpec(rows, CategoryKey);
    assert KeySet(rows, UserKey) == set r | r in rows :: r.userId;
    assert KeySet(rows, CategoryKey) == set r | r in rows :: r.productCategory;
    DistinctKeysBound(rows, UserKey);
    DistinctKeysBound(rows, CategoryKey);
  }

  lemma {:induction false} DistinctKeysBound<K>(rows: seq<Record>, key: Record -> K)
    ensures |DistinctKeys(rows, key)| <= |rows|
  {
    if rows != [] {
      DistinctKeysBound(rows[1..], key);
    }
  }

  // ---------------------------------------------------------------------------
  // Revenue by city and by category
  // ---------------------------------------------------------------------------

  /** Revenue per city, largest first. */
  function RevenueByCity(rows: seq<Record>): seq<(string, int)>
  {
    SortDesc(Groups(rows, CityKey, AmountOf))
  }

  /** Revenue per product category, largest first. */
  function RevenueByCategory(rows: seq<Record>): seq<(string, int)>
  {
    SortDesc(Groups(rows, CategoryKey, AmountOf))
  }

  /**
   * A revenue series lists each key of the rows exactly once, paired with the
   * sum of that key's amounts, in non-increasing order of revenue, and its
   * values add up to the KPI total revenue.
   */
  lemma RevenueSpec(rows: seq<Record>, key: Record -> string)
    ensures var out := SortDesc(Groups(rows, key, AmountOf));
            && KeysDistinct(out)
            && |out| == |KeySet(rows, key)|
            && (forall k :: k in KeySet(rows, key) ==> (k, SumBy(rows, key, AmountOf, k)) in out)
            && (forall e :: e in out ==> e.0 in KeySet(rows, key) && e.1 == SumBy(rows, key, AmountOf, e.0))
            && NonIncreasing(out)
            && SumValues(out) == KpiSummary(rows).revenue
  {
    var g := Groups(rows, key, AmountOf);
    GroupsSpec(rows, key, AmountOf);
    SortDescSpec(g);
    assert forall e :: e in SortDesc(g) <==> e in multiset(g);
  }

  lemma RevenueByCitySpec(rows: seq<Record>)
    ensures KeysDistinct(RevenueByCity(rows))
    ensures forall c :: c in KeySet(rows, CityKey) ==> (c, SumBy(rows, CityKey, AmountOf, c)) in RevenueByCity(rows)
    ensures forall e :: e in RevenueByCity(rows) ==>
              e.0 in KeySet(rows, CityKey) && e.1 == SumBy(rows, CityKey, AmountOf, e.0)
    ensures NonIncreasing(RevenueByCity(rows))
    ensures SumValues(RevenueByCity(rows)) == KpiSummary(rows).revenue
  {
    RevenueSpec(rows, CityKey);
  }

  lemma RevenueByCategorySpec(rows: seq<Record>)
    ensures KeysDistinct(RevenueByCategory(rows))
    ensures forall c :: c in KeySet(rows, CategoryKey) ==>
              (c, SumBy(rows, CategoryKey, AmountOf, c)) in RevenueByCategory(rows)
    ensures forall e :: e in RevenueByCategory(rows) ==>
              e.0 in KeySet(rows, CategoryKey) && e.1 == SumBy(rows, CategoryKey, AmountOf, e.0)
    ensures NonIncreasing(RevenueByCategory(rows))
    ensures SumValues(RevenueByCategory(rows)) == KpiSummary(rows).revenue
  {
    RevenueSpec(rows, CategoryKey);
  }

  // ---------------------------------------------------------------------------
  // Top clients
  // ---------------------------------------------------------------------------

  const TopClientCount: nat := 20

  /** The 20 (user id, customer name) groups with the largest total Amount, largest first. */
  function TopClients(rows: seq<Record>): seq<((string, string), int)>
  {
    Take(SortDesc(Groups(rows, ClientKey, AmountOf)), TopClientCount)
  }

  /**
   * The top-clients table has min(20, number of (User_ID, Cust_name) groups)
   * entries, each a distinct group with its summed amount, in non-increasing
   * order, and no group left out has a larger sum than any group listed.
   */
  lemma TopClientsSpec(rows: seq<Record>)
    ensures var groups := |KeySet(rows, ClientKey)|;
            |TopClients(rows)| == if groups < TopClientCount then groups else TopClientCount
    ensures KeysDistinct(TopClients(rows))
    ensures NonIncreasing(TopClients(rows))
    ensures forall e :: e in TopClients(rows) ==>
              e.0 in KeySet(rows, ClientKey) && e.1 == SumBy(rows, ClientKey, AmountOf, e.0)
    ensures forall c, t :: c in KeySet(rows, ClientKey) && t in TopClients(rows)
                           && (c, SumBy(rows, ClientKey, AmountOf, c)) !in TopClients(rows)
                           ==> SumBy(rows, ClientKey, AmountOf, c) <= t.1
  {
    var g := Groups(rows, ClientKey, AmountOf);
    GroupsSpec(rows, ClientKey, AmountOf);
    TopSpec(g, TopClientCount);
  }

  // ---------------------------------------------------------------------------
  // Age x Gender client counts
  // ---------------------------------------------------------------------------

  /** A dense table: one row per age group, one column per gender. */
  datatype Heatmap = Heatmap(ages: seq<string>, genders: seq<string>, counts: seq<seq<nat>>)

  function InCell(age: string, gender: string): Record -> bool
  {
    (r: Record) => r.ageGroup == age && r.gender == gender
  }

  /** `User_ID.nunique()` within one (Age Group, Gender) group; 0 for an empty group. */
  function CellCount(rows: seq<Record>, age: string, gender: string): nat
  {
    |DistinctKeys(Filter(InCell(age, gender), rows), UserKey)|
  }

  /** The Age Group by Gender table of distinct users, with 0 in every combination no row has. */
  function AgeGenderTable(rows: seq<Record>): Heatmap
  {
    var ages := DistinctKeys(rows, AgeKey);
    var genders := DistinctKeys(rows, GenderKey);
    Heatmap(ages, genders,
            seq(|ages|, i requires 0 <= i < |ages| =>
              seq(|genders|, j requires 0 <= j < |genders| => CellCount(rows, ages[i], genders[j]))))
  }

  /**
   * A cell counts the distinct `User_ID`s among the rows with that age group
   * and gender, and is 0 exactly when there is no such row.
   */
  lemma CellCountSpec(rows: seq<Record>, age: string, gender: string)
    ensures CellCount(rows, age, gender)
            == |set r | r in rows && r.ageGroup == age && r.gender == gender :: r.userId|
    ensures CellCount(rows, age, gender) == 0 <==>
            forall r :: r in rows ==> !(r.ageGroup == age && r.gender == gender)
  {
    var cell := Filter(InCell(age, gender), rows);
    FilterSpec(InCell(age, gender), rows);
    DistinctKeysSpec(cell, UserKey);
    assert KeySet(cell, UserKey)
           == set r | r in rows && r.ageGroup == age && r.gender == gender :: r.userId;
    if exists r :: r in rows && r.ageGroup == age && r.gender == gender {
      var r :| r in rows && r.ageGroup == age && r.gender == gender;
      assert r.userId in KeySet(cell, UserKey);
    }
  }

  /**
   * The table's rows are the distinct age groups present, its columns the
   * distinct genders present, every combination has a cell, and each cell is
   * the number of distinct clients with that combination (0 when absent).
   */
  lemma AgeGenderTableSpec(rows: seq<Record>)
    ensures var h := AgeGenderTable(rows);
            && NoDup(h.ages) && (forall a :: a in h.ages <==> a in set r | r in rows :: r.ageGroup)
            && NoDup(h.genders) && (forall g :: g in h.genders <==> g in set r | r in rows :: r.gender)
            && |h.counts| == |h.ages|
            && (forall i :: 0 <= i < |h.ages| ==> |h.counts[i]| == |h.genders|)
    ensures var h := AgeGenderTable(rows);
            forall i, j :: 0 <= i < |h.ages| && 0 <= j < |h.genders| ==>
              && h.counts[i][j]
                 == |set r | r in rows && r.ageGroup == h.ages[i] && r.gender == h.genders[j] :: r.userId|
              && (h.counts[i][j] == 0 <==>
                  forall r :: r in rows ==> !(r.ageGroup == h.ages[i] && r.gender == h.genders[j]))
  {
    var h := AgeGenderTable(rows);
    DistinctKeysSpec(rows, AgeKey);
    DistinctKeysSpec(rows, GenderKey);
    assert KeySet(rows, AgeKey) == set r | r in rows :: r.ageGroup;
    assert KeySet(rows, GenderKey) == set r | r in rows :: r.gender;
    forall i, j | 0 <= i < |h.ages| && 0 <= j < |h.genders|
      ensures h.counts[i][j]
              == |set r | r in rows && r.ageGroup == h.ages[i] && r.gender == h.genders[j] :: r.userId|
      ensures h.counts[i][j] == 0 <==>
              forall r :: r in rows ==> !(r.ageGroup == h.ages[i] && r.gender == h.genders[j])
    {
      CellCountSpec(rows, h.ages[i], h.genders[j]);
    }
  }

  // ---------------------------------------------------------------------------
  // Orders vs spend per client
  // ---------------------------------------------------------------------------

  datatype ClientStat = ClientStat(userId: string, orders: int, amount: int)

  function StatsOver(rows: seq<Record>, users: seq<string>): seq<ClientStat>
  {
    if users == [] then []
    else [ClientStat(users[0], SumBy(rows, UserKey, OrdersOf, users[0]),
                     SumBy(rows, UserKey, AmountOf, users[0]))]
         + StatsOver(rows, users[1..])
  }

  /** Per user: the sum of their Orders and the sum of their Amounts. */
  function ClientStats(rows: seq<Record>): seq<ClientStat>
  {
    StatsOver(rows, DistinctKeys(rows, UserKey))
  }

  function SumOrders(cs: seq<ClientStat>): int
  {
    if cs == [] then 0 else cs[0].orders + SumOrders(cs[1..])
  }

  function SumAmounts(cs: seq<ClientStat>): int
  {
    if cs == [] then 0 else cs[0].amount + SumAmounts(cs[1..])
  }

  lemma {:induction false} StatsOverSpec(rows: seq<Record>, users: seq<string>)
    ensures |StatsOver(rows, users)| == |users|
    ensures forall i :: 0 <= i < |users| ==>
              StatsOver(rows, users)[i]
              == ClientStat(users[i], SumBy(rows, UserKey, OrdersOf, users[i]),
                            SumBy(rows, UserKey, AmountOf, users[i]))
    ensures SumOrders(StatsOver(rows, users)) == SumValues(GroupsOver(rows, UserKey, OrdersOf, users))
    ensures SumAmounts(StatsOver(rows, users)) == SumValues(GroupsOver(rows, UserKey, AmountOf, users))
  {
    if users != [] {
      StatsOverSpec(rows, users[1..]);
    }
  }

  /**
   * One point per distinct client, carrying the sums of that client's orders
   * and amounts; the points' orders and amounts add up to the KPI totals.
   */
  lemma ClientStatsSpec(rows: seq<Record>)
    ensures |ClientStats(rows)| == KpiSummary(rows).clients
    ensures forall i, j :: 0 <= i < j < |ClientStats(rows)| ==>
              ClientStats(rows)[i].userId != ClientStats(rows)[j].userId
    ensures forall u :: u in KeySet(rows, UserKey) ==>
              ClientStat(u, SumBy(rows, UserKey, OrdersOf, u), SumBy(rows, UserKey, AmountOf, u))
              in ClientStats(rows)
    ensures forall c :: c in ClientStats(rows) ==>
              && c.userId in KeySet(rows, UserKey)
              && c.orders == SumBy(rows, UserKey, OrdersOf, c.userId)
              && c.amount == SumBy(rows, UserKey, AmountOf, c.userId)
    ensures SumOrders(ClientStats(rows)) == KpiSummary(rows).orders
    ensures SumAmounts(ClientStats(rows)) == KpiSummary(rows).revenue
  {
    var users := DistinctKeys(rows, UserKey);
    var cs := ClientStats(rows);
    DistinctKeysSpec(rows, UserKey);
    StatsOverSpec(rows, users);
    forall u | u in KeySet(rows, UserKey)
      ensures ClientStat(u, SumBy(rows, UserKey, OrdersOf, u), SumBy(rows, UserKey, AmountOf, u)) in cs
    {
      var i :| 0 <= i < |users| && users[i] == u;
      assert cs[i] == ClientStat(u, SumBy(rows, UserKey, OrdersOf, u), SumBy(rows, UserKey, AmountOf, u));
    }
    SumGroupsTotal(rows, UserKey, OrdersOf, users);
    SumGroupsTotal(rows, UserKey, AmountOf, users);
  }

  // ---------------------------------------------------------------------------
  // Customer search
  // ---------------------------------------------------------------------------

  const NotFoundMessage := "Ничего не найдено"

  /** What the search section shows: nothing, the "nothing found" message, or a table. */
  datatype SearchView = NoOutput | Message(text: string) | Table(rows: seq<Record>)

  /** The row's customer name contains the query, ignoring ASCII case. */
  function NameMatches(query: string): Record -> bool
  {
    (r: Record) => Contains(Lower(r.custName), Lower(query))
  }

  function Search(rows: seq<Record>, query: string): SearchView
  {
    if query == [] then NoOutput
    else
      var res := Filter(NameMatches(query), rows);
      if |res| > 0 then Table(res) else Message(NotFoundMessage)
  }

  /**
   * An empty query shows nothing. Otherwise the search shows the rows whose
   * lower-cased name contains the lower-cased query, in their order and with
   * every copy of a matching row, or the
   * "nothing found" message exactly when no row matches; it never shows an
   * empty table.
   */
  lemma SearchSpec(rows: seq<Record>, query: string)
    ensures Search(rows, query).NoOutput? <==> query == []
    ensures Search(rows, query).Message? <==>
            query != [] && forall r :: r in rows ==> !Contains(Lower(r.custName), Lower(query))
    ensures Search(rows, query).Message? ==> Search(rows, query).text == NotFoundMessage
    ensures Search(rows, query).Table? ==>
              && Search(rows, query).rows != []
              && IsSubseq(Search(rows, query).rows, rows)
              && (forall r :: r in Search(rows, query).rows <==>
                                r in rows && Contains(Lower(r.custName), Lower(query)))
              && (forall r :: multiset(Search(rows, query).rows)[r]
                             == if Contains(Lower(r.custName), Lower(query)) then multiset(rows)[r] else 0)
  {
    FilterCount(NameMatches(query), rows);
    var res := Filter(NameMatches(query), rows);
    FilterSpec(NameMatches(query), rows);
    assert forall r :: r in res <==> r in rows && Contains(Lower(r.custName), Lower(query));
    if query != [] {
      if |res| == 0 {
        assert Search(rows, query) == Message(NotFoundMessage);
        assert res == [];
      } else {
        assert Search(rows, query) == Table(res);
        assert res[0] in res;
      }
    }
  }
}
