/**
 * `get_stats` as a function of the three tables: the totals, how many
 * distinct clients have trades, the average number of trades per such
 * client, the five clients with the most trades, and for each status field
 * how many rows hold each value.
 */
module Stats {
  import opened Wrappers
  import opened StableSort
  import opened Counting
  import opened Records
  import opened Queries

  datatype StatsReport =
    | NoData
    | Report(
        totalTrades: nat,
        uniqueClients: nat,
        avgTradesPerClient: real,
        mostTrades: Option<seq<(string, nat)>>,
        totalStatuses: nat,
        statusBreakdown: seq<(string, seq<(string, nat)>)>,
        totalCreditLines: nat)

  /** How many clients the "most trades" list holds at most. */
  const MaxTopClients := 5

  /** The status fields broken down, in the order the report lists them. */
  const StatusFields: seq<string> := ["kyc_status", "onboarding_status", "ccg_status", "contract_status", "client_status"]

  /** The client id of every trade, in table order. */
  function ClientIds(trades: seq<Trade>): (r: seq<string>)
    ensures |r| == |trades|
    ensures forall i :: 0 <= i < |r| ==> r[i] == trades[i].clientId
  {
    if trades == [] then []
    else ClientIds(trades[..|trades| - 1]) + [trades[|trades| - 1].clientId]
  }

  /** `status.get(field, 'Unknown')` on a status record. */
  function StatusField(s: ClientStatus, field: string): string {
    if field == "kyc_status" then s.kycStatus
    else if field == "onboarding_status" then s.onboardingStatus
    else if field == "ccg_status" then s.ccgStatus
    else if field == "contract_status" then s.contractStatus
    else if field == "client_status" then s.clientStatus
    else "Unknown"
  }

  /** The value of `field` in every status row, in table order. */
  function Column(statuses: seq<ClientStatus>, field: string): (r: seq<string>)
    ensures |r| == |statuses|
    ensures forall i :: 0 <= i < |r| ==> r[i] == StatusField(statuses[i], field)
  {
    if statuses == [] then []
    else Column(statuses[..|statuses| - 1], field) + [StatusField(statuses[|statuses| - 1], field)]
  }

  /** The count of an item of a tally, the sort key of the "most trades" list. */
  function CountOf(item: (string, nat)): int {
    item.1
  }

  /** `sorted(client_counts.items(), key=lambda x: x[1], reverse=True)[:5]` */
  function TopClients(counts: seq<(string, nat)>): seq<(string, nat)> {
    Take(SortDesc(counts, CountOf), MaxTopClients)
  }

  /** One counted column per field of `fields`, in the order of `fields`. */
  function BreakdownOf(statuses: seq<ClientStatus>, fields: seq<string>): (r: seq<(string, seq<(string, nat)>)>)
    ensures |r| == |fields|
    ensures forall i :: 0 <= i < |r| ==> r[i] == (fields[i], Tally(Column(statuses, fields[i])))
  {
    if fields == [] then []
    else
      var f := fields[|fields| - 1];
      BreakdownOf(statuses, fields[..|fields| - 1]) + [(f, Tally(Column(statuses, f)))]
  }

  /** One more field counted: its entry is appended. */
  lemma BreakdownStep(statuses: seq<ClientStatus>, fields: seq<string>, f: nat)
    requires f < |fields|
    ensures BreakdownOf(statuses, fields[..f + 1])
            == BreakdownOf(statuses, fields[..f]) + [(fields[f], Tally(Column(statuses, fields[f])))]
  {
    assert fields[..f + 1][..f] == fields[..f];
  }

  /** The status breakdown: empty without status rows, otherwise one entry per status field. */
  function Breakdown(statuses: seq<ClientStatus>): seq<(string, seq<(string, nat)>)> {
    if statuses == [] then [] else BreakdownOf(statuses, StatusFields)
  }

  /**
   * `len(TRADES) / len(client_counts) if client_counts else 0`: the mean
   * number of items per group, zero when there are no groups.
   */
  function AverageOf(total: nat, groups: nat): (avg: real)
    ensures groups == 0 ==> avg == 0.0
    ensures groups >= 1 ==> avg * groups as real == total as real
    ensures 1 <= groups <= total ==> avg >= 1.0
  {
    if groups == 0 then 0.0 else total as real / groups as real
  }

  /** `get_stats` over the current tables. */
  function StatsOf(trades: seq<Trade>, statuses: seq<ClientStatus>, lines: seq<CreditLine>): StatsReport {
    if trades == [] && statuses == [] then NoData
    else
      var counts := Tally(ClientIds(trades));
      Report(
        |trades|,
        if trades == [] then 0 else |counts|,
        if trades == [] then 0.0 else AverageOf(|trades|, |counts|),
        if trades == [] then None else Some(TopClients(counts)),
        |statuses|,
        Breakdown(statuses),
        |lines|)
  }

  // ---------------------------------------------------------------- facts

  /** The number of times a client id occurs is the number of trades the trades query filters for it. */
  lemma {:induction false} OccurrencesAreClientTrades(trades: seq<Trade>, clientId: string)
    ensures Occurrences(ClientIds(trades), clientId) == |TradesOfClient(trades, clientId)|
  {
    if trades != [] {
      var init := trades[..|trades| - 1];
      OccurrencesAreClientTrades(init, clientId);
      assert ClientIds(trades)[..|trades| - 1] == ClientIds(init);
    }
  }

  /** The distinct values of the client-id column are the distinct client ids of the table. */
  lemma ClientIdSet(trades: seq<Trade>)
    ensures (set x | x in ClientIds(trades)) == (set t | t in trades :: t.clientId)
  {
    var ids := ClientIds(trades);
    forall x | x in ids ensures x in (set t | t in trades :: t.clientId) {
      var i :| 0 <= i < |ids| && ids[i] == x;
      assert trades[i] in trades;
    }
    forall t | t in trades ensures t.clientId in ids {
      var i :| 0 <= i < |trades| && trades[i] == t;
      assert ids[i] == t.clientId;
    }
  }

  /** The tally of the client-id column has one entry per distinct client id. */
  lemma UniqueClients(trades: seq<Trade>)
    ensures |Tally(ClientIds(trades))| == |set t | t in trades :: t.clientId|
  {
    DistinctCardinality(ClientIds(trades));
    ClientIdSet(trades);
  }

  /** A non-empty column has at least one and at most as many distinct values as entries. */
  lemma TallySize(ids: seq<string>)
    requires ids != []
    ensures 1 <= |Tally(ids)| <= |ids|
  {
    TallySum(ids);
    TallyEntries(ids);
    TallyCovers(ids);
    assert ids[0] in ids;
    SumCountsBound(Tally(ids));
  }

  /** Counts of at least one each sum to at least the number of entries. */
  lemma {:induction false} SumCountsBound(items: seq<(string, nat)>)
    requires forall i :: 0 <= i < |items| ==> items[i].1 >= 1
    ensures SumCounts(items) >= |items|
  {
    if items != [] {
      SumCountsBound(items[..|items| - 1]);
    }
  }

  /** Each listed client is a client of the table, with its number of trades. */
  lemma TopClientsEntries(trades: seq<Trade>)
    ensures var top := TopClients(Tally(ClientIds(trades)));
            forall i :: 0 <= i < |top| ==>
              top[i].0 in ClientIds(trades) && top[i].1 == |TradesOfClient(trades, top[i].0)|
  {
    var ids := ClientIds(trades);
    var counts := Tally(ids);
    var top := TopClients(counts);
    TallyEntries(ids);
    TopFromInput(counts, CountOf, MaxTopClients);
    forall i | 0 <= i < |top| ensures top[i].0 in ids && top[i].1 == |TradesOfClient(trades, top[i].0)| {
      assert top[i] in counts;
      OccurrencesAreClientTrades(trades, top[i].0);
    }
  }

  /** No client with more trades than the last one listed is left out. */
  lemma TopClientsKeepBusier(trades: seq<Trade>, c: string)
    requires TopClients(Tally(ClientIds(trades))) != []
    requires c in ClientIds(trades)
    requires |TradesOfClient(trades, c)| > TopClients(Tally(ClientIds(trades)))[|TopClients(Tally(ClientIds(trades)))| - 1].1
    ensures exists i :: 0 <= i < |TopClients(Tally(ClientIds(trades)))| && TopClients(Tally(ClientIds(trades)))[i].0 == c
  {
    var ids := ClientIds(trades);
    var counts := Tally(ids);
    var top := TopClients(counts);
    TallyCovers(ids);
    TallyEntries(ids);
    var j :| 0 <= j < |counts| && counts[j].0 == c;
    OccurrencesAreClientTrades(trades, c);
    assert counts[j] in counts;
    TopKeepsBetter(counts, CountOf, MaxTopClients, counts[j]);
    var i :| 0 <= i < |top| && top[i] == counts[j];
  }

  /** Every client with more trades than the last one listed is listed. */
  lemma TopClientsComplete(trades: seq<Trade>)
    ensures var top := TopClients(Tally(ClientIds(trades)));
            top != [] ==> forall c :: (c in ClientIds(trades)
              && |TradesOfClient(trades, c)| > top[|top| - 1].1) ==> exists i :: 0 <= i < |top| && top[i].0 == c
  {
    var top := TopClients(Tally(ClientIds(trades)));
    if top != [] {
      forall c | c in ClientIds(trades) && |TradesOfClient(trades, c)| > top[|top| - 1].1
        ensures exists i :: 0 <= i < |top| && top[i].0 == c
      {
        TopClientsKeepBusier(trades, c);
      }
    }
  }

  /** The listed counts never increase, and there are min(5, clients) of them. */
  lemma TopClientsOrdered(counts: seq<(string, nat)>)
    ensures var top := TopClients(counts);
            && |top| == (if |counts| < MaxTopClients then |counts| else MaxTopClients)
            && forall i, j :: 0 <= i < j < |top| ==> top[i].1 >= top[j].1
  {
    var top := TopClients(counts);
    TopFromInput(counts, CountOf, MaxTopClients);
    TopSorted(counts, CountOf, MaxTopClients);
    forall i, j | 0 <= i < j < |top| ensures top[i].1 >= top[j].1 {
      assert CountOf(top[i]) >= CountOf(top[j]);
    }
  }

  /** For every count, the listed clients with it are the first ones with it. */
  lemma TopClientsStable(counts: seq<(string, nat)>)
    ensures forall k :: WithKey(TopClients(counts), CountOf, k) <= WithKey(counts, CountOf, k)
  {
    forall k ensures WithKey(TopClients(counts), CountOf, k) <= WithKey(counts, CountOf, k) {
      TopWithKey(counts, CountOf, MaxTopClients, k);
    }
  }

  /**
   * The "most trades" list holds min(5, clients) entries, each a client of
   * the table with its number of trades, by number of trades descending;
   * clients with equal counts keep the order in which they first appear in
   * the trades table; and no client left out has more trades than the last
   * one listed.
   */
  lemma TopClientsCorrect(trades: seq<Trade>)
    ensures var counts := Tally(ClientIds(trades));
            var top := TopClients(counts);
            && |top| == (if |counts| < MaxTopClients then |counts| else MaxTopClients)
            && (forall i :: 0 <= i < |top| ==>
                  && top[i].0 in ClientIds(trades)
                  && top[i].1 == |TradesOfClient(trades, top[i].0)|)
            && (forall i, j :: 0 <= i < j < |top| ==> top[i].1 >= top[j].1)
            && (forall k :: WithKey(top, CountOf, k) <= WithKey(counts, CountOf, k))
            && (top != [] ==> forall c :: (c in ClientIds(trades)
                  && |TradesOfClient(trades, c)| > top[|top| - 1].1) ==> exists i :: 0 <= i < |top| && top[i].0 == c)
  {
    var counts := Tally(ClientIds(trades));
    var top := TopClients(counts);
    TopClientsOrdered(counts);
    TopClientsStable(counts);
    TopClientsEntries(trades);
    TopClientsComplete(trades);
  }

  /**
   * Each field's breakdown lists every value the field takes, each once,
   * with its number of rows, in first-appearance order, the counts summing
   * to the number of status rows.
   */
  lemma BreakdownCorrect(statuses: seq<ClientStatus>)
    ensures var b := Breakdown(statuses);
            && (statuses == [] <==> b == [])
            && (statuses != [] ==>
                  && |b| == |StatusFields|
                  && forall i :: 0 <= i < |b| ==>
                       && b[i].0 == StatusFields[i]
                       && ColumnCounted(Column(statuses, StatusFields[i]), b[i].1))
  {
    if statuses != [] {
      var b := Breakdown(statuses);
      forall i | 0 <= i < |b| ensures ColumnCounted(Column(statuses, StatusFields[i]), b[i].1) {
        TallyCounts(Column(statuses, StatusFields[i]));
      }
    }
  }

  /**
   * `counts` counts `column`: every value the column takes appears, each
   * with its number of occurrences, as many entries as distinct values, in
   * the order of their first appearance in the column, and the counts sum
   * to the length of the column.
   */
  ghost predicate ColumnCounted(column: seq<string>, counts: seq<(string, nat)>) {
    && SumCounts(counts) == |column|
    && |counts| == |set x | x in column|
    && (forall j :: 0 <= j < |counts| ==> counts[j].0 in column && counts[j].1 == Occurrences(column, counts[j].0))
    && (forall x :: x in column ==> exists j :: 0 <= j < |counts| && counts[j].0 == x)
    && (forall i, j :: 0 <= i < j < |counts| && counts[i].0 in column && counts[j].0 in column ==>
          FirstIndex(column, counts[i].0) < FirstIndex(column, counts[j].0))
  }

  lemma TallyCounts(column: seq<string>)
    ensures ColumnCounted(column, Tally(column))
  {
    TallyCorrect(column);
  }

  /**
   * `get_stats` reports "No data loaded" exactly when there are neither
   * trades nor statuses; otherwise it reports the three table sizes, the
   * number of distinct clients with trades, the average number of trades
   * per such client (at least one), and a "most trades" list exactly when
   * there are trades.
   */
  lemma StatsCorrect(trades: seq<Trade>, statuses: seq<ClientStatus>, lines: seq<CreditLine>)
    ensures var r := StatsOf(trades, statuses, lines);
            && (r.NoData? <==> trades == [] && statuses == [])
            && (r.Report? ==>
                  && r.totalTrades == |trades| && r.totalStatuses == |statuses| && r.totalCreditLines == |lines|
                  && r.uniqueClients == |set t | t in trades :: t.clientId|
                  && (trades == [] <==> r.uniqueClients == 0)
                  && (trades == [] ==> r.avgTradesPerClient == 0.0 && r.mostTrades.None?)
                  && (trades != [] ==>
                        && 1 <= r.uniqueClients <= |trades|
                        && r.avgTradesPerClient == AverageOf(|trades|, r.uniqueClients)
                        && r.avgTradesPerClient >= 1.0
                        && r.mostTrades == Some(TopClients(Tally(ClientIds(trades)))))
                  && r.statusBreakdown == Breakdown(statuses))
  {
    var r := StatsOf(trades, statuses, lines);
    var counts := Tally(ClientIds(trades));
    UniqueClients(trades);
    if trades != [] {
      TallySize(ClientIds(trades));
    } else {
      assert (set t | t in trades :: t.clientId) == {};
    }
  }
}
