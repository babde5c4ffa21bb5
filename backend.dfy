/**
 * The backend's state, the three in-memory tables, and the operations that
 * load them from their files and answer queries over them. Each table is
 * replaced wholesale by its loader; the queries read the tables and change
 * nothing.
 */
module Backend {
  import opened Wrappers
  import opened Fields
  import opened Loading
  import opened StableSort
  import opened Counting
  import opened Records
  import opened Queries
  import opened Stats
  import opened Classify

  /** What `reload_data` reports. */
  datatype ReloadReport = ReloadReport(
    tradesSuccess: bool, statusSuccess: bool, creditSuccess: bool,
    totalTrades: nat, totalStatuses: nat, totalCreditLines: nat,
    message: string)

  /** The mark shown for a loader's outcome: a check mark or a cross. */
  function Mark(ok: bool): char {
    if ok then '\U{2705}' else '\U{274C}'
  }

  /** The summary line of a reload, one mark per file in the order trades, status, credit. */
  function ReloadMessage(trades: bool, status: bool, credit: bool): (m: string)
    ensures |m| == 50
  {
    "Reload completed - Trades: " + [Mark(trades)] + ", Status: " + [Mark(status)] + ", Credit: " + [Mark(credit)]
  }

  /** The three outcomes can be read back from the marks at their places in the line. */
  lemma ReloadMessageMarks(trades: bool, status: bool, credit: bool)
    ensures var m := ReloadMessage(trades, status, credit);
            && (m[27] == '\U{2705}' <==> trades) && (m[27] == '\U{274C}' <==> !trades)
            && (m[38] == '\U{2705}' <==> status) && (m[38] == '\U{274C}' <==> !status)
            && (m[49] == '\U{2705}' <==> credit) && (m[49] == '\U{274C}' <==> !credit)
            && m[..27] == "Reload completed - Trades: " && m[28..38] == ", Status: " && m[39..49] == ", Credit: "
  {
    var m := ReloadMessage(trades, status, credit);
    assert m[27] == Mark(trades);
    assert m[38] == Mark(status);
    assert m[49] == Mark(credit);
    ReloadMessageLabels(Mark(trades), Mark(status), Mark(credit));
  }

  lemma ReloadMessageLabels(t: char, s: char, c: char)
    ensures var m := "Reload completed - Trades: " + [t] + ", Status: " + [s] + ", Credit: " + [c];
            m[..27] == "Reload completed - Trades: " && m[28..38] == ", Status: " && m[39..49] == ", Credit: "
  {
    var a: string, b: string, d: string := "Reload completed - Trades: ", ", Status: ", ", Credit: ";
    var m := a + [t] + b + [s] + d + [c];
    assert m[..27] == a;
    assert m[28..38] == b;
    assert m[39..49] == d;
  }

  /** The first record of `s` with the client id `id`: a scan that stops at the first match. */
  method FindFirst<R>(s: seq<R>, id: string, idOf: R -> string) returns (found: Option<R>)
    ensures found == FirstWithId(s, id, idOf)
  {
    found := None;
    var i := 0;
    while i < |s|
      invariant 0 <= i <= |s|
      invariant FirstWithId(s, id, idOf) == FirstWithId(s[i..], id, idOf)
    {
      assert s[i..][1..] == s[i + 1..];
      if idOf(s[i]) == id {
        found := Some(s[i]);
        return;
      }
      i := i + 1;
    }
  }

  /** The status part of `get_stats`: one count of values per status field, none without rows. */
  method CountStatusFields(statuses: seq<ClientStatus>) returns (breakdown: seq<(string, seq<(string, nat)>)>)
    ensures breakdown == Breakdown(statuses)
  {
    breakdown := [];
    if statuses != [] {
      var fields := StatusFields;
      var f := 0;
      while f < |fields|
        invariant 0 <= f <= |fields|
        invariant breakdown == BreakdownOf(statuses, fields[..f])
      {
        BreakdownStep(statuses, fields, f);
        var fieldCounts := CountValues(Column(statuses, fields[f]));
        breakdown := breakdown + [(fields[f], fieldCounts)];
        f := f + 1;
      }
      assert fields[..|fields|] == fields;
    }
  }

  class TradesApi {
    /** `TRADES` */
    var trades: seq<Trade>
    /** `CLIENT_STATUS` */
    var statuses: seq<ClientStatus>
    /** `CREDIT_LINES` */
    var creditLines: seq<CreditLine>

    /** The tables start empty. */
    constructor()
      ensures trades == [] && statuses == [] && creditLines == []
    {
      trades := [];
      statuses := [];
      creditLines := [];
    }

    /**
     * `load_trades_from_csv`: the table becomes the kept rows of the file and
     * the result is true; a missing file installs the two sample trades, an
     * unreadable one leaves the table empty, and both report false.
     */
    method LoadTrades(src: Source) returns (ok: bool)
      modifies this
      ensures ok <==> src.Rows?
      ensures src.Rows? ==> trades == Keep(src.rows, TradeOfRow, TradeKept)
      ensures src.NotFound? ==> trades == SampleTrades()
      ensures src.ReadError? ==> trades == []
      ensures statuses == old(statuses) && creditLines == old(creditLines)
    {
      match src
      case NotFound =>
        trades := SampleTrades();
        ok := false;
      case ReadError =>
        trades := [];
        ok := false;
      case Rows(rows) =>
        trades := KeepRows(rows, TradeOfRow, TradeKept);
        ok := true;
    }

    /**
     * `load_client_status_from_csv`: as for trades, with the single sample
     * status row when the file is missing.
     */
    method LoadClientStatus(src: Source) returns (ok: bool)
      modifies this
      ensures ok <==> src.Rows?
      ensures src.Rows? ==> statuses == Keep(src.rows, StatusOfRow, StatusKept)
      ensures src.NotFound? ==> statuses == SampleStatuses()
      ensures src.ReadError? ==> statuses == []
      ensures trades == old(trades) && creditLines == old(creditLines)
    {
      match src
      case NotFound =>
        statuses := SampleStatuses();
        ok := false;
      case ReadError =>
        statuses := [];
        ok := false;
      case Rows(rows) =>
        statuses := KeepRows(rows, StatusOfRow, StatusKept);
        ok := true;
    }

    /**
     * `load_credit_lines_from_csv`: as for trades, with the single sample
     * credit line when the file is missing.
     */
    method LoadCreditLines(src: Source) returns (ok: bool)
      modifies this
      ensures ok <==> src.Rows?
      ensures src.Rows? ==> creditLines == Keep(src.rows, CreditLineOfRow, CreditLineKept)
      ensures src.NotFound? ==> creditLines == SampleCreditLines()
      ensures src.ReadError? ==> creditLines == []
      ensures trades == old(trades) && statuses == old(statuses)
    {
      match src
      case NotFound =>
        creditLines := SampleCreditLines();
        ok := false;
      case ReadError =>
        creditLines := [];
        ok := false;
      case Rows(rows) =>
        creditLines := KeepRows(rows, CreditLineOfRow, CreditLineKept);
        ok := true;
    }

    /**
     * `reload_data`: runs the three loaders in turn and reports each outcome,
     * the new table sizes and the summary line.
     */
    method ReloadData(tradesSrc: Source, statusSrc: Source, creditSrc: Source) returns (r: ReloadReport)
      modifies this
      ensures r.tradesSuccess <==> tradesSrc.Rows?
      ensures r.statusSuccess <==> statusSrc.Rows?
      ensures r.creditSuccess <==> creditSrc.Rows?
      ensures tradesSrc.Rows? ==> trades == Keep(tradesSrc.rows, TradeOfRow, TradeKept)
      ensures tradesSrc.NotFound? ==> trades == SampleTrades()
      ensures tradesSrc.ReadError? ==> trades == []
      ensures statusSrc.Rows? ==> statuses == Keep(statusSrc.rows, StatusOfRow, StatusKept)
      ensures statusSrc.NotFound? ==> statuses == SampleStatuses()
      ensures statusSrc.ReadError? ==> statuses == []
      ensures creditSrc.Rows? ==> creditLines == Keep(creditSrc.rows, CreditLineOfRow, CreditLineKept)
      ensures creditSrc.NotFound? ==> creditLines == SampleCreditLines()
      ensures creditSrc.ReadError? ==> creditLines == []
      ensures r.totalTrades == |trades| && r.totalStatuses == |statuses| && r.totalCreditLines == |creditLines|
      ensures r.message == ReloadMessage(r.tradesSuccess, r.statusSuccess, r.creditSuccess)
    {
      var tradesOk := LoadTrades(tradesSrc);
      var statusOk := LoadClientStatus(statusSrc);
      var creditOk := LoadCreditLines(creditSrc);
      r := ReloadReport(tradesOk, statusOk, creditOk, |trades|, |statuses|, |creditLines|,
                        ReloadMessage(tradesOk, statusOk, creditOk));
    }

    /**
     * `get_client_trades`: collects the client's trades in table order, sorts
     * them latest trade date first and returns the first five; fails when the
     * client has no trade.
     */
    method GetClientTrades(clientId: string) returns (r: Result<seq<Trade>, TradesError>)
      ensures r == RecentTrades(trades, clientId)
    {
      var mine: seq<Trade> := [];
      var i := 0;
      while i < |trades|
        invariant 0 <= i <= |trades|
        invariant mine == TradesOfClient(trades[..i], clientId)
      {
        assert trades[..i + 1][..i] == trades[..i];
        if trades[i].clientId == clientId {
          mine := mine + [trades[i]];
        }
        i := i + 1;
      }
      assert trades[..|trades|] == trades;
      if mine == [] {
        return Failure(NoTradesFound);
      }
      var sorted := SortDesc(mine, TradeDateKey);
      r := Success(Take(sorted, MaxTrades));
    }

    /** `get_client_status`: the first status row for the client, or the all-"Unknown" placeholder. */
    method GetClientStatus(clientId: string) returns (v: StatusView)
      ensures v == StatusReport(statuses, clientId)
    {
      var found := FindFirst(statuses, clientId, StatusClientId);
      var status := if found.Some? then found.value else UnknownStatus(clientId);
      v := ViewOfStatus(status);
    }

    /** `get_client_credit_lines`: the first credit line for the client, or the all-"0" placeholder. */
    method GetClientCreditLines(clientId: string) returns (v: CreditView)
      ensures v == CreditReport(creditLines, clientId)
    {
      var found := FindFirst(creditLines, clientId, CreditClientId);
      var line := if found.Some? then found.value else UnknownCreditLine(clientId);
      v := ViewOfCreditLine(line);
    }

    /**
     * `get_stats`: counts the trades per client and, for each status field,
     * the rows per value, then assembles the report.
     */
    method GetStats() returns (r: StatsReport)
      ensures r == StatsOf(trades, statuses, creditLines)
    {
      if trades == [] && statuses == [] {
        return NoData;
      }
      var uniqueClients: nat := 0;
      var average: real := 0.0;
      var mostTrades: Option<seq<(string, nat)>> := None;
      if trades != [] {
        var counts := CountValues(ClientIds(trades));
        uniqueClients := |counts|;
        average := AverageOf(|trades|, |counts|);
        mostTrades := Some(Take(SortDesc(counts, CountOf), MaxTopClients));
      }
      var breakdown := CountStatusFields(statuses);
      r := Report(|trades|, uniqueClients, average, mostTrades, |statuses|, breakdown, |creditLines|);
    }
  }

  // ------------------------------------------------------------ scenarios

  /**
   * Starting the backend without any of the three files: the sample data is
   * installed, every loader reports false, and the sample client's queries
   * return both sample trades, the sample status and the 75/85/105 credit
   * line with its green, amber and red lights.
   */
  method SampleStartup() returns (api: TradesApi, r: ReloadReport)
    ensures fresh(api)
    ensures !r.tradesSuccess && !r.statusSuccess && !r.creditSuccess
    ensures r.totalTrades == 2 && r.totalStatuses == 1 && r.totalCreditLines == 1
    ensures api.trades == SampleTrades() && api.statuses == SampleStatuses() && api.creditLines == SampleCreditLines()
    ensures RecentTrades(api.trades, SampleClientId) == Success(SampleTrades())
    ensures var v := StatusReport(api.statuses, SampleClientId);
            && v == ViewOfStatus(SampleStatuses()[0])
            && v.kycLight == Green && v.onboardingLight == Amber && v.ccgLight == Green
            && v.contractLight == Red && v.clientLight == Amber
    ensures var v := CreditReport(api.creditLines, SampleClientId);
            && v == ViewOfCreditLine(SampleCreditLines()[0])
            && v.spotLight == Green && v.fwdLight == Amber && v.derivLight == Red
  {
    api := new TradesApi();
    r := api.ReloadData(NotFound, NotFound, NotFound);
    SampleTradesScenario();
    SampleStatusScenario();
    SampleCreditScenario();
  }
}
