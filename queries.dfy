/**
 * The query layer as functions of the current tables: the latest trades of
 * a client, a client's status and credit lines with their traffic lights,
 * and the statistics over the loaded data.
 */
module Queries {
  import opened Wrappers
  import opened Dates
  import opened Classify
  import opened StableSort
  import opened Counting
  import opened Records

  // ---------------------------------------------------------------- trades

  datatype TradesError = NoTradesFound

  /** How many trades a trades query returns at most. */
  const MaxTrades := 5

  /** `[trade for trade in TRADES if trade['client_id'] == client_id]` */
  function TradesOfClient(trades: seq<Trade>, clientId: string): (r: seq<Trade>)
    ensures |r| <= |trades|
    ensures forall i :: 0 <= i < |r| ==> r[i].clientId == clientId
  {
    if trades == [] then []
    else
      var t := trades[|trades| - 1];
      TradesOfClient(trades[..|trades| - 1], clientId) + (if t.clientId == clientId then [t] else [])
  }

  /** The sort key of a trade: its trade date, parsed, with `datetime.min` on failure. */
  function TradeDateKey(t: Trade): int {
    DateKey(t.tradeDate)
  }

  /** `get_client_trades`: the client's trades, latest date first (stable), at most five; 404 when none. */
  function RecentTrades(trades: seq<Trade>, clientId: string): Result<seq<Trade>, TradesError> {
    var mine := TradesOfClient(trades, clientId);
    if mine == [] then Failure(NoTradesFound)
    else Success(Take(SortDesc(mine, TradeDateKey), MaxTrades))
  }

  /** The filter keeps exactly the client's trades. */
  lemma {:induction false} TradesOfClientMembers(trades: seq<Trade>, clientId: string)
    ensures forall t :: t in TradesOfClient(trades, clientId) <==> t in trades && t.clientId == clientId
  {
    if trades != [] {
      var init := trades[..|trades| - 1];
      TradesOfClientMembers(init, clientId);
      assert trades == init + [trades[|trades| - 1]];
    }
  }

  /**
   * `get_client_trades` fails exactly when no trade has the client id;
   * otherwise it returns min(5, matches) of the client's trades, latest
   * trade date first, equal dates in table order, and no trade of the
   * client left out has a later date than the last one returned: for each
   * later date, every one of the client's trades with that date, duplicates
   * included, is returned.
   */
  lemma RecentTradesCorrect(trades: seq<Trade>, clientId: string)
    ensures var r := RecentTrades(trades, clientId);
            var mine := TradesOfClient(trades, clientId);
            && (r.Failure? <==> forall i :: 0 <= i < |trades| ==> trades[i].clientId != clientId)
            && (r.Success? ==>
                  && |r.value| == (if |mine| < MaxTrades then |mine| else MaxTrades)
                  && 1 <= |r.value| <= MaxTrades
                  && (forall t :: t in r.value ==> t in trades && t.clientId == clientId)
                  && (forall i, j :: 0 <= i < j < |r.value| ==>
                        DateKey(r.value[i].tradeDate) >= DateKey(r.value[j].tradeDate))
                  && (forall k :: WithKey(r.value, TradeDateKey, k) <= WithKey(mine, TradeDateKey, k))
                  && (forall t :: (t in trades && t.clientId == clientId
                        && DateKey(t.tradeDate) > DateKey(r.value[|r.value| - 1].tradeDate)) ==> t in r.value)
                  && (forall k :: k > DateKey(r.value[|r.value| - 1].tradeDate) ==>
                        WithKey(r.value, TradeDateKey, k) == WithKey(mine, TradeDateKey, k)))
  {
    var mine := TradesOfClient(trades, clientId);
    TradesOfClientMembers(trades, clientId);
    if mine == [] {
      forall i | 0 <= i < |trades| ensures trades[i].clientId != clientId {
        assert trades[i] !in mine;
      }
    } else {
      assert mine[0] in trades;
      TopByKey(mine, TradeDateKey, MaxTrades);
    }
  }

  /**
   * `parse_date` never aborts the sort: a returned trade whose date does not
   * parse comes after every returned trade whose date parses to anything
   * later than `datetime.min`.
   */
  lemma UnparsableTradesLast(trades: seq<Trade>, clientId: string, i: nat, j: nat)
    requires RecentTrades(trades, clientId).Success?
    requires var r := RecentTrades(trades, clientId).value;
             && i < |r| && j < |r|
             && ParseDate(r[i].tradeDate).None?
             && ParseDate(r[j].tradeDate).Some? && ParseDate(r[j].tradeDate).value != MinDate
    ensures j < i
  {
    var r := RecentTrades(trades, clientId).value;
    RecentTradesCorrect(trades, clientId);
    UnparsableIsEarliest(r[i].tradeDate, r[j].tradeDate);
  }

  /**
   * With the sample data, the sample client's trades come back dated
   * 06/07/2025 first and 05/07/2025 second.
   */
  lemma SampleTradesScenario()
    ensures RecentTrades(SampleTrades(), SampleClientId) == Success(SampleTrades())
  {
    var s := SampleTrades();
    SampleDateKeys();
    TwoTradesInDateOrder(s[0], s[1], SampleClientId);
    assert s == [s[0], s[1]];
  }

  /** Two trades of the client, the later one first, come back as they are. */
  lemma TwoTradesInDateOrder(a: Trade, b: Trade, clientId: string)
    requires a.clientId == clientId && b.clientId == clientId
    requires DateKey(a.tradeDate) >= DateKey(b.tradeDate)
    ensures RecentTrades([a, b], clientId) == Success([a, b])
  {
    TradesOfClientAll([a, b], clientId);
    assert SortedDesc([a, b], TradeDateKey);
    SortDescOfSorted([a, b], TradeDateKey);
  }

  lemma SampleDateKeys()
    ensures DateKey("06/07/2025") > DateKey("05/07/2025")
  {
    assert FormatDate(Date(2025, 7, 6)) == "06/07/2025";
    assert FormatDate(Date(2025, 7, 5)) == "05/07/2025";
    ParseFormatDate(Date(2025, 7, 6));
    ParseFormatDate(Date(2025, 7, 5));
  }

  /** When every trade is the client's, the filter keeps the whole table. */
  lemma {:induction false} TradesOfClientAll(trades: seq<Trade>, clientId: string)
    requires forall i :: 0 <= i < |trades| ==> trades[i].clientId == clientId
    ensures TradesOfClient(trades, clientId) == trades
  {
    if trades != [] {
      TradesOfClientAll(trades[..|trades| - 1], clientId);
    }
  }

  // ------------------------------------------------------------- lookups

  /** The first record of `s` with the given client id, if any (`for ... break`). */
  function FirstWithId<R>(s: seq<R>, id: string, idOf: R -> string): (r: Option<R>)
    ensures r.Some? ==> idOf(r.value) == id
  {
    if s == [] then None
    else if idOf(s[0]) == id then Some(s[0])
    else FirstWithId(s[1..], id, idOf)
  }

  /** The lookup finds the first match, and finds nothing only when nothing matches. */
  lemma {:induction false} FirstWithIdCorrect<R>(s: seq<R>, id: string, idOf: R -> string)
    ensures FirstWithId(s, id, idOf).None? <==> forall i :: 0 <= i < |s| ==> idOf(s[i]) != id
    ensures FirstWithId(s, id, idOf).Some? ==>
              exists i :: 0 <= i < |s| && s[i] == FirstWithId(s, id, idOf).value
                          && forall j :: 0 <= j < i ==> idOf(s[j]) != id
  {
    if s != [] && idOf(s[0]) != id {
      FirstWithIdCorrect(s[1..], id, idOf);
      if FirstWithId(s, id, idOf).Some? {
        var i :| 0 <= i < |s[1..]| && s[1..][i] == FirstWithId(s, id, idOf).value
                 && forall j :: 0 <= j < i ==> idOf(s[1..][j]) != id;
        assert s[i + 1] == FirstWithId(s, id, idOf).value;
      }
    }
  }

  function StatusClientId(s: ClientStatus): string { s.clientId }

  function CreditClientId(c: CreditLine): string { c.clientId }

  // -------------------------------------------------------------- status

  datatype StatusView = StatusView(
    clientId: string, clientName: string,
    kycStatus: string, kycLight: Light,
    onboardingStatus: string, onboardingLight: Light,
    ccgStatus: string, ccgLight: Light,
    contractStatus: string, contractLight: Light,
    clientStatus: string, clientLight: Light,
    statusLine: string)

  /** The placeholder for a client with no status row. */
  function UnknownStatus(clientId: string): ClientStatus {
    ClientStatus(clientId, "Unknown", "Unknown", "Unknown", "Unknown", "Unknown", "Unknown")
  }

  /** A status row with each field's light and the summary line. */
  function ViewOfStatus(s: ClientStatus): StatusView {
    var kyc, onboarding, ccg := StatusLight(s.kycStatus), StatusLight(s.onboardingStatus), StatusLight(s.ccgStatus);
    var contract, client := StatusLight(s.contractStatus), StatusLight(s.clientStatus);
    StatusView(s.clientId, s.clientName,
               s.kycStatus, kyc, s.onboardingStatus, onboarding, s.ccgStatus, ccg,
               s.contractStatus, contract, s.clientStatus, client,
               StatusLine(kyc, onboarding, ccg, contract, client))
  }

  /** `get_client_status`: the first row for the client, or the placeholder; never fails. */
  function StatusReport(statuses: seq<ClientStatus>, clientId: string): StatusView {
    match FirstWithId(statuses, clientId, StatusClientId)
    case Some(s) => ViewOfStatus(s)
    case None => ViewOfStatus(UnknownStatus(clientId))
  }

  /** Each light is its field's classification, and the line carries them in order. */
  lemma ViewOfStatusLights(s: ClientStatus)
    ensures var v := ViewOfStatus(s);
            && v.clientId == s.clientId
            && v.kycLight == StatusLight(v.kycStatus) && v.onboardingLight == StatusLight(v.onboardingStatus)
            && v.ccgLight == StatusLight(v.ccgStatus) && v.contractLight == StatusLight(v.contractStatus)
            && v.clientLight == StatusLight(v.clientStatus)
            && LightsOfStatusLine(v.statusLine)
               == Some((v.kycLight, v.onboardingLight, v.ccgLight, v.contractLight, v.clientLight))
  {
    var v := ViewOfStatus(s);
    StatusLineRoundTrip(v.kycLight, v.onboardingLight, v.ccgLight, v.contractLight, v.clientLight);
  }

  /** The placeholder is all "Unknown" and all white. */
  lemma UnknownStatusView(clientId: string)
    ensures var v := ViewOfStatus(UnknownStatus(clientId));
            && v.clientId == clientId && v.clientName == "Unknown"
            && v.kycStatus == v.onboardingStatus == v.ccgStatus == v.contractStatus == v.clientStatus == "Unknown"
            && v.kycLight == v.onboardingLight == v.ccgLight == v.contractLight == v.clientLight == White
  {
    StatusLightExamples();
  }

  /**
   * The status view shows the first row for the client with each field's
   * light, or, when there is none, the placeholder whose name and statuses
   * are all "Unknown" and whose lights are all white; either way the summary
   * line carries the five lights in the order KYC, Onboarding, CCG,
   * Contract, Client.
   */
  lemma StatusReportCorrect(statuses: seq<ClientStatus>, clientId: string)
    ensures var v := StatusReport(statuses, clientId);
            && v.clientId == clientId
            && v.kycLight == StatusLight(v.kycStatus) && v.onboardingLight == StatusLight(v.onboardingStatus)
            && v.ccgLight == StatusLight(v.ccgStatus) && v.contractLight == StatusLight(v.contractStatus)
            && v.clientLight == StatusLight(v.clientStatus)
            && LightsOfStatusLine(v.statusLine)
               == Some((v.kycLight, v.onboardingLight, v.ccgLight, v.contractLight, v.clientLight))
            && ((exists i :: 0 <= i < |statuses| && statuses[i].clientId == clientId) ==>
                  exists i :: 0 <= i < |statuses| && statuses[i].clientId == clientId
                              && (forall j :: 0 <= j < i ==> statuses[j].clientId != clientId)
                              && v == ViewOfStatus(statuses[i]))
            && ((forall i :: 0 <= i < |statuses| ==> statuses[i].clientId != clientId) ==>
                  v == ViewOfStatus(UnknownStatus(clientId)))
  {
    var found := FirstWithId(statuses, clientId, StatusClientId);
    FirstWithIdCorrect(statuses, clientId, StatusClientId);
    match found
    case Some(s) => ViewOfStatusLights(s);
    case None => ViewOfStatusLights(UnknownStatus(clientId));
  }

  // -------------------------------------------------------------- credit

  datatype CreditView = CreditView(
    clientId: string, clientName: string,
    spotApproved: string, spotUsed: string, spotPercent: string, spotLight: Light,
    fwdApproved: string, fwdUsed: string, fwdPercent: string, fwdLight: Light,
    derivApproved: string, derivUsed: string, derivPercent: string, derivLight: Light,
    creditLine: string)

  /** The placeholder for a client with no credit-line row. */
  function UnknownCreditLine(clientId: string): CreditLine {
    CreditLine(clientId, "Unknown", "0", "0", "0", "0", "0", "0", "0", "0", "0")
  }

  function ViewOfCreditLine(c: CreditLine): CreditView {
    CreditView(c.clientId, c.clientName,
               c.spotApproved, c.spotUsed, c.spotPercent, CreditLight(c.spotPercent),
               c.fwdApproved, c.fwdUsed, c.fwdPercent, CreditLight(c.fwdPercent),
               c.derivApproved, c.derivUsed, c.derivPercent, CreditLight(c.derivPercent),
               CreditLineText(c.spotPercent, c.fwdPercent, c.derivPercent))
  }

  /** `get_client_credit_lines`: the first row for the client, or the all-zero placeholder; never fails. */
  function CreditReport(lines: seq<CreditLine>, clientId: string): CreditView {
    ViewOfCreditLine(CreditLineOf(lines, clientId))
  }

  /** The placeholder is all "0", and "0" is green. */
  lemma UnknownCreditView(clientId: string)
    ensures var v := ViewOfCreditLine(UnknownCreditLine(clientId));
            && v.clientId == clientId && v.clientName == "Unknown"
            && v.spotPercent == v.fwdPercent == v.derivPercent == "0"
            && v.spotApproved == v.spotUsed == v.fwdApproved == v.fwdUsed == "0"
            && v.derivApproved == v.derivUsed == "0"
            && v.spotLight == v.fwdLight == v.derivLight == Green
  {
    CreditLightOfZero();
  }

  /**
   * The credit view shows the first row for the client with each category's
   * light, or, when there is none, the placeholder whose amounts and
   * percentages are all "0".
   */
  lemma CreditReportCorrect(lines: seq<CreditLine>, clientId: string)
    ensures var v := CreditReport(lines, clientId);
            && v.clientId == clientId
            && v.spotLight == CreditLight(v.spotPercent) && v.fwdLight == CreditLight(v.fwdPercent)
            && v.derivLight == CreditLight(v.derivPercent)
            && v.creditLine == CreditLineText(v.spotPercent, v.fwdPercent, v.derivPercent)
            && ((exists i :: 0 <= i < |lines| && lines[i].clientId == clientId) ==>
                  exists i :: 0 <= i < |lines| && lines[i].clientId == clientId
                              && (forall j :: 0 <= j < i ==> lines[j].clientId != clientId)
                              && v == ViewOfCreditLine(lines[i]))
            && ((forall i :: 0 <= i < |lines| ==> lines[i].clientId != clientId) ==>
                  v == ViewOfCreditLine(UnknownCreditLine(clientId)))
  {
    var c := CreditLineOf(lines, clientId);
    CreditLineOfFindsFirst(lines, clientId);
    CreditViewConsistent(c);
    if exists i :: 0 <= i < |lines| && lines[i].clientId == clientId {
      var i :| 0 <= i < |lines| && lines[i].clientId == clientId
               && (forall j :: 0 <= j < i ==> lines[j].clientId != clientId) && c == lines[i];
      assert CreditReport(lines, clientId) == ViewOfCreditLine(lines[i]);
    }
  }

  /** The row a credit view is built from. */
  function CreditLineOf(lines: seq<CreditLine>, clientId: string): CreditLine {
    match FirstWithId(lines, clientId, CreditClientId)
    case Some(c) => c
    case None => UnknownCreditLine(clientId)
  }

  /** The row shown is the first row for the client, or the placeholder when there is none. */
  lemma CreditLineOfFindsFirst(lines: seq<CreditLine>, clientId: string)
    ensures var c := CreditLineOf(lines, clientId);
            && c.clientId == clientId
            && ((exists i :: 0 <= i < |lines| && lines[i].clientId == clientId) ==>
                  exists i :: 0 <= i < |lines| && lines[i].clientId == clientId
                              && (forall j :: 0 <= j < i ==> lines[j].clientId != clientId)
                              && c == lines[i])
            && ((forall i :: 0 <= i < |lines| ==> lines[i].clientId != clientId) ==>
                  c == UnknownCreditLine(clientId))
  {
    FirstWithIdCorrect(lines, clientId, CreditClientId);
  }

  /** A credit view's lights and summary line are those of its own percentages. */
  lemma CreditViewConsistent(c: CreditLine)
    ensures var v := ViewOfCreditLine(c);
            && v.clientId == c.clientId
            && v.spotLight == CreditLight(v.spotPercent) && v.fwdLight == CreditLight(v.fwdPercent)
            && v.derivLight == CreditLight(v.derivPercent)
            && v.creditLine == CreditLineText(v.spotPercent, v.fwdPercent, v.derivPercent)
  {
  }

  /** The sample credit line is green for Spot (75), amber for Fwd (85) and red for Derivados (105). */
  lemma SampleCreditScenario()
    ensures var v := CreditReport(SampleCreditLines(), SampleClientId);
            v.spotLight == Green && v.fwdLight == Amber && v.derivLight == Red
  {
    CreditLightOfSamples();
  }

  /**
   * The sample status row is shown for the sample client: KYC "OK" and CCG
   * "OK" are green, Onboarding and Client "En Curso" amber, Contract "NOK" red.
   */
  lemma SampleStatusScenario()
    ensures var v := StatusReport(SampleStatuses(), SampleClientId);
            && v == ViewOfStatus(SampleStatuses()[0])
            && v.kycLight == Green && v.onboardingLight == Amber && v.ccgLight == Green
            && v.contractLight == Red && v.clientLight == Amber
  {
    StatusLightExamples();
  }
}
