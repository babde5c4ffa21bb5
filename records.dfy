/**
 * The three kinds of record the backend holds, how each is extracted from a
 * CSV row, which rows are kept, and the built-in sample data used when a
 * file is missing.
 */
module Records {
  import opened Text
  import opened Fields

  datatype Trade = Trade(
    tradeNumber: string, clientId: string, clientName: string,
    tradeDate: string, startDate: string, product: string, direction: string,
    currencyPair: string, notionalAmount: string, price: string, spread: string,
    expiryDate: string)

  datatype ClientStatus = ClientStatus(
    clientId: string, clientName: string,
    kycStatus: string, onboardingStatus: string, ccgStatus: string,
    contractStatus: string, clientStatus: string)

  datatype CreditLine = CreditLine(
    clientId: string, clientName: string,
    spotApproved: string, spotUsed: string, spotPercent: string,
    fwdApproved: string, fwdUsed: string, fwdPercent: string,
    derivApproved: string, derivUsed: string, derivPercent: string)

  /** A trades row: every field with default "". */
  function TradeOfRow(row: Row): Trade
  {
    Trade(
      SafeGet(row, "trade_number", ""), SafeGet(row, "client_id", ""), SafeGet(row, "client_name", ""),
      SafeGet(row, "trade_date", ""), SafeGet(row, "start_date", ""), SafeGet(row, "product", ""),
      SafeGet(row, "direction", ""), SafeGet(row, "currency_pair", ""), SafeGet(row, "notional_amount", ""),
      SafeGet(row, "price", ""), SafeGet(row, "spread", ""), SafeGet(row, "expiry_date", ""))
  }

  /** A status row: the five status fields default to "Unknown". */
  function StatusOfRow(row: Row): ClientStatus
  {
    ClientStatus(
      SafeGet(row, "client_id", ""), SafeGet(row, "client_name", ""),
      SafeGet(row, "kyc_status", "Unknown"), SafeGet(row, "onboarding_status", "Unknown"),
      SafeGet(row, "ccg_status", "Unknown"), SafeGet(row, "contract_status", "Unknown"),
      SafeGet(row, "client_status", "Unknown"))
  }

  /** A credit-line row: the amounts and percentages default to "0". */
  function CreditLineOfRow(row: Row): CreditLine
  {
    CreditLine(
      SafeGet(row, "client_id", ""), SafeGet(row, "client_name", ""),
      SafeGet(row, "spot_line_approved", "0"), SafeGet(row, "spot_line_used", "0"), SafeGet(row, "spot_line_%", "0"),
      SafeGet(row, "fwd_line_approved", "0"), SafeGet(row, "fwd_line_used", "0"), SafeGet(row, "fwd_line_%", "0"),
      SafeGet(row, "deriv_line_approved", "0"), SafeGet(row, "deriv_line_used", "0"), SafeGet(row, "deriv_line_%", "0"))
  }

  /**
   * Every field of a converted trade comes without surrounding whitespace,
   * whatever the row holds, since each is `safe_get` with the default "".
   */
  lemma TradeFieldsTrimmed(row: Row)
    ensures var t := TradeOfRow(row);
            && Trimmed(t.tradeNumber) && Trimmed(t.clientId) && Trimmed(t.clientName)
            && Trimmed(t.tradeDate) && Trimmed(t.startDate) && Trimmed(t.product)
            && Trimmed(t.direction) && Trimmed(t.currencyPair) && Trimmed(t.notionalAmount)
            && Trimmed(t.price) && Trimmed(t.spread) && Trimmed(t.expiryDate)
  {
    SafeGetAllTrimmed(row, "");
  }

  /** A trade is kept when both its trade number and its client id are non-empty. */
  predicate TradeKept(t: Trade) {
    t.tradeNumber != "" && t.clientId != ""
  }

  /** A status or credit-line row is kept when its client id is non-empty. */
  predicate StatusKept(s: ClientStatus) {
    s.clientId != ""
  }

  predicate CreditLineKept(c: CreditLine) {
    c.clientId != ""
  }

  /** A trades row is dropped exactly when its trade number or client id cell is missing, null or blank. */
  lemma TradeKeptIff(row: Row)
    ensures TradeKept(TradeOfRow(row)) <==>
              && ("trade_number" in row && row["trade_number"].Str? && !AllSpace(row["trade_number"].s))
              && ("client_id" in row && row["client_id"].Str? && !AllSpace(row["client_id"].s))
  {
    SafeGetEmptyIff(row, "trade_number");
    SafeGetEmptyIff(row, "client_id");
  }

  /** A status or credit-line row is dropped exactly when its client id cell is missing, null or blank. */
  lemma ClientKeptIff(row: Row)
    ensures StatusKept(StatusOfRow(row)) <==>
              "client_id" in row && row["client_id"].Str? && !AllSpace(row["client_id"].s)
    ensures CreditLineKept(CreditLineOfRow(row)) <==> StatusKept(StatusOfRow(row))
  {
    SafeGetEmptyIff(row, "client_id");
  }

  const SampleClientId := "93.685.712-6"
  const SampleClientName := "Comercial Metropolitana SA"

  /** The two trades used when the trades file is missing. */
  function SampleTrades(): seq<Trade> {
    [ Trade("T2025001", SampleClientId, SampleClientName, "06/07/2025", "06/07/2025", "Spot", "Buy",
            "USD/CLP", "1000000", "950.25", "2.5", ""),
      Trade("T2025002", SampleClientId, SampleClientName, "05/07/2025", "08/07/2025", "Forward", "Sell",
            "EUR/CLP", "500000", "1025.80", "3.0", "08/08/2025") ]
  }

  /** The status row used when the status file is missing. */
  function SampleStatuses(): seq<ClientStatus> {
    [ ClientStatus(SampleClientId, SampleClientName, "OK", "En Curso", "OK", "NOK", "En Curso") ]
  }

  /** The credit-line row used when the credit-lines file is missing. */
  function SampleCreditLines(): seq<CreditLine> {
    [ CreditLine(SampleClientId, SampleClientName, "1000000", "750000", "75",
                 "500000", "425000", "85", "200000", "210000", "105") ]
  }
}
