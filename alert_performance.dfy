/** The `alerts:performance` command of AlertPerformance.php. For every crypto
    with closed alerts it reports the number of signals, how many hit each
    take-profit level or the stop loss, the winning rate and the time of the
    newest alert; the rows are ordered by that time, oldest first, and a
    TOTAL row adds the counts up. The percentages are the values
    `number_format(..., 2)` prints. */
module AlertPerformance {
  import opened Common
  import opened Schema
  import Sorting

  // ---------------------------------------------------------------------------
  // A crypto's closed alerts

  /** Lines 29-32: the crypto's alerts with status `closed`. */
  function ClosedOf(id: nat): Alert -> bool {
    (a: Alert) => a.cryptoId == id && a.status == Closed
  }

  /** `orderBy('created_at', 'desc')`. */
  predicate NewestFirst(a: Alert, b: Alert) {
    a.createdAt >= b.createdAt
  }

  lemma NewestFirstIsPreorder()
    ensures Sorting.TotalPreorder(NewestFirst)
  {
  }

  /** The eager-loaded `alerts` relation: closed alerts, newest first. */
  function ClosedAlerts(alerts: seq<Alert>, id: nat): (r: seq<Alert>)
    ensures |r| == Count(alerts, ClosedOf(id))
  {
    Sorting.SortByPermutes(Filter(alerts, ClosedOf(id)), NewestFirst);
    Sorting.SortBy(Filter(alerts, ClosedOf(id)), NewestFirst)
  }

  /** The relation holds the crypto's closed alerts, each as often as in the
      table, newest first. */
  lemma ClosedAlertsFacts(alerts: seq<Alert>, id: nat)
    ensures multiset(ClosedAlerts(alerts, id)) == multiset(Filter(alerts, ClosedOf(id)))
    ensures |ClosedAlerts(alerts, id)| == Count(alerts, ClosedOf(id))
    ensures forall a :: a in ClosedAlerts(alerts, id) <==> a in alerts && a.cryptoId == id && a.status == Closed
    ensures Sorting.Sorted(ClosedAlerts(alerts, id), NewestFirst)
  {
    var closed := Filter(alerts, ClosedOf(id));
    Sorting.SortByPermutes(closed, NewestFirst);
    NewestFirstIsPreorder();
    Sorting.SortBySorted(closed, NewestFirst);
    forall a ensures a in ClosedAlerts(alerts, id) <==> a in alerts && a.cryptoId == id && a.status == Closed {
      assert a in ClosedAlerts(alerts, id) <==> a in multiset(closed);
      if a in alerts && ClosedOf(id)(a) {
        var i :| 0 <= i < |alerts| && alerts[i] == a;
      }
    }
  }

  /** `where('result', r)`. */
  function HasResult(r: int): Alert -> bool {
    (a: Alert) => a.result == Some(r)
  }

  function Hits(closed: seq<Alert>, r: int): nat {
    Count(closed, HasResult(r))
  }

  // ---------------------------------------------------------------------------
  // The rows

  /** A line of the table: the counts, and the newest alert's time, which the
      TOTAL row shows as `-`. */
  datatype Row = Row(symbol: string, signals: nat, tp1: nat, tp2: nat, tp3: nat, sl: nat, lastAlert: Option<int>)

  /** Lines 42-64: the row of a crypto with closed alerts. */
  function RowOf(c: Crypto, closed: seq<Alert>): Row
    requires |closed| > 0
  {
    Row(c.symbol, |closed|, Hits(closed, 1), Hits(closed, 2), Hits(closed, 3), Hits(closed, -1),
        Some(closed[0].createdAt))
  }

  /** Lines 42-64 for one crypto: a row when it has closed alerts. */
  function CryptoRow(c: Crypto, alerts: seq<Alert>): seq<Row> {
    var closed := ClosedAlerts(alerts, c.id);
    if |closed| > 0 then [RowOf(c, closed)] else []
  }

  /** The per-crypto rows in table order. */
  function Data(cryptos: seq<Crypto>, alerts: seq<Alert>): (r: seq<Row>)
    ensures |r| <= |cryptos|
    decreases |cryptos|
  {
    if cryptos == [] then []
    else Data(cryptos[..|cryptos| - 1], alerts) + CryptoRow(cryptos[|cryptos| - 1], alerts)
  }

  function SumSignals(data: seq<Row>): nat
    decreases |data|
  {
    if data == [] then 0 else SumSignals(data[..|data| - 1]) + data[|data| - 1].signals
  }

  function SumTp1(data: seq<Row>): nat
    decreases |data|
  {
    if data == [] then 0 else SumTp1(data[..|data| - 1]) + data[|data| - 1].tp1
  }

  function SumTp2(data: seq<Row>): nat
    decreases |data|
  {
    if data == [] then 0 else SumTp2(data[..|data| - 1]) + data[|data| - 1].tp2
  }

  function SumTp3(data: seq<Row>): nat
    decreases |data|
  {
    if data == [] then 0 else SumTp3(data[..|data| - 1]) + data[|data| - 1].tp3
  }

  function SumSl(data: seq<Row>): nat
    decreases |data|
  {
    if data == [] then 0 else SumSl(data[..|data| - 1]) + data[|data| - 1].sl
  }

  /** Lines 86-97: the TOTAL row. */
  function Total(data: seq<Row>): Row {
    Row("TOTAL", SumSignals(data), SumTp1(data), SumTp2(data), SumTp3(data), SumSl(data), None)
  }

  /** Line 82: `strtotime($a['Last Alert']) <=> strtotime($b['Last Alert'])`,
      ascending. */
  predicate EarlierAlert(a: Row, b: Row) {
    Num(a.lastAlert) <= Num(b.lastAlert)
  }

  function Num(t: Option<int>): int {
    if t.Some? then t.value else 0
  }

  lemma EarlierAlertIsPreorder()
    ensures Sorting.TotalPreorder(EarlierAlert)
  {
  }

  /** The report: nothing when no crypto has a closed alert (lines 75-78),
      otherwise the rows by last alert and the TOTAL row after them. */
  function Report(cryptos: seq<Crypto>, alerts: seq<Alert>): Option<seq<Row>> {
    var data := Data(cryptos, alerts);
    if data == [] then None else Some(Sorting.SortBy(data, EarlierAlert) + [Total(data)])
  }

  // ---------------------------------------------------------------------------
  // Percentages

  /** `number_format(($hits / $total) * 100, 2)`. */
  function Percent(hits: nat, total: nat): real
    requires total > 0
  {
    Round2(hits as real / total as real * 100.0)
  }

  /** Line 50: the winning rate counts the three take-profit levels. */
  function WinningRate(row: Row): real
    requires row.signals > 0
  {
    Percent(row.tp1 + row.tp2 + row.tp3, row.signals)
  }

  /** A share of the total is a percentage between 0 and 100. */
  lemma PercentBetween(hits: nat, total: nat)
    requires total > 0 && hits <= total
    ensures 0.0 <= Percent(hits, total) <= 100.0
  {
    var q := hits as real / total as real;
    QuotientBetween(hits as real, total as real, 0.0, 1.0);
    Round2Between(q * 100.0, 0, 10000);
  }

  // ---------------------------------------------------------------------------
  // Properties

  /** No alert counts towards two levels, so the four counts add up to at
      most the number of alerts. */
  lemma {:induction false} HitsBound(closed: seq<Alert>)
    ensures Hits(closed, 1) + Hits(closed, 2) + Hits(closed, 3) + Hits(closed, -1) <= |closed|
    decreases |closed|
  {
    if closed != [] {
      HitsBound(closed[1..]);
    }
  }

  /** An alert whose result is neither 1, 2, 3 nor -1 (a -2 or -11 stop, or
      none) adds a signal and counts towards no level: it adds to the winning
      rate's denominator and not to its numerator. */
  lemma OtherResultCountsOnlyAsSignal(closed: seq<Alert>, a: Alert)
    requires a.result !in {Some(1), Some(2), Some(3), Some(-1)}
    ensures |closed + [a]| == |closed| + 1
    ensures forall r :: r in {1, 2, 3, -1} ==> Hits(closed + [a], r) == Hits(closed, r)
  {
    forall r | r in {1, 2, 3, -1} ensures Hits(closed + [a], r) == Hits(closed, r) {
      FilterAppend(closed, [a], HasResult(r));
      assert Filter([a], HasResult(r)) == [];
    }
  }

  /** The counts of a row fit in its signals. */
  predicate Fits(row: Row) {
    row.tp1 + row.tp2 + row.tp3 + row.sl <= row.signals
  }

  /** A crypto's row: its counts fit in its signals, and every percentage and
      the winning rate lie between 0 and 100. */
  lemma RowCounts(c: Crypto, closed: seq<Alert>)
    requires |closed| > 0
    ensures var row := RowOf(c, closed);
      row.symbol == c.symbol && row.signals == |closed| && Fits(row) &&
      0.0 <= WinningRate(row) <= 100.0 && 0.0 <= Percent(row.sl, row.signals) <= 100.0 &&
      0.0 <= Percent(row.tp1, row.signals) <= 100.0 && 0.0 <= Percent(row.tp2, row.signals) <= 100.0 &&
      0.0 <= Percent(row.tp3, row.signals) <= 100.0
  {
    var row := RowOf(c, closed);
    HitsBound(closed);
    PercentBetween(row.tp1 + row.tp2 + row.tp3, row.signals);
    PercentBetween(row.sl, row.signals);
    PercentBetween(row.tp1, row.signals);
    PercentBetween(row.tp2, row.signals);
    PercentBetween(row.tp3, row.signals);
  }

  /** "Last Alert" (line 53) is the time of the crypto's newest closed
      alert. */
  lemma LastAlertIsNewest(c: Crypto, alerts: seq<Alert>)
    requires Count(alerts, ClosedOf(c.id)) > 0
    ensures var row := RowOf(c, ClosedAlerts(alerts, c.id));
      (exists a :: a in alerts && a.cryptoId == c.id && a.status == Closed && row.lastAlert == Some(a.createdAt)) &&
      (forall a :: a in alerts && a.cryptoId == c.id && a.status == Closed ==> a.createdAt <= row.lastAlert.value)
  {
    ClosedAlertsFacts(alerts, c.id);
    var closed := ClosedAlerts(alerts, c.id);
    assert closed[0] in closed;
    forall a | a in alerts && a.cryptoId == c.id && a.status == Closed ensures a.createdAt <= closed[0].createdAt {
      assert a in closed;
      var i :| 0 <= i < |closed| && closed[i] == a;
      if i > 0 {
        assert NewestFirst(closed[0], closed[i]);
      }
    }
  }

  /** Rows appear exactly for the cryptos with closed alerts: each such
      crypto's row is there, every row is such a crypto's, and all fit. */
  lemma {:induction false} DataCovers(cryptos: seq<Crypto>, alerts: seq<Alert>)
    ensures forall c :: c in cryptos && Count(alerts, ClosedOf(c.id)) > 0 ==>
      RowOf(c, ClosedAlerts(alerts, c.id)) in Data(cryptos, alerts)
    ensures forall row :: row in Data(cryptos, alerts) ==>
      exists c :: c in cryptos && Count(alerts, ClosedOf(c.id)) > 0 && row == RowOf(c, ClosedAlerts(alerts, c.id))
    decreases |cryptos|
  {
    if cryptos != [] {
      var init := cryptos[..|cryptos| - 1];
      var last := cryptos[|cryptos| - 1];
      DataCovers(init, alerts);
      assert cryptos == init + [last];
      var data := Data(cryptos, alerts);
      assert data == Data(init, alerts) + CryptoRow(last, alerts);
      forall c | c in cryptos && Count(alerts, ClosedOf(c.id)) > 0
        ensures RowOf(c, ClosedAlerts(alerts, c.id)) in data
      {
        if c != last {
          assert c in init;
        }
      }
      forall row | row in data
        ensures exists c :: c in cryptos && Count(alerts, ClosedOf(c.id)) > 0 && row == RowOf(c, ClosedAlerts(alerts, c.id))
      {
        if row !in Data(init, alerts) {
          assert row in CryptoRow(last, alerts);
          assert last in cryptos;
        } else {
          var c :| c in init && Count(alerts, ClosedOf(c.id)) > 0 && row == RowOf(c, ClosedAlerts(alerts, c.id));
          assert c in cryptos;
        }
      }
    }
  }

  /** Every row's counts fit in its signals, and it has signals. */
  lemma {:induction false} DataFits(cryptos: seq<Crypto>, alerts: seq<Alert>)
    ensures forall i :: 0 <= i < |Data(cryptos, alerts)| ==>
      Fits(Data(cryptos, alerts)[i]) && Data(cryptos, alerts)[i].signals > 0
    decreases |cryptos|
  {
    if cryptos != [] {
      var init := cryptos[..|cryptos| - 1];
      var last := cryptos[|cryptos| - 1];
      DataFits(init, alerts);
      var closed := ClosedAlerts(alerts, last.id);
      if |closed| > 0 {
        RowCounts(last, closed);
      }
      var data := Data(cryptos, alerts);
      assert data == Data(init, alerts) + CryptoRow(last, alerts);
      forall i | 0 <= i < |data| ensures Fits(data[i]) && data[i].signals > 0 {
        if i < |Data(init, alerts)| {
          assert data[i] == Data(init, alerts)[i];
        }
      }
    }
  }

  /** Sums of rows that fit fit. */
  lemma {:induction false} TotalFits(data: seq<Row>)
    requires forall i :: 0 <= i < |data| ==> Fits(data[i])
    ensures Fits(Total(data))
    decreases |data|
  {
    if data != [] {
      TotalFits(data[..|data| - 1]);
      assert Fits(data[|data| - 1]);
    }
  }

  /** The report, when there is one, lists every crypto row once, ordered by
      last alert, oldest first, and ends with the TOTAL row. */
  lemma ReportShape(cryptos: seq<Crypto>, alerts: seq<Alert>)
    ensures Report(cryptos, alerts).None? <==> Data(cryptos, alerts) == []
    ensures Report(cryptos, alerts).Some? ==>
      var data := Data(cryptos, alerts);
      var rows := Report(cryptos, alerts).value;
      |rows| == |data| + 1 && rows[|data|] == Total(data) &&
      multiset(rows[..|data|]) == multiset(data) &&
      Sorting.Sorted(rows[..|data|], EarlierAlert)
  {
    var data := Data(cryptos, alerts);
    if data != [] {
      var rows := Report(cryptos, alerts).value;
      Sorting.SortByPermutes(data, EarlierAlert);
      EarlierAlertIsPreorder();
      Sorting.SortBySorted(data, EarlierAlert);
      assert rows[..|data|] == Sorting.SortBy(data, EarlierAlert);
    }
  }

  /** The TOTAL row of rows that fit and have signals has signals, and its
      winning rate and stop-loss percentage lie between 0 and 100. */
  lemma TotalRates(data: seq<Row>)
    requires data != [] && forall i :: 0 <= i < |data| ==> Fits(data[i]) && data[i].signals > 0
    ensures var t := Total(data);
      t.signals > 0 && Fits(t) && 0.0 <= WinningRate(t) <= 100.0 && 0.0 <= Percent(t.sl, t.signals) <= 100.0
  {
    TotalFits(data);
    TotalSignalsPositive(data);
    var t := Total(data);
    PercentBetween(t.tp1 + t.tp2 + t.tp3, t.signals);
    PercentBetween(t.sl, t.signals);
  }

  lemma {:induction false} TotalSignalsPositive(data: seq<Row>)
    requires data != [] && forall i :: 0 <= i < |data| ==> data[i].signals > 0
    ensures SumSignals(data) > 0
    decreases |data|
  {
  }

  // ---------------------------------------------------------------------------
  // The command

  /** Running totals that match the rows so far. */
  predicate Totals(data: seq<Row>, signals: nat, tp1: nat, tp2: nat, tp3: nat, sl: nat) {
    signals == SumSignals(data) && tp1 == SumTp1(data) && tp2 == SumTp2(data) &&
    tp3 == SumTp3(data) && sl == SumSl(data)
  }

  /** One iteration of lines 41-72: a crypto with closed alerts adds its row
      and its counts to the totals; one without adds nothing. */
  method AddCrypto(crypto: Crypto, alerts: seq<Alert>, data: seq<Row>,
                   signals: nat, tp1: nat, tp2: nat, tp3: nat, sl: nat)
    returns (data': seq<Row>, signals': nat, tp1': nat, tp2': nat, tp3': nat, sl': nat)
    requires Totals(data, signals, tp1, tp2, tp3, sl)
    ensures data' == data + CryptoRow(crypto, alerts)
    ensures Totals(data', signals', tp1', tp2', tp3', sl')
  {
    var closed := ClosedAlerts(alerts, crypto.id);
    if |closed| > 0 {
      var row := RowOf(crypto, closed);
      assert (data + [row])[..|data|] == data;
      data' := data + [row];
      signals' := signals + row.signals;
      tp1' := tp1 + row.tp1;
      tp2' := tp2 + row.tp2;
      tp3' := tp3 + row.tp3;
      sl' := sl + row.sl;
    } else {
      assert data + [] == data;
      data', signals', tp1', tp2', tp3', sl' := data, signals, tp1, tp2, tp3, sl;
    }
  }

  /** Lines 34-73: the rows and the running totals. */
  method Pass(cryptos: seq<Crypto>, alerts: seq<Alert>) returns (data: seq<Row>, totals: Row)
    ensures data == Data(cryptos, alerts) && totals == Total(data)
  {
    data := [];
    var totalAlertsAll: nat := 0;
    var totalTP1Hits: nat := 0;
    var totalTP2Hits: nat := 0;
    var totalTP3Hits: nat := 0;
    var totalSLHits: nat := 0;
    var i := 0;
    while i < |cryptos|
      invariant 0 <= i <= |cryptos|
      invariant data == Data(cryptos[..i], alerts)
      invariant Totals(data, totalAlertsAll, totalTP1Hits, totalTP2Hits, totalTP3Hits, totalSLHits)
    {
      DataStep(cryptos, alerts, i);
      data, totalAlertsAll, totalTP1Hits, totalTP2Hits, totalTP3Hits, totalSLHits :=
        AddCrypto(cryptos[i], alerts, data, totalAlertsAll, totalTP1Hits, totalTP2Hits, totalTP3Hits, totalSLHits);
      i := i + 1;
    }
    assert cryptos[..|cryptos|] == cryptos;
    totals := Row("TOTAL", totalAlertsAll, totalTP1Hits, totalTP2Hits, totalTP3Hits, totalSLHits, None);
  }

  /** `handle`: the pass, then nothing when there are no rows, otherwise the
      rows sorted by last alert and the TOTAL row. */
  method Handle(cryptos: seq<Crypto>, alerts: seq<Alert>) returns (report: Option<seq<Row>>)
    ensures report == Report(cryptos, alerts)
  {
    var data, totals := Pass(cryptos, alerts);
    if data == [] {
      return None;
    }
    var sorted := Sorting.SortBy(data, EarlierAlert);
    report := Some(sorted + [totals]);
  }

  lemma DataStep(cryptos: seq<Crypto>, alerts: seq<Alert>, i: nat)
    requires i < |cryptos|
    ensures Data(cryptos[..i + 1], alerts) == Data(cryptos[..i], alerts) + CryptoRow(cryptos[i], alerts)
  {
    assert cryptos[..i + 1][..i] == cryptos[..i];
  }

  /** The running totals of lines 67-71. */
  lemma TotalAppend(data: seq<Row>, row: Row)
    ensures var t := Total(data);
      Total(data + [row]) == Row("TOTAL", t.signals + row.signals, t.tp1 + row.tp1, t.tp2 + row.tp2,
                                 t.tp3 + row.tp3, t.sl + row.sl, None)
  {
    assert (data + [row])[..|data|] == data;
  }
}
