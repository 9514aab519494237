/** The `tracker:volumes-alert` command of Volumes.php (it declares the same
    class as VolumesAlert.php): every candle of the last five minutes whose
    volume exceeds 1.5 times its 7-bar volume EMA is announced, unless its
    crypto was announced in the last ten minutes. */
module Volumes {
  import opened Common
  import opened Schema
  import Chunking

  /** `last_volume > ema_7 * 1.5`, a null EMA counting as 0. */
  predicate IsSpike(row: VolumeData) {
    row.lastVolume > Num(row.ema7) * 1.5
  }

  /** The cooldown as written: the stored moment is read back through the
      `'date'` cast before it is compared with ten minutes ago. */
  predicate CoolingAsWritten(lastVolumeAlert: Option<int>, now: int) {
    lastVolumeAlert.Some? && StartOfDay(lastVolumeAlert.value) >= now - 600
  }

  /** The cooldown as intended: an alert was sent in the last ten minutes. */
  predicate Cooling(lastVolumeAlert: Option<int>, now: int) {
    lastVolumeAlert.Some? && lastVolumeAlert.value >= now - 600
  }

  /** One spike, as the message reports it, with the crypto it belongs to. */
  datatype Spike = Spike(
    cryptoId: nat,
    symbol: string,
    volume: real,
    ema7: Option<real>,
    price: real,
    timestamp: int)

  datatype State = State(cryptos: seq<Crypto>, spikes: seq<Spike>)

  /** The state where the loop stopped; `failed` when it stopped at an error. */
  datatype Outcome = Outcome(state: State, failed: bool)

  /** One iteration of the loop, with the cooldown check `cooling`. A
      non-spike leaves everything as it is without looking at the crypto; a
      spike without a crypto stops the command, which reads a property of
      null. */
  function Step(st: State, row: VolumeData, now: int, cooling: (Option<int>, int) -> bool): (r: Outcome)
    ensures !IsSpike(row) ==> r == Outcome(st, false)
    ensures r.failed <==> IsSpike(row) && FindCrypto(st.cryptos, row.cryptoId).None?
    ensures r.failed ==> r.state == st
    ensures IsSpike(row) && !r.failed ==>
      var crypto := FindCrypto(st.cryptos, row.cryptoId).value;
      if cooling(crypto.lastVolumeAlert, now) then r.state == st
      else r.state == State(UpdateCrypto(st.cryptos, row.cryptoId, (c: Crypto) => c.(lastVolumeAlert := Some(now))),
                            st.spikes + [Spike(crypto.id, crypto.symbol, row.lastVolume, row.ema7, row.close, row.timestamp)])
  {
    if !IsSpike(row) then Outcome(st, false)
    else
      match FindCrypto(st.cryptos, row.cryptoId)
      case None => Outcome(st, true)
      case Some(crypto) =>
        if cooling(crypto.lastVolumeAlert, now) then Outcome(st, false)
        else
          var x := Spike(crypto.id, crypto.symbol, row.lastVolume, row.ema7, row.close, row.timestamp);
          var cryptos := UpdateCrypto(st.cryptos, row.cryptoId, (c: Crypto) => c.(lastVolumeAlert := Some(now)));
          Outcome(State(cryptos, st.spikes + [x]), false)
  }

  /** The loop over the given candles, stopping at the first error. */
  function Run(rows: seq<VolumeData>, st: State, now: int, cooling: (Option<int>, int) -> bool): Outcome
    decreases |rows|
  {
    if rows == [] then Outcome(st, false)
    else
      var before := Run(rows[..|rows| - 1], st, now, cooling);
      if before.failed then before else Step(before.state, rows[|rows| - 1], now, cooling)
  }

  const Header: string := "\U{F0}\U{9F}\U{9A}\U{A8} *New Volume Spike Alerts* \U{F0}\U{9F}\U{9A}\U{A8}\n"

  /** `handle` as intended: the cooldown of `Cooling`, and each spike's
      timestamp read through `Carbon::parse` before it is formatted, as the
      other alert commands do. Returns where the loop stopped and the one
      message sent to Telegram: none when it failed or found no spike. */
  method Handle(rows: seq<VolumeData>, cryptos: seq<Crypto>, now: int, format: Spike -> string)
    returns (outcome: Outcome, message: Option<string>)
    ensures outcome == Run(RowsSince(rows, now - 300), State(cryptos, []), now, Cooling)
    ensures outcome.failed || outcome.state.spikes == [] ==> message.None?
    ensures !outcome.failed && outcome.state.spikes != [] ==>
      message == Some(Chunking.Compose(Header, outcome.state.spikes, format))
  {
    outcome := Pass(RowsSince(rows, now - 300), cryptos, now, Cooling);
    if outcome.failed || outcome.state.spikes == [] {
      return outcome, None;
    }
    message := Some(Chunking.Compose(Header, outcome.state.spikes, format));
  }

  /** `handle` as written. The message block calls `toDateTimeString()` on
      the candle's `timestamp`, which `VolumeData` does not cast, so it is a
      string and the call throws at the first spike. The `last_volume_alert`
      stamps written by the loop stay written and nothing is sent. `thrown`
      says whether the command ends in an error; no message is ever posted. */
  method HandleAsWritten(rows: seq<VolumeData>, cryptos: seq<Crypto>, now: int)
    returns (outcome: Outcome, thrown: bool)
    ensures outcome == Run(RowsSince(rows, now - 300), State(cryptos, []), now, CoolingAsWritten)
    ensures thrown <==> outcome.failed || outcome.state.spikes != []
  {
    outcome := Pass(RowsSince(rows, now - 300), cryptos, now, CoolingAsWritten);
    thrown := outcome.failed || outcome.state.spikes != [];
  }

  /** The loop of `handle`, with the cooldown check `cooling`. */
  method Pass(recent: seq<VolumeData>, cryptos: seq<Crypto>, now: int, cooling: (Option<int>, int) -> bool)
    returns (outcome: Outcome)
    ensures outcome == Run(recent, State(cryptos, []), now, cooling)
  {
    var st := State(cryptos, []);
    var i := 0;
    while i < |recent|
      invariant 0 <= i <= |recent|
      invariant Run(recent[..i], State(cryptos, []), now, cooling) == Outcome(st, false)
    {
      assert recent[..i + 1][..i] == recent[..i];
      var step := Step(st, recent[i], now, cooling);
      if step.failed {
        RunStaysFailed(recent, i + 1, State(cryptos, []), now, cooling);
        assert recent[..|recent|] == recent;
        return step;
      }
      st := step.state;
      i := i + 1;
    }
    assert recent[..i] == recent;
    outcome := Outcome(st, false);
  }

  /** Once the loop has stopped, further candles change nothing. */
  lemma {:induction false} RunStaysFailed(rows: seq<VolumeData>, n: nat, st: State, now: int,
                                          cooling: (Option<int>, int) -> bool)
    requires n <= |rows| && Run(rows[..n], st, now, cooling).failed
    ensures Run(rows, st, now, cooling) == Run(rows[..n], st, now, cooling)
    decreases |rows| - n
  {
    if n < |rows| {
      var init := rows[..|rows| - 1];
      assert init[..n] == rows[..n];
      RunStaysFailed(init, n, st, now, cooling);
    } else {
      assert rows[..n] == rows;
    }
  }

  /** Every recorded spike's crypto exists and was stamped `now`, and no two
      spikes share a crypto. */
  predicate SpikesStamped(st: State, now: int) {
    (forall j :: 0 <= j < |st.spikes| ==>
      FindCrypto(st.cryptos, st.spikes[j].cryptoId).Some? &&
      FindCrypto(st.cryptos, st.spikes[j].cryptoId).value.lastVolumeAlert == Some(now)) &&
    (forall i, j :: 0 <= i < j < |st.spikes| ==> st.spikes[i].cryptoId != st.spikes[j].cryptoId)
  }

  /** A step keeps the spikes stamped. */
  lemma StepKeepsStamped(st: State, row: VolumeData, now: int)
    requires SpikesStamped(st, now)
    ensures SpikesStamped(Step(st, row, now, Cooling).state, now)
  {
    if IsSpike(row) && FindCrypto(st.cryptos, row.cryptoId).Some? {
      var crypto := FindCrypto(st.cryptos, row.cryptoId).value;
      if !Cooling(crypto.lastVolumeAlert, now) {
        var f := (c: Crypto) => c.(lastVolumeAlert := Some(now));
        var x := Spike(crypto.id, crypto.symbol, row.lastVolume, row.ema7, row.close, row.timestamp);
        var s := State(UpdateCrypto(st.cryptos, row.cryptoId, f), st.spikes + [x]);
        assert Step(st, row, now, Cooling).state == s;
        assert crypto.id == row.cryptoId;
        assert crypto.lastVolumeAlert != Some(now);
        forall j | 0 <= j < |st.spikes| ensures st.spikes[j].cryptoId != crypto.id {
          assert FindCrypto(st.cryptos, st.spikes[j].cryptoId).value.lastVolumeAlert == Some(now);
        }
        forall j | 0 <= j < |s.spikes|
          ensures FindCrypto(s.cryptos, s.spikes[j].cryptoId).Some?
          ensures FindCrypto(s.cryptos, s.spikes[j].cryptoId).value.lastVolumeAlert == Some(now)
        {
          FindUpdated(st.cryptos, row.cryptoId, f, s.spikes[j].cryptoId);
          if j < |st.spikes| {
            assert s.spikes[j] == st.spikes[j];
          }
        }
        forall i, j | 0 <= i < j < |s.spikes| ensures s.spikes[i].cryptoId != s.spikes[j].cryptoId {
          assert s.spikes[i] == st.spikes[i];
          if j < |st.spikes| {
            assert s.spikes[j] == st.spikes[j];
          }
        }
      }
    }
  }

  /** With the intended cooldown, a crypto is announced at most once per
      pass, however many of its candles the window holds. */
  lemma {:induction false} OneSpikePerCrypto(rows: seq<VolumeData>, st: State, now: int)
    requires SpikesStamped(st, now)
    ensures SpikesStamped(Run(rows, st, now, Cooling).state, now)
    decreases |rows|
  {
    if rows != [] {
      OneSpikePerCrypto(rows[..|rows| - 1], st, now);
      StepKeepsStamped(Run(rows[..|rows| - 1], st, now, Cooling).state, rows[|rows| - 1], now);
    }
  }

  /** At 12:45 an alert stamped a second ago reads back as midnight, so the
      cooldown as written does not hold it back, while the intended one does. */
  lemma CoolingAsWrittenMisses()
    ensures Cooling(Some(45900), 45901) && !CoolingAsWritten(Some(45900), 45901)
  {
    assert StartOfDay(45900) == 0;
  }

  /** As written, two spiking candles of one crypto, both within the five
      minutes the query keeps at 12:45, are both announced. */
  lemma AsWrittenAnnouncesTwice()
    ensures var crypto := Crypto(1, "BTC/USDT", "BTC", "USDT", None, None, None, None);
      var row1 := VolumeData(1, Some("1m"), 45780, 1.0, 1.0, 1.0, 1.0, 50.0, 1.0,
                             None, None, None, None, Some(10.0), None, None, None, None,
                             None, None, None, None, None, None);
      var row2 := row1.(timeframe := Some("15m"), timestamp := 45840);
      var recent := RowsSince([row1, row2], 45900 - 300);
      var r := Run(recent, State([crypto], []), 45900, CoolingAsWritten);
      recent == [row1, row2] &&
      !r.failed && |r.state.spikes| == 2 && r.state.spikes[0].cryptoId == r.state.spikes[1].cryptoId
  {
    var crypto := Crypto(1, "BTC/USDT", "BTC", "USDT", None, None, None, None);
    var row1 := VolumeData(1, Some("1m"), 45780, 1.0, 1.0, 1.0, 1.0, 50.0, 1.0,
                           None, None, None, None, Some(10.0), None, None, None, None,
                           None, None, None, None, None, None);
    var row2 := row1.(timeframe := Some("15m"), timestamp := 45840);
    FilterAll([row1, row2], (x: VolumeData) => x.timestamp >= 45600);
    assert [row1, row2][..1] == [row1];
    assert [row1][..0] == [];
    assert FindCrypto([crypto], 1) == Some(crypto);
    var updated := crypto.(lastVolumeAlert := Some(45900));
    assert UpdateCrypto([crypto], 1, (c: Crypto) => c.(lastVolumeAlert := Some(45900))) == [updated];
    assert FindCrypto([updated], 1) == Some(updated);
    assert StartOfDay(45900) == 0;
    var spike1 := Spike(1, "BTC/USDT", 50.0, Some(10.0), 1.0, 45780);
    var spike2 := Spike(1, "BTC/USDT", 50.0, Some(10.0), 1.0, 45840);
    var s1 := Step(State([crypto], []), row1, 45900, CoolingAsWritten);
    assert s1 == Outcome(State([updated], [spike1]), false);
    assert Run([row1], State([crypto], []), 45900, CoolingAsWritten) == s1;
    var s2 := Step(s1.state, row2, 45900, CoolingAsWritten);
    assert !CoolingAsWritten(updated.lastVolumeAlert, 45900);
    assert UpdateCrypto([updated], 1, (c: Crypto) => c.(lastVolumeAlert := Some(45900))) == [updated];
    assert s2 == Outcome(State([updated], [spike1, spike2]), false);
  }

  /** A spiking 1m candle of crypto 1 at 12:43. */
  function SpikeCandle(): VolumeData {
    VolumeData(1, Some("1m"), 45780, 1.0, 1.0, 1.0, 1.0, 50.0, 1.0,
               None, None, None, None, Some(10.0), None, None, None, None,
               None, None, None, None, None, None)
  }

  /** One spiking candle in the last five minutes, of a crypto never
      announced: both cooldowns let it through, so the pass records one spike
      and stamps the crypto. As written the command then throws and posts
      nothing (`HandleAsWritten`); as intended it posts the message
      (`Handle`). */
  lemma AsWrittenSpikeIsNeverSent()
    ensures var crypto := Crypto(1, "BTC/USDT", "BTC", "USDT", None, None, None, None);
      var recent := RowsSince([SpikeCandle()], 45900 - 300);
      var r := Run(recent, State([crypto], []), 45900, CoolingAsWritten);
      recent == [SpikeCandle()] &&
      r == Run(recent, State([crypto], []), 45900, Cooling) &&
      !r.failed && |r.state.spikes| == 1 &&
      r.state.cryptos == [crypto.(lastVolumeAlert := Some(45900))]
  {
    var crypto := Crypto(1, "BTC/USDT", "BTC", "USDT", None, None, None, None);
    var row := SpikeCandle();
    assert [row][1..] == [];
    assert RowsSince([row], 45600) == [row];
    assert [row][..0] == [];
    assert FindCrypto([crypto], 1) == Some(crypto);
    var stamp := (c: Crypto) => c.(lastVolumeAlert := Some(45900));
    assert UpdateCrypto([crypto], 1, stamp) == [crypto.(lastVolumeAlert := Some(45900))];
    assert Run([row], State([crypto], []), 45900, CoolingAsWritten) == Step(State([crypto], []), row, 45900, CoolingAsWritten);
    assert Run([row], State([crypto], []), 45900, Cooling) == Step(State([crypto], []), row, 45900, Cooling);
  }
}
