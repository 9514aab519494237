/** `tracker:volumes-alert`: the latest 15-minute candle of every crypto is
    checked for a volume spike, twice the 15-bar volume average with a price
    amplitude of at least 1 to 4 percent depending on the crypto's 24-hour
    volume rank. A spike is announced once per candle, remembered in
    `last_volume_alert`. */
module VolumesAlert {
  import opened Common
  import opened Schema
  import opened VolumeOrder
  import Chunking

  /** The ids of the cryptos, in order: `pluck('id')`. */
  function Ids(cryptos: seq<Crypto>): (r: seq<nat>)
    ensures |r| == |cryptos| && forall i :: 0 <= i < |r| ==> r[i] == cryptos[i].id
  {
    seq(|cryptos|, i requires 0 <= i < |cryptos| => cryptos[i].id)
  }

  /** A collection's `slice($offset, $length)` (and so `take`), cut to the
      collection's end. */
  function Slice<T>(s: seq<T>, offset: nat, length: nat): (r: seq<T>)
    ensures |r| == if offset + length <= |s| then length else if offset <= |s| then |s| - offset else 0
    ensures forall i :: 0 <= i < |r| ==> offset + i < |s| && r[i] == s[offset + i]
  {
    var lo := if offset <= |s| then offset else |s|;
    var hi := if offset + length <= |s| then offset + length else |s|;
    s[lo..hi]
  }

  /** `$this->rank`: the ids at positions 0-19, 20-49 and 50-119 of the volume
      order. */
  datatype Rank = Rank(top20: seq<nat>, top50: seq<nat>, top120: seq<nat>)

  function Ranks(cryptos: seq<Crypto>): Rank {
    var ids := Ids(ByVolume(cryptos));
    Rank(Slice(ids, 0, 20), Slice(ids, 20, 30), Slice(ids, 50, 70))
  }

  /** `minPercent`: the smallest amplitude, in percent, that counts as a spike. */
  function MinPercent(rank: Rank, id: nat): (r: real)
    ensures r == 1.0 <==> id in rank.top20
    ensures r == 2.0 <==> id !in rank.top20 && id in rank.top50
    ensures r == 3.0 <==> id !in rank.top20 && id !in rank.top50 && id in rank.top120
    ensures r == 4.0 <==> id !in rank.top20 && id !in rank.top50 && id !in rank.top120
  {
    if id in rank.top20 then 1.0
    else if id in rank.top50 then 2.0
    else if id in rank.top120 then 3.0
    else 4.0
  }

  /** With distinct ids, the id at position p is in a slice iff p is. */
  lemma InSliceIff(ids: seq<nat>, p: nat, offset: nat, length: nat)
    requires p < |ids| && forall i, j :: 0 <= i < j < |ids| ==> ids[i] != ids[j]
    ensures ids[p] in Slice(ids, offset, length) <==> offset <= p < offset + length
  {
    var r := Slice(ids, offset, length);
    if offset <= p < offset + length {
      assert r[p - offset] == ids[p];
    }
    if ids[p] in r {
      var i :| 0 <= i < |r| && r[i] == ids[p];
      assert ids[offset + i] == ids[p];
    }
  }

  /** The threshold by volume rank: 1% for the 20 largest cryptos, 2% for
      the next 30, 3% for the next 70 and 4% for the rest. */
  lemma MinPercentByPosition(cryptos: seq<Crypto>, p: nat)
    requires UniqueIds(cryptos) && p < |cryptos|
    ensures |ByVolume(cryptos)| == |cryptos|
    ensures MinPercent(Ranks(cryptos), ByVolume(cryptos)[p].id) ==
      if p < 20 then 1.0 else if p < 50 then 2.0 else if p < 120 then 3.0 else 4.0
  {
    ByVolumeOrdered(cryptos);
    ByVolumeKeepsUniqueIds(cryptos);
    var ids := Ids(ByVolume(cryptos));
    InSliceIff(ids, p, 0, 20);
    InSliceIff(ids, p, 20, 30);
    InSliceIff(ids, p, 50, 70);
  }

  /** No id is in two buckets. */
  lemma RanksDisjoint(cryptos: seq<Crypto>, id: nat)
    requires UniqueIds(cryptos)
    ensures var rank := Ranks(cryptos);
      !(id in rank.top20 && id in rank.top50) && !(id in rank.top20 && id in rank.top120) &&
      !(id in rank.top50 && id in rank.top120)
  {
    ByVolumeOrdered(cryptos);
    ByVolumeKeepsUniqueIds(cryptos);
    var ids := Ids(ByVolume(cryptos));
    if id in ids {
      var p :| 0 <= p < |ids| && ids[p] == id;
      InSliceIff(ids, p, 0, 20);
      InSliceIff(ids, p, 20, 30);
      InSliceIff(ids, p, 50, 70);
    } else {
      var rank := Ranks(cryptos);
      assert id !in rank.top20 && id !in rank.top50 && id !in rank.top120;
    }
  }

  /** `calculateAmplitudePercent`: the candle's range as a percentage of its
      low, or 0 for a zero low. */
  function Amplitude(high: real, low: real): (r: real)
    ensures low == 0.0 ==> r == 0.0
    ensures low != 0.0 ==> r * low == (high - low) * 100.0
  {
    if low == 0.0 then 0.0 else (high - low) / low * 100.0
  }

  /** For a positive low the amplitude has the sign of the range. */
  lemma AmplitudeSign(high: real, low: real)
    requires low > 0.0
    ensures Amplitude(high, low) >= 0.0 <==> high >= low
  {
    var r := Amplitude(high, low);
    if high >= low {
      assert r * low >= 0.0;
    } else {
      assert r * low < 0.0;
    }
  }

  /** `last_volume > vma_15 * 2`, a null average counting as 0. */
  predicate IsSpike(row: VolumeData) {
    row.lastVolume > Num(row.vma15) * 2.0
  }

  /** One spike, as the message reports it. */
  datatype Spike = Spike(
    symbol: string,
    green: bool,
    volume: real,
    vma: real,
    price: real,
    amplitude: real,
    timestamp: int)

  function MakeSpike(row: VolumeData, crypto: Crypto): (x: Spike)
    ensures x.green <==> row.close > row.open
    ensures x.volume == row.lastVolume * row.close && x.vma == Num(row.vma15) * row.close
  {
    Spike(crypto.symbol, row.close > row.open, row.lastVolume * row.close, Num(row.vma15) * row.close,
          row.close, Amplitude(row.high, row.low), row.timestamp)
  }

  /** The duplicate check as written: the stored moment is read back through
      the `'date'` cast before it is compared with the candle's time. */
  predicate SeenAsWritten(lastVolumeAlert: Option<int>, timestamp: int) {
    lastVolumeAlert.Some? && StartOfDay(lastVolumeAlert.value) == timestamp
  }

  /** The duplicate check as intended: this candle was already announced. */
  predicate Seen(lastVolumeAlert: Option<int>, timestamp: int) {
    lastVolumeAlert == Some(timestamp)
  }

  datatype State = State(cryptos: seq<Crypto>, spikes: seq<Spike>)

  /** The state where the loop stopped; `failed` when it stopped at an error. */
  datatype Outcome = Outcome(state: State, failed: bool)

  /** The candle counts as a spike of the crypto with this id. */
  predicate Qualifies(row: VolumeData, rank: Rank, id: nat) {
    IsSpike(row) && Amplitude(row.high, row.low) >= MinPercent(rank, id)
  }

  /** One iteration of the loop, with the duplicate check `seen`. A candle
      without a crypto stops the command, which reads a property of null. */
  function Step(st: State, row: VolumeData, rank: Rank, seen: (Option<int>, int) -> bool): (r: Outcome)
    ensures r.failed <==> FindCrypto(st.cryptos, row.cryptoId).None?
    ensures r.failed ==> r.state == st
    ensures !r.failed ==>
      var crypto := FindCrypto(st.cryptos, row.cryptoId).value;
      if !seen(crypto.lastVolumeAlert, row.timestamp) && Qualifies(row, rank, crypto.id) then
        r.state == State(UpdateCrypto(st.cryptos, row.cryptoId, (c: Crypto) => c.(lastVolumeAlert := Some(row.timestamp))),
                         st.spikes + [MakeSpike(row, crypto)])
      else r.state == st
  {
    match FindCrypto(st.cryptos, row.cryptoId)
    case None => Outcome(st, true)
    case Some(crypto) =>
      if seen(crypto.lastVolumeAlert, row.timestamp) then Outcome(st, false)
      else if !IsSpike(row) || Amplitude(row.high, row.low) < MinPercent(rank, crypto.id) then Outcome(st, false)
      else
        var cryptos := UpdateCrypto(st.cryptos, row.cryptoId, (c: Crypto) => c.(lastVolumeAlert := Some(row.timestamp)));
        Outcome(State(cryptos, st.spikes + [MakeSpike(row, crypto)]), false)
  }

  /** The loop over the given candles, stopping at the first error. */
  function Run(rows: seq<VolumeData>, st: State, rank: Rank, seen: (Option<int>, int) -> bool): Outcome
    decreases |rows|
  {
    if rows == [] then Outcome(st, false)
    else
      var before := Run(rows[..|rows| - 1], st, rank, seen);
      if before.failed then before else Step(before.state, rows[|rows| - 1], rank, seen)
  }

  /** The rows the command selects: every crypto's 15-minute rows at its
      greatest 15-minute timestamp. */
  function Latest15m(rows: seq<VolumeData>): seq<VolumeData> {
    LatestPerCrypto(rows, (x: VolumeData) => x.timeframe == Some("15m"))
  }

  /** All selected rows of one crypto share its latest timestamp. */
  predicate OneTimestampPerCrypto(rows: seq<VolumeData>) {
    forall i, j :: 0 <= i < |rows| && 0 <= j < |rows| && rows[i].cryptoId == rows[j].cryptoId ==>
      rows[i].timestamp == rows[j].timestamp
  }

  lemma Latest15mOneTimestamp(rows: seq<VolumeData>)
    ensures OneTimestampPerCrypto(Latest15m(rows))
    ensures forall i :: 0 <= i < |Latest15m(rows)| ==> Latest15m(rows)[i].timeframe == Some("15m")
  {
    var r := Latest15m(rows);
    forall i | 0 <= i < |r| ensures r[i].timeframe == Some("15m") {
      assert r[i] in r;
    }
    forall i, j | 0 <= i < |r| && 0 <= j < |r| && r[i].cryptoId == r[j].cryptoId
      ensures r[i].timestamp == r[j].timestamp
    {
      assert r[i] in r && r[j] in r;
    }
  }

  const Header: string := "*New Alerts* \U{F0}\U{9F}\U{9A}\U{A8}\n"

  /** `handle`, with the intended duplicate check. Returns where the loop
      stopped and the chunks sent to Telegram: none when it failed or found
      no spike. */
  method Handle(rows: seq<VolumeData>, cryptos: seq<Crypto>, format: Spike -> string)
    returns (outcome: Outcome, chunks: seq<string>)
    ensures outcome == Run(Latest15m(rows), State(cryptos, []), Ranks(cryptos), Seen)
    ensures outcome.failed || outcome.state.spikes == [] ==> chunks == []
    ensures !outcome.failed && outcome.state.spikes != [] ==>
      chunks == Chunking.Chunks(Chunking.Compose(Header, outcome.state.spikes, format))
  {
    var rank := Ranks(cryptos);
    var recent := Latest15m(rows);
    outcome := Pass(recent, cryptos, rank);
    if outcome.failed || outcome.state.spikes == [] {
      return outcome, [];
    }
    chunks := Chunking.SplitIntoChunks(Chunking.Compose(Header, outcome.state.spikes, format));
  }

  /** The loop of `handle`. */
  method Pass(recent: seq<VolumeData>, cryptos: seq<Crypto>, rank: Rank) returns (outcome: Outcome)
    ensures outcome == Run(recent, State(cryptos, []), rank, Seen)
  {
    var st := State(cryptos, []);
    var i := 0;
    while i < |recent|
      invariant 0 <= i <= |recent|
      invariant Run(recent[..i], State(cryptos, []), rank, Seen) == Outcome(st, false)
    {
      assert recent[..i + 1][..i] == recent[..i];
      var step := Step(st, recent[i], rank, Seen);
      if step.failed {
        RunStaysFailed(recent, i + 1, State(cryptos, []), rank, Seen);
        assert recent[..|recent|] == recent;
        return step;
      }
      st := step.state;
      i := i + 1;
    }
    assert recent[..i] == recent;
    outcome := Outcome(st, false);
  }

  /** Once the loop has stopped, further candles change nothing. */
  lemma {:induction false} RunStaysFailed(rows: seq<VolumeData>, n: nat, st: State, rank: Rank,
                                          seen: (Option<int>, int) -> bool)
    requires n <= |rows| && Run(rows[..n], st, rank, seen).failed
    ensures Run(rows, st, rank, seen) == Run(rows[..n], st, rank, seen)
    decreases |rows| - n
  {
    if n < |rows| {
      var init := rows[..|rows| - 1];
      assert init[..n] == rows[..n];
      RunStaysFailed(init, n, st, rank, seen);
    } else {
      assert rows[..n] == rows;
    }
  }

  /** The candle would change nothing in this table: its crypto exists, and it
      was already announced or does not qualify. */
  predicate Quiet(cryptos: seq<Crypto>, row: VolumeData, rank: Rank) {
    match FindCrypto(cryptos, row.cryptoId)
    case None => false
    case Some(c) => Seen(c.lastVolumeAlert, row.timestamp) || !Qualifies(row, rank, c.id)
  }

  /** A step keeps every other candle of the selection quiet. */
  lemma StepKeepsQuiet(st: State, row: VolumeData, other: VolumeData, rank: Rank)
    requires !Step(st, row, rank, Seen).failed && Quiet(st.cryptos, other, rank)
    requires other.cryptoId == row.cryptoId ==> other.timestamp == row.timestamp
    ensures Quiet(Step(st, row, rank, Seen).state.cryptos, other, rank)
  {
    FindUpdated(st.cryptos, row.cryptoId, (c: Crypto) => c.(lastVolumeAlert := Some(row.timestamp)), other.cryptoId);
  }

  /** A candle is quiet after its own step. */
  lemma StepMakesQuiet(st: State, row: VolumeData, rank: Rank)
    requires !Step(st, row, rank, Seen).failed
    ensures Quiet(Step(st, row, rank, Seen).state.cryptos, row, rank)
  {
    FindUpdated(st.cryptos, row.cryptoId, (c: Crypto) => c.(lastVolumeAlert := Some(row.timestamp)), row.cryptoId);
  }

  /** After a pass that did not fail, every candle of it is quiet. */
  lemma {:induction false} RunMakesQuiet(rows: seq<VolumeData>, st: State, rank: Rank)
    requires !Run(rows, st, rank, Seen).failed && OneTimestampPerCrypto(rows)
    ensures forall i :: 0 <= i < |rows| ==> Quiet(Run(rows, st, rank, Seen).state.cryptos, rows[i], rank)
    decreases |rows|
  {
    if rows != [] {
      var init := rows[..|rows| - 1];
      var last := rows[|rows| - 1];
      OneTimestampPrefix(rows);
      assert !Run(init, st, rank, Seen).failed;
      RunMakesQuiet(init, st, rank);
      var before := Run(init, st, rank, Seen).state;
      assert Run(rows, st, rank, Seen) == Step(before, last, rank, Seen);
      forall i | 0 <= i < |rows| - 1 ensures Quiet(before.cryptos, rows[i], rank) {
        assert rows[i] == init[i];
      }
      StepKeepsAllQuiet(before, rows, rank);
    }
  }

  /** Dropping the last candle keeps one timestamp per crypto. */
  lemma OneTimestampPrefix(rows: seq<VolumeData>)
    requires rows != [] && OneTimestampPerCrypto(rows)
    ensures OneTimestampPerCrypto(rows[..|rows| - 1])
  {
    var init := rows[..|rows| - 1];
    forall i, j | 0 <= i < |init| && 0 <= j < |init| && init[i].cryptoId == init[j].cryptoId
      ensures init[i].timestamp == init[j].timestamp
    {
      assert init[i] == rows[i] && init[j] == rows[j];
    }
  }

  /** The step of the last candle keeps the earlier ones quiet and makes the
      last one quiet. */
  lemma StepKeepsAllQuiet(st: State, rows: seq<VolumeData>, rank: Rank)
    requires rows != [] && OneTimestampPerCrypto(rows)
    requires !Step(st, rows[|rows| - 1], rank, Seen).failed
    requires forall i :: 0 <= i < |rows| - 1 ==> Quiet(st.cryptos, rows[i], rank)
    ensures forall i :: 0 <= i < |rows| ==> Quiet(Step(st, rows[|rows| - 1], rank, Seen).state.cryptos, rows[i], rank)
  {
    var n := |rows| - 1;
    var last := rows[n];
    var ok := !Step(st, last, rank, Seen).failed;
    assert ok;
    forall i | 0 <= i < |rows| ensures Quiet(Step(st, last, rank, Seen).state.cryptos, rows[i], rank) {
      if i < n {
        var other := rows[i];
        assert Quiet(st.cryptos, other, rank);
        assert other.cryptoId == last.cryptoId ==> other.timestamp == last.timestamp;
        StepKeepsQuiet(st, last, other, rank);
      } else {
        StepMakesQuiet(st, last, rank);
      }
    }
  }

  /** A pass over quiet candles changes nothing and announces nothing. */
  lemma {:induction false} QuietPass(rows: seq<VolumeData>, st: State, rank: Rank)
    requires forall i :: 0 <= i < |rows| ==> Quiet(st.cryptos, rows[i], rank)
    ensures Run(rows, st, rank, Seen) == Outcome(st, false)
    decreases |rows|
  {
    if rows != [] {
      QuietPass(rows[..|rows| - 1], st, rank);
    }
  }

  /** Running the command again on the same latest candles announces nothing
      and changes nothing. */
  lemma RerunIsQuiet(rows: seq<VolumeData>, cryptos: seq<Crypto>)
    requires !Run(Latest15m(rows), State(cryptos, []), Ranks(cryptos), Seen).failed
    ensures var fin := Run(Latest15m(rows), State(cryptos, []), Ranks(cryptos), Seen).state;
      Run(Latest15m(rows), fin, Ranks(cryptos), Seen) == Outcome(fin, false)
  {
    Latest15mOneTimestamp(rows);
    var fin := Run(Latest15m(rows), State(cryptos, []), Ranks(cryptos), Seen).state;
    RunMakesQuiet(Latest15m(rows), State(cryptos, []), Ranks(cryptos));
    QuietPass(Latest15m(rows), fin, Ranks(cryptos));
  }

  /** As written, the stored moment of an alert at 12:45 reads back as
      midnight of that day, so the same candle is not recognised. */
  lemma SeenAsWrittenMissesSameCandle()
    ensures Seen(Some(45900), 45900) && !SeenAsWritten(Some(45900), 45900)
  {
    assert StartOfDay(45900) == 0;
  }

  /** As written, a second run on the same 12:45 candle announces the same
      spike again. */
  lemma AsWrittenRerunRepeats()
    ensures var crypto := Crypto(1, "BTC/USDT", "BTC", "USDT", None, None, None, None);
      var row := VolumeData(1, Some("15m"), 45900, 100.0, 110.0, 100.0, 105.0, 50.0, 105.0,
                            None, Some(10.0), None, None, None, None, None, None, None,
                            None, None, None, None, None, None);
      var rank := Rank([1], [], []);
      var first := Run([row], State([crypto], []), rank, SeenAsWritten);
      var second := Run([row], first.state, rank, SeenAsWritten);
      !first.failed && |first.state.spikes| == 1 && !second.failed && |second.state.spikes| == 2
  {
    var crypto := Crypto(1, "BTC/USDT", "BTC", "USDT", None, None, None, None);
    var row := VolumeData(1, Some("15m"), 45900, 100.0, 110.0, 100.0, 105.0, 50.0, 105.0,
                          None, Some(10.0), None, None, None, None, None, None, None,
                          None, None, None, None, None, None);
    var rank := Rank([1], [], []);
    assert [row][..0] == [];
    assert FindCrypto([crypto], 1) == Some(crypto);
    var updated := crypto.(lastVolumeAlert := Some(45900));
    assert UpdateCrypto([crypto], 1, (c: Crypto) => c.(lastVolumeAlert := Some(45900))) == [updated];
    assert FindCrypto([updated], 1) == Some(updated);
    assert StartOfDay(45900) == 0;
    assert Amplitude(110.0, 100.0) == 10.0;
  }
}
