/** The `tracker:cleanup` command of Cleanup.php: four deletes on
    `volume_data`, each removing the rows of one timeframe older than that
    timeframe's retention time. */
module Cleanup {
  import opened Common
  import opened Schema

  /** How long each timeframe is kept, in seconds (lines 30-33): 70 minutes of
      1m rows, 15 hours of 15m rows, 55 hours of 1h rows and 220 hours of 4h
      rows. Every other timeframe, and a row without one, is kept for ever. */
  function Retention(timeframe: Option<string>): (r: Option<int>)
    ensures r.Some? <==> timeframe in {Some("1m"), Some("15m"), Some("1h"), Some("4h")}
  {
    match timeframe
    case Some("1m") => Some(70 * 60)
    case Some("15m") => Some(15 * 60 * 60)
    case Some("1h") => Some(55 * 60 * 60)
    case Some("4h") => Some(55 * 4 * 60 * 60)
    case _ => None
  }

  /** A row one of the deletes removes at time now: its timeframe has a
      retention and its timestamp lies strictly before now minus it. */
  predicate Expired(row: VolumeData, now: int) {
    Retention(row.timeframe).Some? && row.timestamp < now - Retention(row.timeframe).value
  }

  function Retained(now: int): VolumeData -> bool {
    (row: VolumeData) => !Expired(row, now)
  }

  /** `VolumeData::where('timeframe', tf)->where('timestamp', '<', before)->delete()`
      leaves the other rows, in order. */
  function Survives(timeframe: string, before: int): VolumeData -> bool {
    (row: VolumeData) => !(row.timeframe == Some(timeframe) && row.timestamp < before)
  }

  /** The four deletes of `handle`, one after the other. */
  function Deletes(now: int): VolumeData -> bool {
    Both(Both(Both(Survives("1m", now - 70 * 60), Survives("15m", now - 15 * 60 * 60)),
              Survives("1h", now - 55 * 60 * 60)),
         Survives("4h", now - 55 * 4 * 60 * 60))
  }

  /** Surviving the four deletes is being retained. */
  lemma DeletesAreRetention(now: int, row: VolumeData)
    ensures Deletes(now)(row) == Retained(now)(row)
  {
    match row.timeframe
    case Some(tf) =>
      if tf !in {"1m", "15m", "1h", "4h"} {
        assert Retention(row.timeframe).None?;
      }
    case None =>
  }

  /** `handle`: the four deletes in turn. The table afterwards is the table
      filtered by `Retained`: the rows kept are exactly those not expired, in
      their order. */
  method Handle(rows: seq<VolumeData>, now: int) returns (after: seq<VolumeData>)
    ensures after == Filter(rows, Retained(now))
  {
    var minute := Survives("1m", now - 70 * 60);
    var quarter := Survives("15m", now - 15 * 60 * 60);
    var hour := Survives("1h", now - 55 * 60 * 60);
    var fourHours := Survives("4h", now - 55 * 4 * 60 * 60);
    after := Filter(rows, minute);
    FilterFilter(rows, minute, quarter);
    after := Filter(after, quarter);
    FilterFilter(rows, Both(minute, quarter), hour);
    after := Filter(after, hour);
    FilterFilter(rows, Both(Both(minute, quarter), hour), fourHours);
    after := Filter(after, fourHours);
    forall i | 0 <= i < |rows| ensures Deletes(now)(rows[i]) == Retained(now)(rows[i]) {
      DeletesAreRetention(now, rows[i]);
    }
    FilterSame(rows, Deletes(now), Retained(now));
  }

  /** A row is kept exactly when it is not expired. */
  lemma KeptIff(rows: seq<VolumeData>, now: int, row: VolumeData)
    ensures row in Filter(rows, Retained(now)) <==> row in rows && !Expired(row, now)
  {
    if row in rows && !Expired(row, now) {
      var i :| 0 <= i < |rows| && rows[i] == row;
      assert Retained(now)(rows[i]);
    }
  }

  /** The comparison is strict: a row exactly at its timeframe's cutoff is
      kept, and one a second older is deleted. */
  lemma CutoffIsKept(row: VolumeData, now: int)
    requires Retention(row.timeframe).Some?
    ensures row.timestamp == now - Retention(row.timeframe).value ==> !Expired(row, now)
    ensures row.timestamp == now - Retention(row.timeframe).value - 1 ==> Expired(row, now)
  {
  }

  /** The row of a timeframe. */
  function OfTimeframe(timeframe: Option<string>): VolumeData -> bool {
    (row: VolumeData) => row.timeframe == timeframe
  }

  /** The rows of a timeframe without a retention, rows without a timeframe
      included, are all kept, in order. */
  lemma OtherTimeframesKept(rows: seq<VolumeData>, now: int, timeframe: Option<string>)
    requires Retention(timeframe).None?
    ensures Filter(Filter(rows, Retained(now)), OfTimeframe(timeframe)) == Filter(rows, OfTimeframe(timeframe))
  {
    FilterFilter(rows, Retained(now), OfTimeframe(timeframe));
    FilterSame(rows, Both(Retained(now), OfTimeframe(timeframe)), OfTimeframe(timeframe));
  }

  /** A second cleanup at the same time deletes nothing more. */
  lemma Idempotent(rows: seq<VolumeData>, now: int)
    ensures Filter(Filter(rows, Retained(now)), Retained(now)) == Filter(rows, Retained(now))
  {
    FilterFilter(rows, Retained(now), Retained(now));
    FilterSame(rows, Both(Retained(now), Retained(now)), Retained(now));
  }

  /** A later cleanup keeps no row an earlier one deleted. */
  lemma LaterDeletesMore(rows: seq<VolumeData>, now: int, later: int, row: VolumeData)
    requires now <= later
    ensures row in Filter(rows, Retained(later)) ==> row in Filter(rows, Retained(now))
  {
    KeptIff(rows, now, row);
    KeptIff(rows, later, row);
  }
}
