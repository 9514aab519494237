/** `tracker:rsi-alert`: every crypto, by descending 24-hour volume, is read
    in four timeframes; a latest candle whose RSI is below 30 becomes an
    alert in its timeframe's group, and every group with alerts is sent as
    one Telegram message. */
module RsiAlert {
  import opened Common
  import opened Schema
  import opened Text
  import opened VolumeOrder

  /** The timeframes `handle` reads, in order. */
  const Timeframes: seq<string> := ["1m", "15m", "1h", "4h"]

  /** The timeframes `getPriceChanges` reports. */
  const ChangeTimeframes: seq<string> := ["15m", "1h", "4h"]

  /** The `latest<tf>` relation of a crypto: its candle of greatest timestamp
      in the timeframe, or null when it has none. */
  function LatestIn(rows: seq<VolumeData>, id: nat, tf: string): (r: Option<VolumeData>)
    ensures r.None? <==> forall x :: x in rows ==> !(x.cryptoId == id && x.timeframe == Some(tf))
    ensures r.Some? ==> r.value in rows && r.value.cryptoId == id && r.value.timeframe == Some(tf)
    ensures r.Some? ==> forall x :: x in rows && x.cryptoId == id && x.timeframe == Some(tf) ==>
      x.timestamp <= r.value.timestamp
  {
    var own := Filter(rows, (x: VolumeData) => x.cryptoId == id && x.timeframe == Some(tf));
    if own == [] then None else Some(LatestOf(own))
  }

  /** `$data->meta?->get('rsi')` on a candle. */
  function RsiOf(data: VolumeData): Option<real> {
    if data.meta.Some? then data.meta.value.rsi else None
  }

  /** `$rsi !== null && $rsi < 30`. */
  predicate Oversold(data: VolumeData) {
    RsiOf(data).Some? && RsiOf(data).value < 30.0
  }

  /** One `price_change` entry: the latest candle's, or 0 without a candle. */
  function PriceChange(rows: seq<VolumeData>, id: nat, tf: string): Option<real> {
    match LatestIn(rows, id, tf)
    case None => Some(0.0)
    case Some(data) => data.priceChange
  }

  /** The array `getPriceChanges` returns, keyed by timeframe. */
  function PriceChanges(rows: seq<VolumeData>, id: nat): map<string, Option<real>> {
    map tf | tf in ChangeTimeframes :: PriceChange(rows, id, tf)
  }

  /** `getPriceChanges`: one entry for each of 15m, 1h and 4h, the latest
      candle's price change, or 0 for a timeframe without candles. */
  method GetPriceChanges(rows: seq<VolumeData>, crypto: Crypto) returns (changes: map<string, Option<real>>)
    ensures changes.Keys == {"15m", "1h", "4h"}
    ensures forall tf :: tf in changes ==>
      changes[tf] == (if LatestIn(rows, crypto.id, tf).None? then Some(0.0)
                      else LatestIn(rows, crypto.id, tf).value.priceChange)
    ensures changes == PriceChanges(rows, crypto.id)
  {
    changes := map[];
    var i := 0;
    while i < |ChangeTimeframes|
      invariant 0 <= i <= |ChangeTimeframes|
      invariant changes == map tf | tf in ChangeTimeframes[..i] :: PriceChange(rows, crypto.id, tf)
    {
      var tf := ChangeTimeframes[i];
      var data := LatestIn(rows, crypto.id, tf);
      changes := changes[tf := if data.Some? then data.value.priceChange else Some(0.0)];
      assert ChangeTimeframes[..i + 1] == ChangeTimeframes[..i] + [tf];
      i := i + 1;
    }
    assert ChangeTimeframes[..i] == ChangeTimeframes;
  }

  /** One element of `$alerts[$timeframe]`. */
  datatype RsiAlert = RsiAlert(
    symbol: string,
    rsi: real,
    price: real,
    priceChanges: map<string, Option<real>>,
    timeframe: string,
    timestamp: int)

  /** The alert a crypto yields in a timeframe: its latest candle is
      oversold. A crypto without a candle in the timeframe yields none. */
  function Probe(rows: seq<VolumeData>, crypto: Crypto, tf: string): (r: Option<RsiAlert>)
    ensures r.Some? <==> LatestIn(rows, crypto.id, tf).Some? && Oversold(LatestIn(rows, crypto.id, tf).value)
    ensures r.Some? ==>
      var data := LatestIn(rows, crypto.id, tf).value;
      r.value.rsi < 30.0 && Some(r.value.rsi) == RsiOf(data) &&
      r.value == RsiAlert(crypto.symbol, r.value.rsi, data.close, PriceChanges(rows, crypto.id), tf, data.timestamp)
  {
    match LatestIn(rows, crypto.id, tf)
    case None => None
    case Some(data) =>
      if Oversold(data) then
        Some(RsiAlert(crypto.symbol, RsiOf(data).value, data.close, PriceChanges(rows, crypto.id), tf, data.timestamp))
      else None
  }

  /** The probe of all cryptos and timeframes. */
  function ProbeIn(rows: seq<VolumeData>): (Crypto, string) -> Option<RsiAlert> {
    (crypto: Crypto, tf: string) => Probe(rows, crypto, tf)
  }

  /** An optional alert as zero or one alerts. */
  function AsSeq(o: Option<RsiAlert>): seq<RsiAlert> {
    match o
    case None => []
    case Some(a) => [a]
  }

  /** The alerts of a timeframe a loop over the cryptos collects with a
      given probe, in crypto order. */
  function HitsWith(probe: (Crypto, string) -> Option<RsiAlert>, cryptos: seq<Crypto>, tf: string): seq<RsiAlert>
    decreases |cryptos|
  {
    if cryptos == [] then []
    else HitsWith(probe, cryptos[..|cryptos| - 1], tf) + AsSeq(probe(cryptos[|cryptos| - 1], tf))
  }

  /** The oversold alerts of a timeframe, in crypto order. */
  function HitsFor(rows: seq<VolumeData>, cryptos: seq<Crypto>, tf: string): seq<RsiAlert> {
    HitsWith(ProbeIn(rows), cryptos, tf)
  }

  lemma {:induction false} HitsWithIff(probe: (Crypto, string) -> Option<RsiAlert>, cryptos: seq<Crypto>, tf: string, a: RsiAlert)
    ensures a in HitsWith(probe, cryptos, tf) <==> exists k :: 0 <= k < |cryptos| && probe(cryptos[k], tf) == Some(a)
    decreases |cryptos|
  {
    if cryptos != [] {
      var init := cryptos[..|cryptos| - 1];
      HitsWithIff(probe, init, tf, a);
      if exists k :: 0 <= k < |init| && probe(init[k], tf) == Some(a) {
        var k :| 0 <= k < |init| && probe(init[k], tf) == Some(a);
        assert cryptos[k] == init[k];
      }
      if exists k :: 0 <= k < |cryptos| && probe(cryptos[k], tf) == Some(a) {
        var k :| 0 <= k < |cryptos| && probe(cryptos[k], tf) == Some(a);
        if k < |init| {
          assert init[k] == cryptos[k];
        }
      }
    }
  }

  /** Every alert of a timeframe comes from a crypto whose latest candle there
      is oversold, and every such crypto has its alert. */
  lemma HitsForIff(rows: seq<VolumeData>, cryptos: seq<Crypto>, tf: string, a: RsiAlert)
    ensures a in HitsFor(rows, cryptos, tf) <==> exists k :: 0 <= k < |cryptos| && Probe(rows, cryptos[k], tf) == Some(a)
  {
    HitsWithIff(ProbeIn(rows), cryptos, tf, a);
  }

  lemma {:induction false} HitsWithAppend(probe: (Crypto, string) -> Option<RsiAlert>, cs: seq<Crypto>, ds: seq<Crypto>, tf: string)
    ensures HitsWith(probe, cs + ds, tf) == HitsWith(probe, cs, tf) + HitsWith(probe, ds, tf)
    decreases |ds|
  {
    if ds == [] {
      assert cs + ds == cs;
    } else {
      var init := ds[..|ds| - 1];
      assert (cs + ds)[..|cs + ds| - 1] == cs + init;
      assert (cs + ds)[|cs + ds| - 1] == ds[|ds| - 1];
      HitsWithAppend(probe, cs, init, tf);
    }
  }

  /** The alerts of earlier cryptos come before those of later ones. */
  lemma HitsForAppend(rows: seq<VolumeData>, cs: seq<Crypto>, ds: seq<Crypto>, tf: string)
    ensures HitsFor(rows, cs + ds, tf) == HitsFor(rows, cs, tf) + HitsFor(rows, ds, tf)
  {
    HitsWithAppend(ProbeIn(rows), cs, ds, tf);
  }

  /** `$alerts`: the groups in key order, each a timeframe and its alerts. */
  datatype Group = Group(timeframe: string, alerts: seq<RsiAlert>)

  /** The groups `$alerts` starts with. */
  const InitialGroups: seq<Group> := [Group("15m", []), Group("1h", [])]

  /** The group of a timeframe: the key test. */
  function KeyIs(tf: string): Group -> bool {
    (g: Group) => g.timeframe == tf
  }

  /** `$alerts[$timeframe][] = $alert`: append to the timeframe's group, or
      add the group at the end. */
  function AddAlert(groups: seq<Group>, tf: string, a: RsiAlert): seq<Group> {
    UpdateOrCreate(groups, KeyIs(tf), (g: Group) => g.(alerts := g.alerts + [a]), Group(tf, [a]))
  }

  /** The alerts of a timeframe's group, if there is one. */
  function GroupOf(groups: seq<Group>, tf: string): Option<seq<RsiAlert>> {
    match FirstIndex(groups, KeyIs(tf))
    case None => None
    case Some(i) => Some(groups[i].alerts)
  }

  /** A group after more alerts are appended: it exists once it has any. */
  function Extend(group: Option<seq<RsiAlert>>, more: seq<RsiAlert>): Option<seq<RsiAlert>> {
    if more == [] then group else Some(group.GetOr([]) + more)
  }

  lemma ExtendTwice(group: Option<seq<RsiAlert>>, x: seq<RsiAlert>, y: seq<RsiAlert>)
    ensures Extend(Extend(group, x), y) == Extend(group, x + y)
  {
    if x == [] {
      assert x + y == y;
    } else if y == [] {
      assert x + y == x;
      assert Extend(Extend(group, x), y) == Extend(group, x);
    } else {
      assert group.GetOr([]) + x + y == group.GetOr([]) + (x + y);
    }
  }

  /** No two groups share a timeframe. */
  predicate DistinctKeys(groups: seq<Group>) {
    forall i, j :: 0 <= i < j < |groups| ==> groups[i].timeframe != groups[j].timeframe
  }

  /** Adding an alert appends it to its timeframe's group and leaves the
      other groups as they are. */
  lemma AddAlertGroupOf(groups: seq<Group>, tf: string, a: RsiAlert, q: string)
    ensures GroupOf(AddAlert(groups, tf, a), q) == if q == tf then Extend(GroupOf(groups, q), [a]) else GroupOf(groups, q)
    ensures DistinctKeys(groups) ==> DistinctKeys(AddAlert(groups, tf, a))
  {
    var isTf := KeyIs(tf);
    var isQ := KeyIs(q);
    var r := AddAlert(groups, tf, a);
    match FirstIndex(groups, isTf)
    case Some(i) =>
      assert r == groups[i := groups[i].(alerts := groups[i].alerts + [a])];
      assert forall k :: 0 <= k < |r| ==> r[k].timeframe == groups[k].timeframe;
      match FirstIndex(groups, isQ) {
        case None =>
          assert FirstIndex(r, isQ).None?;
        case Some(k) =>
          FirstIndexSamePattern(groups, r, isQ, k);
          if q == tf {
            assert k == i;
          }
      }
    case None =>
      assert r == groups + [Group(tf, [a])];
      if q == tf {
        assert forall k :: 0 <= k < |groups| ==> !isQ(groups[k]);
        FirstIndexAfter(groups, [Group(tf, [a])], isQ);
        assert r[|groups|] == Group(tf, [a]);
        assert GroupOf(groups, q).None? && GroupOf(groups, q).GetOr([]) + [a] == [a];
      } else {
        match FirstIndex(groups, isQ) {
          case None =>
            assert FirstIndex(r, isQ).None?;
          case Some(k) =>
            FirstIndexExtended(groups, [Group(tf, [a])], isQ);
        }
      }
  }

  /** A match in a prefix is still the first match after appending. */
  lemma FirstIndexExtended<T>(s: seq<T>, t: seq<T>, p: T -> bool)
    requires FirstIndex(s, p).Some?
    ensures FirstIndex(s + t, p) == FirstIndex(s, p)
  {
    var k := FirstIndex(s, p).value;
    assert (s + t)[k] == s[k];
    var r := FirstIndex(s + t, p);
    assert r.Some?;
    assert forall i :: 0 <= i < |s| ==> (s + t)[i] == s[i];
  }

  /** One iteration of the inner loop: the crypto's alert for the timeframe,
      if any, joins the groups. */
  function ScanStep(groups: seq<Group>, tf: string, found: Option<RsiAlert>): seq<Group> {
    match found
    case None => groups
    case Some(a) => AddAlert(groups, tf, a)
  }

  /** The inner loop over the given timeframes, with a given probe. */
  function Scan(groups: seq<Group>, probe: (Crypto, string) -> Option<RsiAlert>, crypto: Crypto, tfs: seq<string>): seq<Group>
    decreases |tfs|
  {
    if tfs == [] then groups
    else
      var tf := tfs[|tfs| - 1];
      ScanStep(Scan(groups, probe, crypto, tfs[..|tfs| - 1]), tf, probe(crypto, tf))
  }

  /** The outer loop over the cryptos, with a given probe. */
  function CollectWith(probe: (Crypto, string) -> Option<RsiAlert>, cryptos: seq<Crypto>): seq<Group>
    decreases |cryptos|
  {
    if cryptos == [] then InitialGroups
    else Scan(CollectWith(probe, cryptos[..|cryptos| - 1]), probe, cryptos[|cryptos| - 1], Timeframes)
  }

  /** `$alerts` after the loop over the cryptos in the given order. */
  function Collect(rows: seq<VolumeData>, cryptos: seq<Crypto>): seq<Group> {
    CollectWith(ProbeIn(rows), cryptos)
  }

  lemma ScanStepGroupOf(groups: seq<Group>, tf: string, found: Option<RsiAlert>, q: string)
    ensures GroupOf(ScanStep(groups, tf, found), q) ==
      if q == tf then Extend(GroupOf(groups, q), AsSeq(found)) else GroupOf(groups, q)
    ensures DistinctKeys(groups) ==> DistinctKeys(ScanStep(groups, tf, found))
  {
    match found
    case None =>
    case Some(a) =>
      AddAlertGroupOf(groups, tf, a, q);
  }

  /** Distinct timeframes each append the crypto's alert to their own group. */
  lemma {:induction false} ScanGroupOf(groups: seq<Group>, probe: (Crypto, string) -> Option<RsiAlert>, crypto: Crypto,
                                       tfs: seq<string>, q: string)
    requires forall i, j :: 0 <= i < j < |tfs| ==> tfs[i] != tfs[j]
    ensures GroupOf(Scan(groups, probe, crypto, tfs), q) ==
      Extend(GroupOf(groups, q), if q in tfs then AsSeq(probe(crypto, q)) else [])
    ensures DistinctKeys(groups) ==> DistinctKeys(Scan(groups, probe, crypto, tfs))
    decreases |tfs|
  {
    if tfs != [] {
      var init := tfs[..|tfs| - 1];
      var t := tfs[|tfs| - 1];
      ScanGroupOf(groups, probe, crypto, init, q);
      ScanStepGroupOf(Scan(groups, probe, crypto, init), t, probe(crypto, t), q);
      assert tfs == init + [t];
      if q == t {
        assert q !in init;
      }
    }
  }

  lemma {:induction false} CollectWithGroupOf(probe: (Crypto, string) -> Option<RsiAlert>, cryptos: seq<Crypto>, q: string)
    ensures GroupOf(CollectWith(probe, cryptos), q) ==
      Extend(GroupOf(InitialGroups, q), if q in Timeframes then HitsWith(probe, cryptos, q) else [])
    ensures DistinctKeys(CollectWith(probe, cryptos))
    decreases |cryptos|
  {
    if cryptos == [] {
      assert DistinctKeys(InitialGroups);
    } else {
      var init := cryptos[..|cryptos| - 1];
      var c := cryptos[|cryptos| - 1];
      CollectWithGroupOf(probe, init, q);
      ScanGroupOf(CollectWith(probe, init), probe, c, Timeframes, q);
      if q in Timeframes {
        ExtendTwice(GroupOf(InitialGroups, q), HitsWith(probe, init, q), AsSeq(probe(c, q)));
      }
    }
  }

  /** The groups after the loop: 15m and 1h are always there, 1m and 4h
      only once they have an alert, and each holds exactly the alerts of its
      timeframe, in crypto order. No two groups share a timeframe. */
  lemma GroupsByTimeframe(rows: seq<VolumeData>, cryptos: seq<Crypto>, tf: string)
    requires tf in Timeframes
    ensures GroupOf(Collect(rows, cryptos), tf) ==
      if tf == "15m" || tf == "1h" || HitsFor(rows, cryptos, tf) != [] then Some(HitsFor(rows, cryptos, tf)) else None
    ensures DistinctKeys(Collect(rows, cryptos))
  {
    GroupsWithByTimeframe(ProbeIn(rows), cryptos, tf);
  }

  lemma GroupsWithByTimeframe(probe: (Crypto, string) -> Option<RsiAlert>, cryptos: seq<Crypto>, tf: string)
    requires tf in Timeframes
    ensures GroupOf(CollectWith(probe, cryptos), tf) ==
      if tf == "15m" || tf == "1h" || HitsWith(probe, cryptos, tf) != [] then Some(HitsWith(probe, cryptos, tf)) else None
    ensures DistinctKeys(CollectWith(probe, cryptos))
  {
    CollectWithGroupOf(probe, cryptos, tf);
    InitialGroupOf(tf);
    assert [] + HitsWith(probe, cryptos, tf) == HitsWith(probe, cryptos, tf);
  }

  /** `$alerts` starts with empty 15m and 1h groups and nothing else. */
  lemma InitialGroupOf(tf: string)
    ensures GroupOf(InitialGroups, tf) == if tf == "15m" || tf == "1h" then Some([]) else None
  {
    var isTf := KeyIs(tf);
    if tf == "15m" {
      assert isTf(InitialGroups[0]);
    } else if tf == "1h" {
      assert "15m"[1] != "1h"[1];
      assert !isTf(InitialGroups[0]) && isTf(InitialGroups[1]);
    } else {
      assert !isTf(InitialGroups[0]) && !isTf(InitialGroups[1]);
    }
  }

  /** The header line `*RSI <TIMEFRAME>*`. */
  function Header(tf: string): string {
    "*RSI " + Upper(tf) + "*"
  }

  /** The blocks of a message, one per alert. */
  function Blocks(alerts: seq<RsiAlert>, format: RsiAlert -> string): (r: seq<string>)
    ensures |r| == |alerts| && forall i :: 0 <= i < |r| ==> r[i] == format(alerts[i])
  {
    seq(|alerts|, i requires 0 <= i < |alerts| => format(alerts[i]))
  }

  /** The text `formatAlerts` returns: the header and the blocks, separated
      by blank lines. `format` stands for the `sprintf` of one alert. */
  function AlertsText(tf: string, alerts: seq<RsiAlert>, format: RsiAlert -> string): string {
    Join([Header(tf)] + Blocks(alerts, format), "\n\n")
  }

  /** `formatAlerts`. */
  method FormatAlerts(tf: string, alerts: seq<RsiAlert>, format: RsiAlert -> string) returns (text: string)
    ensures text == AlertsText(tf, alerts, format)
  {
    var messages := [Header(tf)];
    var i := 0;
    while i < |alerts|
      invariant 0 <= i <= |alerts|
      invariant messages == [Header(tf)] + Blocks(alerts[..i], format)
    {
      assert Blocks(alerts[..i + 1], format) == Blocks(alerts[..i], format) + [format(alerts[i])];
      messages := messages + [format(alerts[i])];
      i := i + 1;
    }
    assert alerts[..i] == alerts;
    text := Join(messages, "\n\n");
  }

  /** A piece that cannot run into the blank-line separator. */
  ghost predicate Separable(piece: string) {
    !Contains(piece + "\n", "\n\n")
  }

  /** A line without a newline is separable. */
  lemma NoNewlineSeparable(s: string)
    requires forall i :: 0 <= i < |s| ==> s[i] != '\n'
    ensures Separable(s)
  {
    var x := s + "\n";
    forall j ensures !OccursAt(x, "\n\n", j) {
      if 0 <= j && j + 2 <= |x| {
        assert x[j..j + 2][0] == x[j] == s[j];
      }
    }
  }

  /** When no block contains a blank line or ends in a newline, the message
      splits back at its blank lines into the header and the blocks. */
  lemma AlertsTextSplits(tf: string, alerts: seq<RsiAlert>, format: RsiAlert -> string)
    requires forall i :: 0 <= i < |tf| ==> tf[i] != '\n'
    requires forall a :: a in alerts ==> Separable(format(a))
    ensures Explode(AlertsText(tf, alerts, format), "\n\n") == [Header(tf)] + Blocks(alerts, format)
  {
    var h := Header(tf);
    forall i | 0 <= i < |h| ensures h[i] != '\n' {
      if 5 <= i < 5 + |tf| {
        assert h[i] == Upper(tf)[i - 5];
      }
    }
    NoNewlineSeparable(h);
    var pieces := [h] + Blocks(alerts, format);
    forall i | 0 <= i < |pieces| ensures !Contains(pieces[i] + "\n\n"[..1], "\n\n") {
      assert "\n\n"[..1] == "\n";
      if i > 0 {
        assert pieces[i] == format(alerts[i - 1]);
      }
    }
    ExplodeJoin(pieces, "\n\n");
  }

  /** The messages the send loop posts: one per group with alerts, in group
      order. */
  function Messages(groups: seq<Group>, format: RsiAlert -> string): seq<string>
    decreases |groups|
  {
    if groups == [] then []
    else
      var g := groups[|groups| - 1];
      Messages(groups[..|groups| - 1], format) + (if g.alerts != [] then [AlertsText(g.timeframe, g.alerts, format)] else [])
  }

  /** Every group with alerts has its message, and every message is that of
      a group with alerts. */
  lemma {:induction false} MessagesIff(groups: seq<Group>, format: RsiAlert -> string, m: string)
    ensures m in Messages(groups, format) <==>
      exists k :: 0 <= k < |groups| && groups[k].alerts != [] && m == AlertsText(groups[k].timeframe, groups[k].alerts, format)
    decreases |groups|
  {
    if groups != [] {
      var init := groups[..|groups| - 1];
      var g := groups[|groups| - 1];
      var tail := if g.alerts != [] then [AlertsText(g.timeframe, g.alerts, format)] else [];
      assert Messages(groups, format) == Messages(init, format) + tail;
      MessagesIff(init, format, m);
      if m in Messages(init, format) {
        var k :| 0 <= k < |init| && init[k].alerts != [] && m == AlertsText(init[k].timeframe, init[k].alerts, format);
        assert groups[k] == init[k];
      } else if m in tail {
        assert g.alerts != [] && m == AlertsText(g.timeframe, g.alerts, format);
      }
      if exists k :: 0 <= k < |groups| && groups[k].alerts != [] && m == AlertsText(groups[k].timeframe, groups[k].alerts, format) {
        var k :| 0 <= k < |groups| && groups[k].alerts != [] && m == AlertsText(groups[k].timeframe, groups[k].alerts, format);
        if k < |init| {
          assert init[k] == groups[k];
        } else {
          assert m in tail;
        }
      }
    }
  }

  /** No message is sent for a group without alerts: there are at most as
      many messages as groups. */
  lemma {:induction false} MessagesBounded(groups: seq<Group>, format: RsiAlert -> string)
    ensures |Messages(groups, format)| <= |groups|
    ensures (forall k :: 0 <= k < |groups| ==> groups[k].alerts == []) ==> Messages(groups, format) == []
    decreases |groups|
  {
    if groups != [] {
      MessagesBounded(groups[..|groups| - 1], format);
    }
  }

  /** A timeframe with alerts gets its message, listing them in crypto
      order; a timeframe without any gets none. */
  lemma MessagePerTimeframe(rows: seq<VolumeData>, cryptos: seq<Crypto>, tf: string, format: RsiAlert -> string)
    requires tf in Timeframes
    ensures HitsFor(rows, cryptos, tf) != [] ==>
      AlertsText(tf, HitsFor(rows, cryptos, tf), format) in Messages(Collect(rows, cryptos), format)
    ensures forall k :: 0 <= k < |Collect(rows, cryptos)| && Collect(rows, cryptos)[k].timeframe == tf ==>
      Collect(rows, cryptos)[k].alerts == HitsFor(rows, cryptos, tf)
  {
    var groups := Collect(rows, cryptos);
    var isTf := KeyIs(tf);
    GroupsByTimeframe(rows, cryptos, tf);
    forall k | 0 <= k < |groups| && groups[k].timeframe == tf
      ensures groups[k].alerts == HitsFor(rows, cryptos, tf)
    {
      var i := FirstIndex(groups, isTf).value;
      assert i == k;
    }
    if HitsFor(rows, cryptos, tf) != [] {
      var i := FirstIndex(groups, isTf).value;
      MessagesIff(groups, format, AlertsText(tf, HitsFor(rows, cryptos, tf), format));
    }
  }

  /** `handle`, with a crypto that has no candle in a timeframe skipped
      there. Returns the messages posted, in order. */
  method Handle(rows: seq<VolumeData>, cryptos: seq<Crypto>, format: RsiAlert -> string)
    returns (messages: seq<string>)
    ensures messages == Messages(Collect(rows, ByVolume(cryptos)), format)
  {
    var order := ByVolume(cryptos);
    var groups := InitialGroups;
    var i := 0;
    while i < |order|
      invariant 0 <= i <= |order|
      invariant groups == Collect(rows, order[..i])
    {
      groups := ScanCrypto(groups, rows, order[i]);
      assert order[..i + 1][..i] == order[..i];
      assert Collect(rows, order[..i + 1]) == Scan(Collect(rows, order[..i]), ProbeIn(rows), order[i], Timeframes);
      i := i + 1;
    }
    assert order[..i] == order;
    messages := SendGroups(groups, format);
  }

  /** The send loop of `handle`: one message per group with alerts. */
  method SendGroups(groups: seq<Group>, format: RsiAlert -> string) returns (messages: seq<string>)
    ensures messages == Messages(groups, format)
  {
    messages := [];
    var k := 0;
    while k < |groups|
      invariant 0 <= k <= |groups|
      invariant messages == Messages(groups[..k], format)
    {
      assert groups[..k + 1][..k] == groups[..k];
      if groups[k].alerts != [] {
        var text := FormatAlerts(groups[k].timeframe, groups[k].alerts, format);
        messages := messages + [text];
      }
      k := k + 1;
    }
    assert groups[..k] == groups;
  }

  /** The inner loop of `handle` for one crypto. */
  method ScanCrypto(groups: seq<Group>, rows: seq<VolumeData>, crypto: Crypto) returns (r: seq<Group>)
    ensures r == Scan(groups, ProbeIn(rows), crypto, Timeframes)
  {
    r := groups;
    var j := 0;
    while j < |Timeframes|
      invariant 0 <= j <= |Timeframes|
      invariant r == Scan(groups, ProbeIn(rows), crypto, Timeframes[..j])
    {
      var tf := Timeframes[j];
      assert Timeframes[..j + 1][..j] == Timeframes[..j];
      var data := LatestIn(rows, crypto.id, tf);
      if data.Some? {
        var rsi := RsiOf(data.value);
        if rsi.Some? && rsi.value < 30.0 {
          var changes := GetPriceChanges(rows, crypto);
          r := AddAlert(r, tf, RsiAlert(crypto.symbol, rsi.value, data.value.close, changes, tf, data.value.timestamp));
        }
      }
      j := j + 1;
    }
    assert Timeframes[..j] == Timeframes;
  }

  // ---------------------------------------------------------------------------
  // As written, a crypto without a candle in some timeframe stops the command

  /** Whether a crypto has a candle in a timeframe. */
  function PresentIn(rows: seq<VolumeData>): (Crypto, string) -> bool {
    (crypto: Crypto, tf: string) => LatestIn(rows, crypto.id, tf).Some?
  }

  /** The inner loop as written, with a given probe and presence test:
      `$data->meta` on a null relation raises, which stops the command before
      any message is sent (None). */
  function ScanAsWrittenWith(groups: seq<Group>, probe: (Crypto, string) -> Option<RsiAlert>,
                             present: (Crypto, string) -> bool, crypto: Crypto, tfs: seq<string>): Option<seq<Group>>
    decreases |tfs|
  {
    if tfs == [] then Some(groups)
    else
      var tf := tfs[|tfs| - 1];
      match ScanAsWrittenWith(groups, probe, present, crypto, tfs[..|tfs| - 1])
      case None => None
      case Some(g) => if present(crypto, tf) then Some(ScanStep(g, tf, probe(crypto, tf))) else None
  }

  function CollectAsWrittenWith(probe: (Crypto, string) -> Option<RsiAlert>, present: (Crypto, string) -> bool,
                                cryptos: seq<Crypto>): Option<seq<Group>>
    decreases |cryptos|
  {
    if cryptos == [] then Some(InitialGroups)
    else
      match CollectAsWrittenWith(probe, present, cryptos[..|cryptos| - 1])
      case None => None
      case Some(g) => ScanAsWrittenWith(g, probe, present, cryptos[|cryptos| - 1], Timeframes)
  }

  /** The loop of `handle` as written; None when it stops at a crypto
      without a candle in one of the timeframes. */
  function CollectAsWritten(rows: seq<VolumeData>, cryptos: seq<Crypto>): Option<seq<Group>> {
    CollectAsWrittenWith(ProbeIn(rows), PresentIn(rows), cryptos)
  }

  predicate CompleteWith(present: (Crypto, string) -> bool, cryptos: seq<Crypto>) {
    forall k, t :: 0 <= k < |cryptos| && 0 <= t < |Timeframes| ==> present(cryptos[k], Timeframes[t])
  }

  /** Every crypto has a candle in every timeframe. */
  predicate Complete(rows: seq<VolumeData>, cryptos: seq<Crypto>) {
    CompleteWith(PresentIn(rows), cryptos)
  }

  lemma {:induction false} ScanAsWrittenIff(groups: seq<Group>, probe: (Crypto, string) -> Option<RsiAlert>,
                                            present: (Crypto, string) -> bool, crypto: Crypto, tfs: seq<string>)
    ensures ScanAsWrittenWith(groups, probe, present, crypto, tfs) ==
      if forall t :: 0 <= t < |tfs| ==> present(crypto, tfs[t]) then Some(Scan(groups, probe, crypto, tfs)) else None
    decreases |tfs|
  {
    if tfs != [] {
      var init := tfs[..|tfs| - 1];
      ScanAsWrittenIff(groups, probe, present, crypto, init);
      assert forall t :: 0 <= t < |init| ==> init[t] == tfs[t];
    }
  }

  lemma {:induction false} CollectAsWrittenWithIff(probe: (Crypto, string) -> Option<RsiAlert>,
                                                   present: (Crypto, string) -> bool, cryptos: seq<Crypto>)
    ensures CollectAsWrittenWith(probe, present, cryptos) ==
      if CompleteWith(present, cryptos) then Some(CollectWith(probe, cryptos)) else None
    decreases |cryptos|
  {
    if cryptos != [] {
      var init := cryptos[..|cryptos| - 1];
      var c := cryptos[|cryptos| - 1];
      CollectAsWrittenWithIff(probe, present, init);
      assert forall k :: 0 <= k < |init| ==> init[k] == cryptos[k];
      if CollectAsWrittenWith(probe, present, init).Some? {
        ScanAsWrittenIff(CollectWith(probe, init), probe, present, c, Timeframes);
      }
      if !CompleteWith(present, cryptos) && CompleteWith(present, init) {
        var k, t :| 0 <= k < |cryptos| && 0 <= t < |Timeframes| && !present(cryptos[k], Timeframes[t]);
        assert k == |cryptos| - 1;
      }
    }
  }

  /** As written, the command gets through the loop exactly when every
      crypto has a candle in every timeframe, and then collects what the
      corrected loop collects. */
  lemma CollectAsWrittenIff(rows: seq<VolumeData>, cryptos: seq<Crypto>)
    ensures CollectAsWritten(rows, cryptos) == if Complete(rows, cryptos) then Some(Collect(rows, cryptos)) else None
  {
    CollectAsWrittenWithIff(ProbeIn(rows), PresentIn(rows), cryptos);
  }

  /** A crypto whose only candle is an oversold 15-minute one: as written the
      command stops without a message, while the intended loop sends the 15m
      message with its alert. */
  lemma AsWrittenDropsAlerts(format: RsiAlert -> string)
    ensures var crypto := Crypto(1, "BTC/USDT", "BTC", "USDT", None, None, None, None);
      var row := VolumeData(1, Some("15m"), 900, 1.0, 1.0, 1.0, 1.0, 1.0, 1.0, None,
                            None, None, None, None, None, None, None, None, None, None, None, None, None,
                            Some(EmptyMeta.(rsi := Some(20.0))));
      CollectAsWritten([row], [crypto]).None? &&
      |HitsFor([row], [crypto], "15m")| == 1 &&
      AlertsText("15m", HitsFor([row], [crypto], "15m"), format) in Messages(Collect([row], [crypto]), format)
  {
    var crypto := Crypto(1, "BTC/USDT", "BTC", "USDT", None, None, None, None);
    var row := VolumeData(1, Some("15m"), 900, 1.0, 1.0, 1.0, 1.0, 1.0, 1.0, None,
                          None, None, None, None, None, None, None, None, None, None, None, None, None,
                          Some(EmptyMeta.(rsi := Some(20.0))));
    assert !([row][0].cryptoId == 1 && [row][0].timeframe == Some("1m"));
    assert LatestIn([row], 1, "1m").None?;
    assert !PresentIn([row])([crypto][0], Timeframes[0]);
    CollectAsWrittenIff([row], [crypto]);
    assert LatestIn([row], 1, "15m") == Some(row);
    assert Probe([row], crypto, "15m").Some?;
    assert [crypto][..0] == [];
    assert HitsWith(ProbeIn([row]), [crypto], "15m") == HitsWith(ProbeIn([row]), [], "15m") + AsSeq(ProbeIn([row])(crypto, "15m"));
    MessagePerTimeframe([row], [crypto], "15m", format);
  }
}
