/** The `tracker:fetch-pairs` command of FetchCryptos.php. It asks the
    exchange for its markets, keeps those whose symbol ends in `USDT` and
    upserts each into `cryptos`, keyed by the unique symbol, with the base and
    quote assets and a fresh `last_fetched`. The markets are a parameter:
    `None` when `fetch_markets` throws, which leaves the table as it is. */
module FetchCryptos {
  import opened Common
  import opened Schema
  import Text

  /** A ccxt market: its `symbol`, `base` and `quote`. */
  datatype Market = Market(symbol: string, base: string, quote: string)

  /** Lines 64-66: `str_ends_with($market['symbol'], 'USDT')`. */
  predicate IsUsdt(m: Market) {
    Text.EndsWith(m.symbol, "USDT")
  }

  function UsdtMarkets(markets: seq<Market>): seq<Market> {
    Filter(markets, IsUsdt)
  }

  /** The `cryptos` table and its auto-increment counter: the id the next
      inserted row gets. */
  datatype Table = Table(cryptos: seq<Crypto>, nextId: nat)

  function SymbolOf(c: Crypto): string { c.symbol }

  /** The table keeps the unique index on `symbol` (line 16 of the cryptos
      migration), unique ids, and every id below the counter. */
  predicate Valid(t: Table) {
    UniqueBy(t.cryptos, SymbolOf) && UniqueIds(t.cryptos) &&
    forall i :: 0 <= i < |t.cryptos| ==> t.cryptos[i].id < t.nextId
  }

  function SymbolIs(symbol: string): Crypto -> bool {
    (c: Crypto) => c.symbol == symbol
  }

  /** The values of lines 76-80 written over an existing row. */
  function Refresh(m: Market, now: int): Crypto -> Crypto {
    (c: Crypto) => c.(baseAsset := m.base, quoteAsset := m.quote, lastFetched := Some(now))
  }

  /** A new row: the symbol, the values, and nothing else set. */
  function Created(m: Market, now: int, id: nat): Crypto {
    Crypto(id, m.symbol, m.base, m.quote, None, None, None, Some(now))
  }

  /** Lines 74-81: `Crypto::updateOrCreate(['symbol' => ...], [...])`. */
  function Upsert(t: Table, m: Market, now: int): Table {
    var found := FirstIndex(t.cryptos, SymbolIs(m.symbol));
    Table(UpdateOrCreate(t.cryptos, SymbolIs(m.symbol), Refresh(m, now), Created(m, now, t.nextId)),
          if found.Some? then t.nextId else t.nextId + 1)
  }

  /** The loop of lines 72-84 over the USDT markets, in order. */
  function Run(t: Table, markets: seq<Market>, now: int): Table
    decreases |markets|
  {
    if markets == [] then t
    else Upsert(Run(t, markets[..|markets| - 1], now), markets[|markets| - 1], now)
  }

  function Symbols(cryptos: seq<Crypto>): set<string> {
    set c | c in cryptos :: c.symbol
  }

  function MarketSymbols(markets: seq<Market>): set<string> {
    set m | m in markets :: m.symbol
  }

  // ---------------------------------------------------------------------------
  // One upsert

  /** An upsert keeps the table valid. */
  lemma UpsertKeepsValid(t: Table, m: Market, now: int)
    requires Valid(t)
    ensures Valid(Upsert(t, m, now))
  {
    var r := Upsert(t, m, now);
    UpsertKeepsKeysUnique(t.cryptos, SymbolOf, m.symbol, SymbolIs(m.symbol), Refresh(m, now),
                          Created(m, now, t.nextId));
    match FirstIndex(t.cryptos, SymbolIs(m.symbol))
    case Some(k) =>
      assert forall i :: 0 <= i < |r.cryptos| ==> r.cryptos[i].id == t.cryptos[i].id;
    case None =>
      assert forall i :: 0 <= i < |t.cryptos| ==> r.cryptos[i] == t.cryptos[i];
  }

  /** After an upsert the market's symbol has a row, with the market's assets
      and the fresh stamp. An existing row keeps its place, id, trend, volume
      alert and volume; every other row is unchanged; a new row is appended
      with the counter's id. */
  lemma UpsertWrites(t: Table, m: Market, now: int)
    ensures var r := Upsert(t, m, now).cryptos;
      |t.cryptos| <= |r| <= |t.cryptos| + 1 &&
      (forall i :: 0 <= i < |t.cryptos| ==>
        r[i].id == t.cryptos[i].id && r[i].symbol == t.cryptos[i].symbol &&
        r[i].lastTrend == t.cryptos[i].lastTrend && r[i].lastVolumeAlert == t.cryptos[i].lastVolumeAlert &&
        r[i].volume24 == t.cryptos[i].volume24) &&
      (forall i :: 0 <= i < |t.cryptos| && t.cryptos[i].symbol != m.symbol ==> r[i] == t.cryptos[i]) &&
      (|r| > |t.cryptos| ==> m.symbol !in Symbols(t.cryptos) && r[|t.cryptos|] == Created(m, now, t.nextId)) &&
      (exists i :: 0 <= i < |r| && r[i].symbol == m.symbol && r[i].baseAsset == m.base &&
                   r[i].quoteAsset == m.quote && r[i].lastFetched == Some(now))
  {
    var r := Upsert(t, m, now).cryptos;
    match FirstIndex(t.cryptos, SymbolIs(m.symbol))
    case Some(k) =>
      assert r[k].symbol == m.symbol;
    case None =>
      assert r[|t.cryptos|].symbol == m.symbol;
      forall c | c in t.cryptos ensures c.symbol != m.symbol {
        var i :| 0 <= i < |t.cryptos| && t.cryptos[i] == c;
      }
  }

  /** An upsert adds the market's symbol to the symbols and removes none. */
  lemma UpsertSymbols(t: Table, m: Market, now: int)
    ensures Symbols(Upsert(t, m, now).cryptos) == Symbols(t.cryptos) + {m.symbol}
  {
    var cs := t.cryptos;
    var r := Upsert(t, m, now).cryptos;
    match FirstIndex(cs, SymbolIs(m.symbol))
    case Some(k) =>
      assert r == cs[k := Refresh(m, now)(cs[k])];
      SameSymbols(cs, r);
      assert cs[k] in cs;
    case None =>
      SymbolsSnoc(cs, Created(m, now, t.nextId));
  }

  /** Rows that keep their symbols keep the set of symbols. */
  lemma SameSymbols(cs: seq<Crypto>, r: seq<Crypto>)
    requires |cs| == |r| && forall i :: 0 <= i < |cs| ==> r[i].symbol == cs[i].symbol
    ensures Symbols(r) == Symbols(cs)
  {
    forall s | s in Symbols(r) ensures s in Symbols(cs) {
      var c :| c in r && c.symbol == s;
      var i :| 0 <= i < |r| && r[i] == c;
      assert cs[i] in cs;
    }
    forall s | s in Symbols(cs) ensures s in Symbols(r) {
      var c :| c in cs && c.symbol == s;
      var i :| 0 <= i < |cs| && cs[i] == c;
      assert r[i] in r;
    }
  }

  /** An appended row adds its symbol. */
  lemma SymbolsSnoc(cs: seq<Crypto>, c: Crypto)
    ensures Symbols(cs + [c]) == Symbols(cs) + {c.symbol}
  {
    forall s | s in Symbols(cs + [c]) ensures s in Symbols(cs) + {c.symbol} {
      var d :| d in cs + [c] && d.symbol == s;
      if d != c { assert d in cs; }
    }
  }

  // ---------------------------------------------------------------------------
  // The pass

  /** The table stays valid through the pass. */
  lemma {:induction false} RunKeepsValid(t: Table, markets: seq<Market>, now: int)
    requires Valid(t)
    ensures Valid(Run(t, markets, now))
    decreases |markets|
  {
    if markets != [] {
      RunKeepsValid(t, markets[..|markets| - 1], now);
      UpsertKeepsValid(Run(t, markets[..|markets| - 1], now), markets[|markets| - 1], now);
    }
  }

  lemma MarketSymbolsSnoc(markets: seq<Market>)
    requires markets != []
    ensures MarketSymbols(markets) == MarketSymbols(markets[..|markets| - 1]) + {markets[|markets| - 1].symbol}
  {
    var init := markets[..|markets| - 1];
    var last := markets[|markets| - 1];
    assert markets == init + [last];
    forall s | s in MarketSymbols(markets) ensures s in MarketSymbols(init) + {last.symbol} {
      var m :| m in markets && m.symbol == s;
      if m != last { assert m in init; }
    }
  }

  /** After the pass the symbols are the old ones and the markets' ones: no
      symbol is removed. */
  lemma {:induction false} RunSymbols(t: Table, markets: seq<Market>, now: int)
    ensures Symbols(Run(t, markets, now).cryptos) == Symbols(t.cryptos) + MarketSymbols(markets)
    decreases |markets|
  {
    if markets != [] {
      var init := markets[..|markets| - 1];
      var last := markets[|markets| - 1];
      var before := Run(t, init, now);
      RunSymbols(t, init, now);
      assert Run(t, markets, now) == Upsert(before, last, now);
      UpsertSymbols(before, last, now);
      MarketSymbolsSnoc(markets);
      assert Symbols(t.cryptos) + MarketSymbols(init) + {last.symbol} == Symbols(t.cryptos) + MarketSymbols(markets);
    } else {
      assert MarketSymbols(markets) == {};
    }
  }

  /** Through the pass every old row keeps its place, id, symbol, trend,
      volume alert and volume. */
  lemma {:induction false} RunKeepsRows(t: Table, markets: seq<Market>, now: int)
    ensures var r := Run(t, markets, now).cryptos;
      |t.cryptos| <= |r| &&
      forall i :: 0 <= i < |t.cryptos| ==>
        r[i].id == t.cryptos[i].id && r[i].symbol == t.cryptos[i].symbol &&
        r[i].lastTrend == t.cryptos[i].lastTrend && r[i].lastVolumeAlert == t.cryptos[i].lastVolumeAlert &&
        r[i].volume24 == t.cryptos[i].volume24
    decreases |markets|
  {
    if markets != [] {
      RunKeepsRows(t, markets[..|markets| - 1], now);
      UpsertWrites(Run(t, markets[..|markets| - 1], now), markets[|markets| - 1], now);
    }
  }

  /** Some row has the symbol and the stamp. */
  predicate Stamped(cryptos: seq<Crypto>, symbol: string, now: int) {
    exists i :: 0 <= i < |cryptos| && cryptos[i].symbol == symbol && cryptos[i].lastFetched == Some(now)
  }

  /** After the pass every market's symbol has a row stamped with the time of
      the pass. */
  lemma {:induction false} RunStampsAll(t: Table, markets: seq<Market>, now: int)
    ensures forall m :: m in markets ==> Stamped(Run(t, markets, now).cryptos, m.symbol, now)
    decreases |markets|
  {
    if markets != [] {
      var init := markets[..|markets| - 1];
      var last := markets[|markets| - 1];
      RunStampsAll(t, init, now);
      var before := Run(t, init, now);
      var r := Run(t, markets, now).cryptos;
      UpsertWrites(before, last, now);
      assert Stamped(r, last.symbol, now);
      forall m | m in markets ensures Stamped(r, m.symbol, now) {
        var k :| 0 <= k < |markets| && markets[k] == m;
        if m.symbol != last.symbol {
          assert m in init by { assert init[k] == m; }
          var i :| 0 <= i < |before.cryptos| && before.cryptos[i].symbol == m.symbol &&
            before.cryptos[i].lastFetched == Some(now);
          assert r[i] == before.cryptos[i];
        }
      }
    }
  }

  /** `handle`: the markets, or nothing when the exchange call throws. */
  method Handle(t: Table, fetched: Option<seq<Market>>, now: int) returns (after: Table)
    ensures fetched.None? ==> after == t
    ensures fetched.Some? ==> after == Run(t, UsdtMarkets(fetched.value), now)
  {
    if fetched.None? {
      return t;
    }
    var usdtMarkets := UsdtMarkets(fetched.value);
    after := t;
    var i := 0;
    while i < |usdtMarkets|
      invariant 0 <= i <= |usdtMarkets|
      invariant after == Run(t, usdtMarkets[..i], now)
    {
      assert usdtMarkets[..i + 1][..i] == usdtMarkets[..i];
      after := Upsert(after, usdtMarkets[i], now);
      i := i + 1;
    }
    assert usdtMarkets[..|usdtMarkets|] == usdtMarkets;
  }

  /** The symbols after a pass are the old ones and the USDT symbols of the
      markets, so every symbol the pass adds ends in `USDT`. */
  lemma HandleSymbols(t: Table, markets: seq<Market>, now: int)
    ensures Symbols(Run(t, UsdtMarkets(markets), now).cryptos) ==
      Symbols(t.cryptos) + (set m | m in markets && IsUsdt(m) :: m.symbol)
    ensures forall s :: s in Symbols(Run(t, UsdtMarkets(markets), now).cryptos) - Symbols(t.cryptos) ==>
      Text.EndsWith(s, "USDT")
  {
    RunSymbols(t, UsdtMarkets(markets), now);
    var usdt := UsdtMarkets(markets);
    assert MarketSymbols(usdt) == (set m | m in markets && IsUsdt(m) :: m.symbol) by {
      forall m | m in markets && IsUsdt(m) ensures m.symbol in MarketSymbols(usdt) {
        var i :| 0 <= i < |markets| && markets[i] == m;
        assert markets[i] in usdt;
      }
      forall s | s in MarketSymbols(usdt) ensures s in (set m | m in markets && IsUsdt(m) :: m.symbol) {
        var m :| m in usdt && m.symbol == s;
        var i :| 0 <= i < |usdt| && usdt[i] == m;
      }
    }
  }

  /** A second pass over the same markets adds no symbol. */
  lemma RerunKeepsSymbols(t: Table, markets: seq<Market>, now: int, later: int)
    ensures var once := Run(t, UsdtMarkets(markets), now);
      Symbols(Run(once, UsdtMarkets(markets), later).cryptos) == Symbols(once.cryptos)
  {
    var once := Run(t, UsdtMarkets(markets), now);
    RunSymbols(t, UsdtMarkets(markets), now);
    RunSymbols(once, UsdtMarkets(markets), later);
  }
}
