/**
 * The filter-and-formatter of `get_symbols_ccxt`: walks an exchange's market
 * catalog in order, keeps the markets of the requested market type and turns
 * each into a TradingView-style watchlist name such as `BINANCE:BTCUSDT.P`.
 */
module Markets {
  import opened Wrappers
  import opened Text

  /**
   * A field of a market dictionary: missing, present but `None`, or present
   * with a value.
   */
  datatype Field<T> = Absent | Null | Present(value: T)

  /** One market of the catalog, with the fields the formatter reads. */
  datatype Market = Market(
    active: Field<bool>,
    swap: Field<bool>,
    linear: Field<bool>,
    spot: Field<bool>,
    quote: Field<string>,
    symbol: Field<string>)

  /** The catalog as `markets.items()` yields it: (key, market) pairs in dictionary order. */
  type Catalog = seq<(string, Market)>

  /** What loading the catalog did: the ccxt exchange construction and `load_markets()`. */
  datatype FetchOutcome =
    | Loaded(markets: Catalog)
    | NoSuchExchange   // `getattr(ccxt, exchange_id)` raised AttributeError
    | NetworkError     // ccxt.NetworkError
    | ExchangeError    // ccxt.ExchangeError
    | OtherError       // any other exception before the loop

  /** The exception `get_symbols_ccxt` lets escape. */
  datatype Failure =
    | UnsupportedExchange  // ValueError, raised for any AttributeError
    | RequestFailed        // requests.exceptions.RequestException
    | Unexpected           // any other exception, re-raised

  const Futures := "futures"
  const SpotUsdt := "spot_usdt"
  const SpotKrw := "spot_krw"

  /** `market.get(name, False)` used as a condition: only a present `True` counts. */
  predicate IsSet(f: Field<bool>)
    ensures f.Absent? || f.Null? ==> !IsSet(f)
    ensures IsSet(f) ==> f.Present? && f.value
  {
    f == Present(true)
  }

  /** `market.get('quote') == q`: a missing or `None` quote equals no currency. */
  predicate QuoteIs(m: Market, q: string)
    ensures m.quote.Absent? || m.quote.Null? ==> !QuoteIs(m, q)
    ensures QuoteIs(m, q) ==> m.quote.value == q
  {
    m.quote == Present(q)
  }

  /** Whether the branch for `marketType` fires on market `m`. */
  predicate Selected(m: Market, marketType: string)
    ensures Selected(m, marketType) ==> IsSet(m.active)
    ensures Selected(m, marketType) ==> marketType in {Futures, SpotUsdt, SpotKrw}
  {
    if marketType == Futures then
      IsSet(m.swap) && IsSet(m.linear) && QuoteIs(m, "USDT") && IsSet(m.active)
    else if marketType == SpotKrw then
      IsSet(m.spot) && QuoteIs(m, "KRW") && IsSet(m.active)
    else if marketType == SpotUsdt then
      IsSet(m.spot) && QuoteIs(m, "USDT") && IsSet(m.active)
    else
      false
  }

  /**
   * The watchlist name of a kept market with ccxt symbol `symbol`. A futures
   * name drops the settle part after the first ':', loses every '/' and ends in
   * ".P"; a spot name loses every '/'. Both start with the prefix and ':'.
   */
  function Entry(prefix: string, marketType: string, symbol: string): (r: string)
    ensures |r| > |prefix| && r[..|prefix| + 1] == prefix + ":"
    ensures marketType == Futures ==>
      && |r| >= |prefix| + 3
      && r[|r| - 2..] == ".P"
      && '/' !in r[|prefix| + 1..|r| - 2]
      && ':' !in r[|prefix| + 1..|r| - 2]
    ensures marketType != Futures ==> '/' !in r[|prefix| + 1..]
  {
    if marketType == Futures then
      var name := RemoveAll(Split(symbol, ':')[0], '/');
      var r := prefix + ":" + name + ".P";
      assert r[|prefix| + 1..|r| - 2] == name;
      assert forall c :: c in name ==> multiset(name)[c] > 0;
      r
    else
      var r := prefix + ":" + RemoveAll(symbol, '/');
      assert r[|prefix| + 1..] == RemoveAll(symbol, '/');
      r
  }

  /**
   * The exception raised when a kept market's symbol cannot be read:
   * `market['symbol']` on a missing key raises KeyError, which is re-raised;
   * `None.split` or `None.replace` raises AttributeError, which is turned into
   * the unsupported-exchange ValueError.
   */
  function SymbolFailure(f: Field<string>): (e: Failure)
    requires !f.Present?
    ensures e == UnsupportedExchange <==> f.Null?
    ensures e == Unexpected <==> f.Absent?
  {
    if f.Absent? then Unexpected else UnsupportedExchange
  }

  /**
   * One loop iteration: the value of `formatted_symbol` for market `m`, or the
   * exception raised. An unselected market leaves it `None`; a selected one
   * raises exactly when its symbol cannot be read, and otherwise gets its name.
   */
  function Formatted(prefix: string, marketType: string, m: Market): (r: Result<Option<string>, Failure>)
    ensures r == Ok(None) <==> !Selected(m, marketType)
    ensures r.Err? <==> Selected(m, marketType) && !m.symbol.Present?
    ensures r.Err? ==> r.error != RequestFailed
    ensures r.Ok? && r.value.Some? ==> m.symbol.Present? && r.value.value == Entry(prefix, marketType, m.symbol.value)
  {
    if !Selected(m, marketType) then Ok(None)
    else if !m.symbol.Present? then Err(SymbolFailure(m.symbol))
    else Ok(Some(Entry(prefix, marketType, m.symbol.value)))
  }

  /**
   * The list the loop has built after the markets of `catalog`, or the first
   * exception raised; `if formatted_symbol:` appends only a non-empty name.
   */
  function Collect(prefix: string, marketType: string, catalog: Catalog): (r: Result<seq<string>, Failure>)
    ensures r.Err? ==> r.error != RequestFailed
    ensures r.Ok? ==> |r.value| <= |catalog|
    ensures r.Ok? ==> forall k :: 0 <= k < |r.value| ==> |r.value[k]| > |prefix| && r.value[k][..|prefix| + 1] == prefix + ":"
  {
    if catalog == [] then Ok([])
    else
      var n := |catalog| - 1;
      match Collect(prefix, marketType, catalog[..n])
      case Err(e) => Err(e)
      case Ok(acc) =>
        match Formatted(prefix, marketType, catalog[n].1)
        case Err(e) => Err(e)
        case Ok(None) => Ok(acc)
        case Ok(Some(s)) => if s != "" then Ok(acc + [s]) else Ok(acc)
  }

  /**
   * Reference definition of which markets are kept: the positions of the
   * selected markets, in increasing order, and no others.
   */
  function MatchIndices(marketType: string, catalog: Catalog): (idx: seq<nat>)
    ensures |idx| <= |catalog|
    ensures forall k :: 0 <= k < |idx| ==> idx[k] < |catalog| && Selected(catalog[idx[k]].1, marketType)
    ensures forall k, l :: 0 <= k < l < |idx| ==> idx[k] < idx[l]
    ensures forall j :: 0 <= j < |catalog| && Selected(catalog[j].1, marketType) ==> j in idx
  {
    if catalog == [] then []
    else
      var n := |catalog| - 1;
      var before := MatchIndices(marketType, catalog[..n]);
      if Selected(catalog[n].1, marketType) then before + [n] else before
  }

  /**
   * The function `get_symbols_ccxt` computes, for the catalog `fetched`
   * delivers, with the corrected exception handlers. A list comes only from a
   * loaded catalog, holds at most one name per market, and every name starts
   * with the upper-cased exchange id; RequestException comes exactly from a
   * ccxt network or exchange error.
   */
  function Symbols(exchangeId: string, marketType: string, fetched: FetchOutcome): (r: Result<seq<string>, Failure>)
    ensures r.Ok? ==> fetched.Loaded? && |r.value| <= |fetched.markets|
    ensures r.Ok? ==> forall k :: 0 <= k < |r.value| ==>
      |r.value[k]| > |exchangeId| && r.value[k][..|exchangeId| + 1] == Upper(exchangeId) + ":"
    ensures r == Err(RequestFailed) <==> fetched.NetworkError? || fetched.ExchangeError?
  {
    match fetched
    case Loaded(catalog) => Collect(Upper(exchangeId), marketType, catalog)
    case _ => Err(FetchFailure(fetched))
  }

  /** `get_symbols_ccxt` as written, with the handlers that format the unbound `exchange_prefix`. */
  function SymbolsAsWritten(exchangeId: string, marketType: string, fetched: FetchOutcome): (r: Result<seq<string>, Failure>)
    ensures r != Err(RequestFailed)
  {
    match fetched
    case Loaded(catalog) => Collect(Upper(exchangeId), marketType, catalog)
    case _ => Err(FetchFailureAsWritten(fetched))
  }

  /**
   * The correction changes the outcome only for a ccxt network or exchange
   * error: as written it surfaces as an unexpected error, once corrected as
   * RequestException. Every other fetch outcome and every catalog are
   * handled alike.
   */
  lemma CorrectionOnlyTouchesFetchErrors(exchangeId: string, marketType: string, fetched: FetchOutcome)
    ensures Symbols(exchangeId, marketType, fetched) != SymbolsAsWritten(exchangeId, marketType, fetched)
      <==> fetched.NetworkError? || fetched.ExchangeError?
    ensures fetched.NetworkError? || fetched.ExchangeError? ==>
      SymbolsAsWritten(exchangeId, marketType, fetched) == Err(Unexpected)
  {
    if fetched.NetworkError? || fetched.ExchangeError? {
      FetchErrorsLoseTheirKind(fetched);
    }
  }

  /**
   * The exception a failed fetch is meant to surface as: AttributeError becomes
   * the unsupported-exchange ValueError, ccxt network and exchange errors
   * become RequestException, anything else is re-raised.
   */
  function FetchFailure(fetched: FetchOutcome): (e: Failure)
    requires !fetched.Loaded?
    ensures e == RequestFailed <==> fetched.NetworkError? || fetched.ExchangeError?
    ensures e == UnsupportedExchange <==> fetched.NoSuchExchange?
  {
    match fetched
    case NoSuchExchange => UnsupportedExchange
    case NetworkError => RequestFailed
    case ExchangeError => RequestFailed
    case OtherError => Unexpected
  }

  /**
   * The exception a failed fetch surfaces as in the code as written: the
   * handlers for ccxt errors and other exceptions format `exchange_prefix`,
   * which is bound only after the fetch, so each raises UnboundLocalError.
   */
  function FetchFailureAsWritten(fetched: FetchOutcome): (e: Failure)
    requires !fetched.Loaded?
    ensures e == UnsupportedExchange <==> fetched.NoSuchExchange?
    ensures e != RequestFailed
  {
    if fetched.NoSuchExchange? then UnsupportedExchange else Unexpected
  }

  /** The ccxt network and exchange errors lose their kind as written, and keep it once corrected. */
  lemma FetchErrorsLoseTheirKind(fetched: FetchOutcome)
    requires fetched.NetworkError? || fetched.ExchangeError?
    ensures FetchFailureAsWritten(fetched) == Unexpected
    ensures FetchFailure(fetched) == RequestFailed
  {
  }

  /**
   * `get_symbols_ccxt`: load the catalog, then filter and format it market by
   * market, appending to `filtered` in catalog order.
   */
  method GetSymbolsCcxt(exchangeId: string, marketType: string, fetched: FetchOutcome)
    returns (r: Result<seq<string>, Failure>)
    ensures r == Symbols(exchangeId, marketType, fetched)
  {
    if !fetched.Loaded? {
      return Err(FetchFailure(fetched));
    }
    var catalog := fetched.markets;
    var filtered: seq<string> := [];
    var prefix := Upper(exchangeId);
    var i := 0;
    while i < |catalog|
      invariant 0 <= i <= |catalog|
      invariant Collect(prefix, marketType, catalog[..i]) == Ok(filtered)
    {
      assert catalog[..i + 1][..i] == catalog[..i];
      var formatted := Formatted(prefix, marketType, catalog[i].1);
      match formatted {
        case Err(e) =>
          FailureIsFinal(prefix, marketType, catalog, i + 1);
          assert catalog[..|catalog|] == catalog;
          return Err(e);
        case Ok(None) =>
        case Ok(Some(s)) =>
          if s != "" {
            filtered := filtered + [s];
          }
      }
      i := i + 1;
    }
    assert catalog[..i] == catalog;
    r := Ok(filtered);
  }

  /** No partial results: once an exception is raised, the rest of the catalog does not matter. */
  lemma {:induction false} FailureIsFinal(prefix: string, marketType: string, catalog: Catalog, i: nat)
    requires i <= |catalog|
    requires Collect(prefix, marketType, catalog[..i]).Err?
    ensures Collect(prefix, marketType, catalog) == Collect(prefix, marketType, catalog[..i])
    decreases |catalog| - i
  {
    if i < |catalog| {
      assert catalog[..i + 1][..i] == catalog[..i];
      FailureIsFinal(prefix, marketType, catalog, i + 1);
    } else {
      assert catalog[..i] == catalog;
    }
  }

  /**
   * The loop is a filter followed by a map: it succeeds exactly when every
   * kept market has a readable symbol, and then yields one name per kept
   * market, in catalog order; the `if formatted_symbol:` guard drops none.
   */
  ghost predicate IsFilterMap(prefix: string, marketType: string, catalog: Catalog) {
    var idx := MatchIndices(marketType, catalog);
    var r := Collect(prefix, marketType, catalog);
    && (r.Ok? <==> forall k :: 0 <= k < |idx| ==> catalog[idx[k]].1.symbol.Present?)
    && (r.Ok? ==>
          && |r.value| == |idx|
          && forall k :: 0 <= k < |idx| ==> r.value[k] == Entry(prefix, marketType, catalog[idx[k]].1.symbol.value))
  }

  lemma {:induction false} CollectIsFilterMap(prefix: string, marketType: string, catalog: Catalog)
    ensures IsFilterMap(prefix, marketType, catalog)
  {
    if catalog != [] {
      var n := |catalog| - 1;
      CollectIsFilterMap(prefix, marketType, catalog[..n]);
      PrefixIndices(marketType, catalog);
      if Collect(prefix, marketType, catalog[..n]).Err? {
        FilterMapAfterFailure(prefix, marketType, catalog);
      } else {
        FilterMapAfterSuccess(prefix, marketType, catalog);
      }
    }
  }

  lemma FilterMapAfterFailure(prefix: string, marketType: string, catalog: Catalog)
    requires catalog != []
    requires IsFilterMap(prefix, marketType, catalog[..|catalog| - 1])
    requires Collect(prefix, marketType, catalog[..|catalog| - 1]).Err?
    ensures IsFilterMap(prefix, marketType, catalog)
  {
    var n := |catalog| - 1;
    var front := catalog[..n];
    PrefixIndices(marketType, catalog);
    var idx0 := MatchIndices(marketType, front);
    var idx := MatchIndices(marketType, catalog);
    assert Collect(prefix, marketType, catalog).Err?;
    var k :| 0 <= k < |idx0| && !front[idx0[k]].1.symbol.Present?;
    assert idx[k] == idx0[k];
    assert k < |idx| && !catalog[idx[k]].1.symbol.Present?;
  }

  lemma FilterMapAfterSuccess(prefix: string, marketType: string, catalog: Catalog)
    requires catalog != []
    requires IsFilterMap(prefix, marketType, catalog[..|catalog| - 1])
    requires Collect(prefix, marketType, catalog[..|catalog| - 1]).Ok?
    ensures IsFilterMap(prefix, marketType, catalog)
  {
    var n := |catalog| - 1;
    var m := catalog[n].1;
    PrefixIndices(marketType, catalog);
    if !Selected(m, marketType) {
      FilterMapAfterSkip(prefix, marketType, catalog);
    } else if !m.symbol.Present? {
      FilterMapAfterUnreadable(prefix, marketType, catalog);
    } else {
      FilterMapAfterAppend(prefix, marketType, catalog);
    }
  }

  lemma FilterMapAfterSkip(prefix: string, marketType: string, catalog: Catalog)
    requires catalog != []
    requires IsFilterMap(prefix, marketType, catalog[..|catalog| - 1])
    requires Collect(prefix, marketType, catalog[..|catalog| - 1]).Ok?
    requires !Selected(catalog[|catalog| - 1].1, marketType)
    ensures IsFilterMap(prefix, marketType, catalog)
  {
    var n := |catalog| - 1;
    PrefixIndices(marketType, catalog);
    assert MatchIndices(marketType, catalog) == MatchIndices(marketType, catalog[..n]);
    assert Collect(prefix, marketType, catalog) == Collect(prefix, marketType, catalog[..n]);
  }

  lemma FilterMapAfterUnreadable(prefix: string, marketType: string, catalog: Catalog)
    requires catalog != []
    requires Collect(prefix, marketType, catalog[..|catalog| - 1]).Ok?
    requires Selected(catalog[|catalog| - 1].1, marketType) && !catalog[|catalog| - 1].1.symbol.Present?
    ensures IsFilterMap(prefix, marketType, catalog)
  {
    var n := |catalog| - 1;
    PrefixIndices(marketType, catalog);
    var idx := MatchIndices(marketType, catalog);
    var k := |MatchIndices(marketType, catalog[..n])|;
    assert idx[k] == n;
    assert !catalog[idx[k]].1.symbol.Present?;
    assert Collect(prefix, marketType, catalog).Err?;
  }

  lemma FilterMapAfterAppend(prefix: string, marketType: string, catalog: Catalog)
    requires catalog != []
    requires IsFilterMap(prefix, marketType, catalog[..|catalog| - 1])
    requires Collect(prefix, marketType, catalog[..|catalog| - 1]).Ok?
    requires Selected(catalog[|catalog| - 1].1, marketType) && catalog[|catalog| - 1].1.symbol.Present?
    ensures IsFilterMap(prefix, marketType, catalog)
  {
    var n := |catalog| - 1;
    var m := catalog[n].1;
    PrefixIndices(marketType, catalog);
    var idx0 := MatchIndices(marketType, catalog[..n]);
    var idx := MatchIndices(marketType, catalog);
    assert idx == idx0 + [n];
    var acc := Collect(prefix, marketType, catalog[..n]).value;
    var name := Entry(prefix, marketType, m.symbol.value);
    assert Formatted(prefix, marketType, m) == Ok(Some(name));
    assert Collect(prefix, marketType, catalog) == Ok(acc + [name]);
  }

  /** When the loop raises, it raises the failure of the first kept market whose symbol cannot be read. */
  ghost predicate FailsAtFirstUnreadable(prefix: string, marketType: string, catalog: Catalog) {
    var idx := MatchIndices(marketType, catalog);
    var r := Collect(prefix, marketType, catalog);
    r.Err? ==>
      exists k :: 0 <= k < |idx| && FirstUnreadable(catalog, idx, k)
        && r.error == SymbolFailure(catalog[idx[k]].1.symbol)
  }

  lemma {:induction false} CollectFailsAtFirstUnreadable(prefix: string, marketType: string, catalog: Catalog)
    ensures FailsAtFirstUnreadable(prefix, marketType, catalog)
  {
    if catalog != [] {
      var n := |catalog| - 1;
      if Collect(prefix, marketType, catalog[..n]).Err? {
        CollectFailsAtFirstUnreadable(prefix, marketType, catalog[..n]);
        FailureAfterFailure(prefix, marketType, catalog);
      } else {
        CollectIsFilterMap(prefix, marketType, catalog[..n]);
        FailureAfterSuccess(prefix, marketType, catalog);
      }
    }
  }

  lemma FailureAfterFailure(prefix: string, marketType: string, catalog: Catalog)
    requires catalog != []
    requires FailsAtFirstUnreadable(prefix, marketType, catalog[..|catalog| - 1])
    requires Collect(prefix, marketType, catalog[..|catalog| - 1]).Err?
    ensures FailsAtFirstUnreadable(prefix, marketType, catalog)
  {
    var n := |catalog| - 1;
    var front := catalog[..n];
    PrefixIndices(marketType, catalog);
    var idx0 := MatchIndices(marketType, front);
    var idx := MatchIndices(marketType, catalog);
    var e := Collect(prefix, marketType, front).error;
    assert Collect(prefix, marketType, catalog) == Err(e);
    var k :| 0 <= k < |idx0| && FirstUnreadable(front, idx0, k) && e == SymbolFailure(front[idx0[k]].1.symbol);
    assert FirstUnreadable(catalog, idx, k);
  }

  lemma FailureAfterSuccess(prefix: string, marketType: string, catalog: Catalog)
    requires catalog != []
    requires IsFilterMap(prefix, marketType, catalog[..|catalog| - 1])
    requires Collect(prefix, marketType, catalog[..|catalog| - 1]).Ok?
    ensures FailsAtFirstUnreadable(prefix, marketType, catalog)
  {
    var n := |catalog| - 1;
    var front := catalog[..n];
    var m := catalog[n].1;
    if Collect(prefix, marketType, catalog).Err? {
      PrefixIndices(marketType, catalog);
      var idx0 := MatchIndices(marketType, front);
      var idx := MatchIndices(marketType, catalog);
      assert Selected(m, marketType) && !m.symbol.Present?;
      assert idx[|idx0|] == n;
      assert FirstUnreadable(catalog, idx, |idx0|);
    }
  }

  /** Position `k` of the kept indices `idx` is the first whose market's symbol cannot be read. */
  ghost predicate FirstUnreadable(catalog: Catalog, idx: seq<nat>, k: nat)
    requires k < |idx|
    requires forall i :: 0 <= i < |idx| ==> idx[i] < |catalog|
  {
    && !catalog[idx[k]].1.symbol.Present?
    && forall l :: 0 <= l < k ==> catalog[idx[l]].1.symbol.Present?
  }

  /** The kept indices of a catalog extend those of the catalog without its last market. */
  lemma PrefixIndices(marketType: string, catalog: Catalog)
    requires catalog != []
    ensures var n := |catalog| - 1;
      var idx0 := MatchIndices(marketType, catalog[..n]);
      var idx := MatchIndices(marketType, catalog);
      && idx[..|idx0|] == idx0
      && |idx| == |idx0| + (if Selected(catalog[n].1, marketType) then 1 else 0)
      && (|idx| > |idx0| ==> idx[|idx0|] == n)
      && forall k :: 0 <= k < |idx0| ==> catalog[idx[k]] == catalog[..n][idx0[k]]
  {
  }

  /** A catalog of one kept market with a readable symbol yields exactly that market's name. */
  lemma CollectOne(prefix: string, marketType: string, entry: (string, Market))
    requires Selected(entry.1, marketType) && entry.1.symbol.Present?
    ensures Collect(prefix, marketType, [entry]) == Ok([Entry(prefix, marketType, entry.1.symbol.value)])
  {
    assert [entry][..0] == [];
    assert Collect(prefix, marketType, []) == Ok([]);
    var name := Entry(prefix, marketType, entry.1.symbol.value);
    assert Formatted(prefix, marketType, entry.1) == Ok(Some(name));
    assert name != "";
    var catalog := [entry];
    assert catalog[|catalog| - 1].1 == entry.1;
    assert Collect(prefix, marketType, catalog[..|catalog| - 1]) == Ok([]);
    assert Collect(prefix, marketType, catalog) == Ok([] + [name]);
    assert [] + [name] == [name];
  }

  /**
   * A market the requested branch does not select contributes nothing:
   * removing it from the catalog leaves the outcome unchanged.
   */
  lemma {:induction false} UnselectedMarketIsInvisible(
    prefix: string, marketType: string, before: Catalog, entry: (string, Market), after: Catalog)
    requires !Selected(entry.1, marketType)
    ensures Collect(prefix, marketType, before + [entry] + after) == Collect(prefix, marketType, before + after)
    decreases |after|
  {
    if after == [] {
      assert (before + [entry] + after)[..|before|] == before;
      assert before + after == before;
    } else {
      var n := |after| - 1;
      var with := before + [entry] + after;
      var without := before + after;
      assert with[..|with| - 1] == before + [entry] + after[..n];
      assert without[..|without| - 1] == before + after[..n];
      UnselectedMarketIsInvisible(prefix, marketType, before, entry, after[..n]);
    }
  }

  /** A market whose `active` flag is false, `None` or missing never contributes, whatever the market type. */
  lemma {:induction false} InactiveMarketIsInvisible(
    prefix: string, marketType: string, before: Catalog, entry: (string, Market), after: Catalog)
    requires !IsSet(entry.1.active)
    ensures Collect(prefix, marketType, before + [entry] + after) == Collect(prefix, marketType, before + after)
  {
    UnselectedMarketIsInvisible(prefix, marketType, before, entry, after);
  }

  /** A market type other than the three recognised ones fires no branch, so the list stays empty. */
  lemma {:induction false} UnknownTypeGivesEmpty(prefix: string, marketType: string, catalog: Catalog)
    requires marketType !in {Futures, SpotUsdt, SpotKrw}
    ensures Collect(prefix, marketType, catalog) == Ok([])
  {
    if catalog != [] {
      UnknownTypeGivesEmpty(prefix, marketType, catalog[..|catalog| - 1]);
    }
  }

  /** A perpetual with ccxt symbol `BASE/QUOTE:SETTLE` is listed as `PREFIX:BASEQUOTE.P`. */
  lemma {:induction false} FuturesEntryShape(prefix: string, base: string, quote: string, settle: string)
    requires '/' !in base && ':' !in base && '/' !in quote && ':' !in quote
    ensures Entry(prefix, Futures, base + "/" + quote + ":" + settle) == prefix + ":" + base + quote + ".P"
  {
    SlashlessPair(base, quote);
    PairHasNoColon(base, quote);
    FuturesEntryWithSettle(prefix, base + "/" + quote + ":" + settle, base + "/" + quote, settle, base + quote);
  }

  lemma PairHasNoColon(base: string, quote: string)
    requires ':' !in base && ':' !in quote
    ensures ':' !in base + "/" + quote
  {
  }

  lemma {:induction false} FuturesEntryWithSettle(prefix: string, symbol: string, pair: string, settle: string, name: string)
    requires symbol == pair + [':'] + settle
    requires ':' !in pair
    requires RemoveAll(pair, '/') == name
    ensures Entry(prefix, Futures, symbol) == prefix + ":" + name + ".P"
  {
    SplitAfterPiece(pair, ':', settle);
    FuturesEntryOfPair(prefix, symbol, pair, name);
  }

  /** A futures name is built from the first ':'-field of the symbol, with every '/' removed. */
  lemma FuturesEntryOfPair(prefix: string, symbol: string, pair: string, name: string)
    requires Split(symbol, ':')[0] == pair
    requires RemoveAll(pair, '/') == name
    ensures Entry(prefix, Futures, symbol) == prefix + ":" + name + ".P"
  {
  }

  /** A futures symbol without a settle part, `BASE/QUOTE`, gets the same name. */
  lemma {:induction false} FuturesEntryWithoutSettle(prefix: string, base: string, quote: string)
    requires '/' !in base && ':' !in base && '/' !in quote && ':' !in quote
    ensures Entry(prefix, Futures, base + "/" + quote) == prefix + ":" + base + quote + ".P"
  {
    var pair := base + "/" + quote;
    assert ':' !in pair;
    SplitWithoutSeparator(pair, ':');
    SlashlessPair(base, quote);
    FuturesEntryOfPair(prefix, pair, pair, base + quote);
  }

  /** A spot market with ccxt symbol `BASE/QUOTE` is listed as `PREFIX:BASEQUOTE`. */
  lemma {:induction false} SpotEntryShape(prefix: string, marketType: string, base: string, quote: string)
    requires marketType == SpotUsdt || marketType == SpotKrw
    requires '/' !in base && '/' !in quote
    ensures Entry(prefix, marketType, base + "/" + quote) == prefix + ":" + base + quote
  {
    SlashlessPair(base, quote);
  }

  lemma {:induction false} SlashlessPair(base: string, quote: string)
    requires '/' !in base && '/' !in quote
    ensures RemoveAll(base + "/" + quote, '/') == base + quote
  {
    var slash := "/";
    var head := base + slash;
    assert RemoveAll(head, '/') == base by {
      assert RemoveAll(slash, '/') == "" by {
        assert slash[1..] == "";
      }
      RemoveAllAppend(base, slash, '/');
      RemoveAllAbsent(base, '/');
    }
    RemoveAllAppend(head, quote, '/');
    RemoveAllAbsent(quote, '/');
    assert base + "/" + quote == head + quote;
  }

}
