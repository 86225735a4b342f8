# Watchlist symbol downloader — Dafny model

The repository is a small Flask utility. It downloads the market list of a
cryptocurrency exchange (through the ccxt library) and turns it into a
comma-separated watchlist file for a charting tool: `BINANCE:BTCUSDT.P` for a
USDT perpetual, `UPBIT:BTCKRW` for a KRW spot market.

This project models its two pieces of logic from `app.py`:

- the filter-and-formatter loop of `get_symbols_ccxt` (`markets.dfy`). The
  catalog that `load_markets()` returns is an input value
  (`Markets.FetchOutcome`), listed as `(key, market)` pairs in dictionary
  order. Each market field is either missing, `None` or present
  (`Markets.Field`). The loop is an imperative method
  (`Markets.GetSymbolsCcxt`). It is proved equal to a recursive
  specification (`Markets.Collect`). The properties are then proved about
  that specification: which markets are kept, the exact shape of each name,
  catalog order, the length bound, and which exception is raised;
- the request shaping of `download_symbols` (`download.dfy`). This covers
  lower-casing and validating the parameters, the filename, the comma join,
  and the mapping of outcomes to a status code or an attachment
  (`Download.DownloadSymbols`). The date is an input.

`text.dfy` models the Python string operations used: `split`, `join`,
`replace(c, '')`, `upper` and `lower`. `wrappers.dfy` holds `Option` and
`Result`.

Some behaviour of the code is easy to misread:

- the output list is not sorted; it is in catalog order;
- there is no `settle` check, so a USDT-quoted linear swap is kept whatever it
  settles in;
- a missing or `None` `active` flag counts as false for every exchange;
- an unknown exchange id is refused by the request validation (status 400)
  before anything is fetched.

## Model

| member | source | states |
|---|---|---|
| `Markets.Formatted` | app.py:37-67 | the definition of one loop iteration: an unselected market leaves `formatted_symbol` as `None`; a selected market raises exactly when its symbol is missing or `None`, and otherwise gets its `Entry` name. No iteration raises RequestException |
| `Markets.Collect` | app.py:31-74 | the definition of the loop as a recursion over the catalog, with the `if formatted_symbol:` guard: a list holds at most one name per market, every name starts with the prefix and `:`, and the loop never raises RequestException |
| `Markets.Symbols` | app.py:24-87 | the definition of `get_symbols_ccxt` on a fetch outcome, with the corrected handlers: a list comes only from a loaded catalog, holds at most one name per market and starts every name with the upper-cased id; RequestException comes exactly from a ccxt network or exchange error |
| `Markets.SymbolsAsWritten` | app.py:24-87 | `get_symbols_ccxt` with its handlers as written: it never surfaces RequestException |
| `Markets.CorrectionOnlyTouchesFetchErrors` | app.py:79-87 | the written and corrected versions differ exactly on a ccxt network or exchange error, which as written surfaces as an unexpected error |
| `Markets.IsSet` | app.py:37-45 | `market.get(name, False)` used as a condition: a missing or `None` flag counts as false, and only a present `True` counts as set |
| `Markets.QuoteIs` | app.py:44-45 | `market.get('quote') == q`: a missing or `None` quote equals no currency, and a match means the quote is exactly `q` |
| `Markets.SymbolFailure` | app.py:46-87 | an unreadable `market['symbol']` of a kept market: a `None` symbol ends as the unsupported-exchange ValueError (the AttributeError handler), a missing key as the re-raised KeyError |
| `Markets.Selected` | app.py:37-67 | a market passes the branch for its market type only if its `active` flag is a present `True`. Only the three recognised market types select anything |
| `Markets.Entry` | app.py:46-67 | every name starts with the upper-cased exchange prefix and `:`. A futures name ends in `.P`, and its middle has no `/` and no `:`. A spot name has no `/` after the prefix |
| `Markets.MatchIndices` | app.py:36-67 | the kept markets are exactly the catalog positions the branch selects, in strictly increasing order, and there are at most as many as there are markets |
| `Markets.GetSymbolsCcxt` | app.py:24-87 | the loop over `markets.items()` with `filtered_symbols.append` returns exactly the recursive specification: the list for a loaded catalog, or the exception for a failed fetch, with the corrected handlers of app.py:79-84 (see Findings) |
| `Markets.FailureIsFinal` | app.py:36-87 | once an iteration raises, the rest of the catalog cannot change the outcome. No partial list is returned |
| `Markets.CollectIsFilterMap` | app.py:36-71 | the loop succeeds exactly when every kept market has a readable symbol. It then returns one name per kept market, in catalog order, so the `if formatted_symbol` guard never drops a name |
| `Markets.CollectFailsAtFirstUnreadable` | app.py:46-87 | when the loop raises, the exception belongs to the first kept market whose symbol cannot be read. A missing key gives the re-raised KeyError; a `None` symbol gives an AttributeError, which becomes the unsupported-exchange ValueError |
| `Markets.CollectOne` | app.py:36-71 | a catalog of one kept market with a readable symbol yields exactly that market's name |
| `Markets.UnselectedMarketIsInvisible` | app.py:36-71 | removing a market that the branch does not select leaves the outcome unchanged |
| `Markets.InactiveMarketIsInvisible` | app.py:37-64 | a market whose `active` flag is false, `None` or missing contributes nothing, for every market type |
| `Markets.UnknownTypeGivesEmpty` | app.py:38-71 | a market type outside `futures`, `spot_usdt` and `spot_krw` gives the empty list for every catalog |
| `Markets.FuturesEntryShape` | app.py:46-49 | a perpetual with symbol `BASE/QUOTE:SETTLE` is listed as `PREFIX:BASEQUOTE.P` |
| `Markets.FuturesEntryWithoutSettle` | app.py:46-49 | a futures symbol `BASE/QUOTE` with no settle part is also listed as `PREFIX:BASEQUOTE.P` |
| `Markets.SpotEntryShape` | app.py:56-67 | a spot market with symbol `BASE/QUOTE` is listed as `PREFIX:BASEQUOTE`, with no `.P` |
| `Markets.FetchFailure` | app.py:76-84 | a failed fetch surfaces as RequestException exactly for ccxt network and exchange errors, and as the unsupported-exchange ValueError exactly when the exchange class is missing |
| `Markets.FetchFailureAsWritten` | app.py:79-87 | as written, a failed fetch never surfaces as RequestException |
| `Markets.FetchErrorsLoseTheirKind` | app.py:79-84 | a ccxt network or exchange error becomes a generic error as written, and a RequestException once corrected |
| `Text.Split` | app.py:47 | `split` always yields at least one field, no field holds the separator, and joining the fields gives the string back |
| `Text.FirstField` | app.py:47 | `split(sep)[0]` is the prefix of the string before its first separator, or the whole string |
| `Text.Join` | app.py:256 | the joined text starts with the first item and ends with the last, with no separator added at either end |
| `Text.SplitJoin` | app.py:256 | splitting the comma-joined payload at commas gives back the list, when no item holds a comma |
| `Text.RemoveAll` | app.py:48 | `replace('/', '')` leaves no `/` and keeps every other character, with the same number of occurrences |
| `Text.RemoveAllAppend` | app.py:57 | removal works piece by piece, so the kept characters stay in order |
| `Text.Upper` | app.py:32 | the prefix is the exchange id upper-cased character by character, with no lower-case ASCII letter left |
| `Text.Lower` | app.py:224-225 | the parameters are lower-cased character by character, with no upper-case ASCII letter left |
| `Download.Argument` | app.py:224-225 | `request.args.get(name, '').lower()`: a missing parameter is the empty string, and a given one keeps its length and has no ASCII capital left |
| `Download.Supported` | app.py:228-230 | the list check: a supported exchange id has five to seven characters, and a supported type is `futures`, `spot_usdt` or `spot_krw` |
| `Download.FilenameQuote` | app.py:234-240 | the quote written into the filename lower-cases to `krw` for the KRW spot market and to `usdt` otherwise |
| `Download.TwoDigits` | app.py:252 | a `%y`, `%m` or `%d` field: two decimal digits, zero-padded, whose value is the number |
| `Download.DownloadSymbols` | app.py:222-280 | the definition of `download_symbols`: every message is a 400, 404 or 500, and a file is sent only for a supported request whose catalog was loaded, with a non-empty body and a `.txt` name |
| `Download.Filename` | app.py:233-253 | the definition of the filename: it starts with the exchange id and `_` and ends with `_`, the six date digits and `.txt` |
| `Download.Yymmdd` | app.py:251-252 | `strftime("%y%m%d")` gives six digits: the year within its century, the month and the day, two digits each |
| `Download.FilenameTable` | app.py:233-253 | the file is named `{exchange}_futures_usdt_`, `{exchange}_spot_usdt_` or `{exchange}_spot_krw_`, then `yymmdd.txt` |
| `Download.RejectedBeforeFetch` | app.py:224-231 | a request gets the 400 for bad parameters exactly when the lower-cased exchange or type is not in its list. In that case the catalog fetch makes no difference |
| `Download.NotFoundExactlyWhenEmpty` | app.py:244-248 | the 404 is answered exactly when a supported request yields an empty symbol list |
| `Download.AttachmentCarriesTheList` | app.py:240-269 | a supported request with a non-empty list gets the attachment: the filename table, the body `",".join(list)`, and a body that splits back into the list |
| `Download.BinanceFuturesExample` | app.py:253 | the binance perpetual `BTC/USDT:USDT` on 16 April 2025 downloads as `binance_futures_usdt_250416.txt` with body `BINANCE:BTCUSDT.P` |
| `Download.UpbitKrwExample` | app.py:56-58 | the upbit market `BTC/KRW` downloads as `upbit_spot_krw_<yymmdd>.txt` with body `UPBIT:BTCKRW` |
| `Download.UnknownExchangeExample` | app.py:228-231 | the exchange `notarealexchange` is refused with 400 whatever the fetch would return |

## Findings

| source | as written | input that shows it | evidently intended | confidence | as-written member | corrected member |
|---|---|---|---|---|---|---|
| app.py:79-87 | The handlers for `ccxt.NetworkError`, `ccxt.ExchangeError` and other exceptions format `exchange_prefix`. That variable is bound only at line 32, after the fetch. ccxt errors can only come from lines 24-28, so each handler raises UnboundLocalError instead. `download_symbols` then answers with the generic internal-error 500 (line 280), not the load-error 500 (line 274). | `load_markets()` raises `ccxt.NetworkError` (exchange unreachable) | the error is re-raised as `RequestException` and answered with the load-error message | not executed; high | `Markets.SymbolsAsWritten` | `Markets.Symbols` |

The rest of the model uses `Markets.FetchFailure`. So `Download.DownloadSymbols`
answers a ccxt network or exchange error with `Message(500, LoadFailed)`.
`Markets.SymbolsAsWritten` keeps the handlers as written, with
`Markets.FetchFailureAsWritten`. `Markets.FetchErrorsLoseTheirKind` and
`Markets.CorrectionOnlyTouchesFetchErrors` exhibit the discrepancy: the two
versions differ exactly on those two errors, which as written surface as an
unexpected error.

## Left out

- Constructing the ccxt exchange and calling `load_markets()` over the network (app.py:24-28): these are a foreign library and I/O. Their outcome is the `FetchOutcome` input.
- The `print` logging throughout: it has no effect on the result.
- The Korean message texts of the error responses. They are modelled by `Reason`, which names the branch that produced each one.
- `datetime.date.today()`: the date is an input.
- The Flask routing, `render_template_string`, `send_file`, `io.BytesIO` and the UTF-8 encoding of the body (app.py:91, 215-218, 258-269): these are web and I/O plumbing. The model ends at the filename and the body string.
- The HTML, CSS and JavaScript page (app.py:94-211): it is a user interface with no decision logic.
- Market field values of other Python types (a truthy non-boolean flag, a non-string quote): flags are `Field<bool>` and quotes and symbols are `Field<string>`. `Null` stands for `None` and for any other symbol value without `split` and `replace` (a number, a list, a dict): on those, line 47, 57 or 66 raises AttributeError, which line 76 turns into the unsupported-exchange ValueError. A `bytes` symbol is not modelled: its `split(':')` or `replace('/', '')` with `str` arguments raises TypeError, which line 87 re-raises and the handler answers with the generic 500.
- Dictionary keys: a catalog is a sequence of pairs, so duplicate keys are not excluded. The key itself is never read.
- Text.Upper: handles ASCII letters only. Python's `str.upper` also changes other letters (for example `ß` becomes `SS`). This does not matter on the download path, where the id is one of six lower-case ASCII names.
- Text.Lower: handles ASCII capitals and the Kelvin sign (U+212A, whose lower case is `k`). Other non-ASCII characters are kept unchanged, where Python would lower-case them. Such characters cannot lower-case into a listed name, so whether a request is accepted is modelled exactly.
- Name characters: a name may contain any character of the ccxt symbol other than `/` (and, for futures, `:`), and the prefix is the id upper-cased, so nothing is stated about the character set of a name beyond the shape facts of `Markets.Entry`.
- Markets.GetSymbolsCcxt: the method, like `Markets.Symbols`, follows the corrected exception handlers of app.py:79-84. As written, a ccxt network or exchange error raises UnboundLocalError, not RequestException; `Markets.SymbolsAsWritten` models that path.
- Markets.Symbols: uses `Markets.FetchFailure`, the corrected handlers, for the reason given under Findings; the code as written is `Markets.SymbolsAsWritten`.
- Download.DownloadSymbols: built on `Markets.Symbols`, so it answers a ccxt network or exchange error with `Message(500, LoadFailed)`. As written, app.py:278-280 answers it with the generic 500 (`Message(500, InternalError)`).
