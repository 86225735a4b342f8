/**
 * The `/download` request handler: validates the exchange and market type,
 * runs `get_symbols_ccxt`, and answers with a comma-separated text file named
 * after the exchange, the market kind, the quote currency and the date, or
 * with a status code.
 */
module Download {
  import opened Wrappers
  import opened Text
  import opened Markets

  const SupportedExchanges: seq<string> := ["binance", "bingx", "bitget", "bybit", "upbit", "bithumb"]
  const SupportedTypes: seq<string> := [Futures, SpotUsdt, SpotKrw]

  /** A calendar date, as `datetime.date.today()` returns it. */
  datatype Date = Date(year: int, month: int, day: int) {
    predicate Valid() {
      1 <= year <= 9999 && 1 <= month <= 12 && 1 <= day <= 31
    }
  }

  /** Why the handler answered with a message instead of a file. */
  datatype Reason =
    | UnsupportedRequest  // exchange or type not in the closed lists
    | NoSymbols           // the symbol list came back empty
    | LoadFailed          // RequestException
    | BadValue            // ValueError
    | InternalError       // any other exception

  /** The HTTP answer: a status with a message, or a text attachment. */
  datatype Response =
    | Message(status: int, reason: Reason)
    | Attachment(filename: string, body: string)

  predicate IsDigit(c: char) { '0' <= c <= '9' }

  function DigitValue(c: char): int { c as int - '0' as int }

  /** The value of a two-character decimal numeral. */
  function TwoDigitValue(s: string): int
    requires |s| == 2
  {
    DigitValue(s[0]) * 10 + DigitValue(s[1])
  }

  /** A number below 100 written with two digits, zero-padded, as `%y`, `%m` and `%d` write it. */
  function TwoDigits(n: nat): (r: string)
    requires n < 100
    ensures |r| == 2 && IsDigit(r[0]) && IsDigit(r[1])
    ensures TwoDigitValue(r) == n
  {
    [('0' as int + n / 10) as char, ('0' as int + n % 10) as char]
  }

  /** `date.strftime("%y%m%d")`: six digits giving the year within its century, the month and the day. */
  function Yymmdd(d: Date): (r: string)
    requires d.Valid()
    ensures |r| == 6 && forall i :: 0 <= i < 6 ==> IsDigit(r[i])
    ensures TwoDigitValue(r[0..2]) == d.year % 100
    ensures TwoDigitValue(r[2..4]) == d.month
    ensures TwoDigitValue(r[4..6]) == d.day
  {
    var r := TwoDigits(d.year % 100) + TwoDigits(d.month) + TwoDigits(d.day);
    assert r[0..2] == TwoDigits(d.year % 100);
    assert r[2..4] == TwoDigits(d.month);
    assert r[4..6] == TwoDigits(d.day);
    r
  }

  /**
   * `request.args.get(name, '').lower()`: a missing parameter is the empty
   * string, and a given one keeps its length and loses its ASCII capitals.
   */
  function Argument(arg: Option<string>): (r: string)
    ensures arg.None? ==> r == ""
    ensures |r| == |arg.GetOr("")|
    ensures forall i :: 0 <= i < |r| ==> !IsUpperAscii(r[i])
  {
    Lower(arg.GetOr(""))
  }

  /**
   * The check on the lower-cased parameters: one of the six exchange ids, of
   * five to seven letters, and one of the three market types.
   */
  predicate Supported(exchangeId: string, marketType: string)
    ensures Supported(exchangeId, marketType) ==> 5 <= |exchangeId| <= 7
    ensures Supported(exchangeId, marketType) ==> marketType == Futures || marketType == SpotUsdt || marketType == SpotKrw
  {
    exchangeId in SupportedExchanges && marketType in SupportedTypes
  }

  /**
   * The quote currency written in the filename: KRW for the KRW spot market,
   * USDT otherwise (the futures branch sets the default again). Lower-cased,
   * as the filename uses it, it is `krw` or `usdt`.
   */
  function FilenameQuote(marketType: string): (r: string)
    ensures Lower(r) == if marketType == SpotKrw then "krw" else "usdt"
  {
    var krw, usdt := "KRW", "USDT";
    assert Lower(krw) == "krw" by {
      assert krw[1..][1..][1..] == "";
    }
    assert Lower(usdt) == "usdt" by {
      assert usdt[1..][1..][1..][1..] == "";
    }
    if marketType == SpotKrw then krw
    else if marketType == Futures then usdt
    else usdt
  }

  /**
   * `{exchange}_{type before its first '_'}_{quote in lower case}_{yymmdd}.txt`:
   * the name starts with the exchange id and '_', and ends with '_', the six
   * date digits and `.txt`.
   */
  function Filename(exchangeId: string, marketType: string, today: Date): (r: string)
    requires today.Valid()
    ensures |r| >= |exchangeId| + 12
    ensures r[..|exchangeId| + 1] == exchangeId + "_"
    ensures r[|r| - 11..] == "_" + Yymmdd(today) + ".txt"
  {
    var kind := Split(marketType, '_')[0];
    var quote := Lower(FilenameQuote(marketType));
    var date := Yymmdd(today);
    FilenameShape(exchangeId, kind, quote, date);
    exchangeId + "_" + kind + "_" + quote + "_" + date + ".txt"
  }

  /** The filename pattern around its middle part: the exchange id first, the date last. */
  lemma FilenameShape(exchangeId: string, kind: string, quote: string, date: string)
    ensures var r := exchangeId + "_" + kind + "_" + quote + "_" + date + ".txt";
      && |r| == |exchangeId| + |kind| + |quote| + |date| + 7
      && r[..|exchangeId| + 1] == exchangeId + "_"
      && r[|r| - |date| - 5..] == "_" + date + ".txt"
  {
    var r := exchangeId + "_" + kind + "_" + quote + "_" + date + ".txt";
    assert r == (exchangeId + "_") + (kind + "_" + quote) + ("_" + date + ".txt");
  }

  /**
   * `download_symbols`, with the catalog fetch and today's date as inputs. A
   * message carries 400, 404 or 500; a file is sent only for a supported
   * request whose catalog was loaded, and its body is never empty.
   */
  function DownloadSymbols(exchangeArg: Option<string>, typeArg: Option<string>, fetched: FetchOutcome, today: Date): (r: Response)
    requires today.Valid()
    ensures r.Message? ==> r.status in {400, 404, 500}
    ensures r.Attachment? ==> Supported(Argument(exchangeArg), Argument(typeArg)) && fetched.Loaded?
    ensures r.Attachment? ==> r.body != "" && |r.filename| >= 4 && r.filename[|r.filename| - 4..] == ".txt"
  {
    var exchangeId := Argument(exchangeArg);
    var marketType := Argument(typeArg);
    if !Supported(exchangeId, marketType) then Message(400, UnsupportedRequest)
    else
      match Symbols(exchangeId, marketType, fetched)
      case Err(RequestFailed) => Message(500, LoadFailed)
      case Err(UnsupportedExchange) => Message(400, BadValue)
      case Err(Unexpected) => Message(500, InternalError)
      case Ok(list) =>
        if list == [] then Message(404, NoSymbols)
        else Attachment(Filename(exchangeId, marketType, today), Join(list, ','))
  }

  /**
   * The filename for each market type: `futures_usdt` for futures,
   * `spot_usdt` and `spot_krw` for the spot markets.
   */
  lemma FilenameTable(exchangeId: string, marketType: string, today: Date)
    requires today.Valid()
    requires marketType in SupportedTypes
    ensures Filename(exchangeId, marketType, today) ==
      exchangeId + "_" + (if marketType == Futures then "futures" else "spot")
      + "_" + (if marketType == SpotKrw then "krw" else "usdt") + "_" + Yymmdd(today) + ".txt"
  {
    TypeKind(marketType);
    FilenameParts(exchangeId, marketType, today,
      if marketType == Futures then "futures" else "spot", if marketType == SpotKrw then "krw" else "usdt");
  }

  /** The filename from its two computed parts, the market kind and the lower-cased quote. */
  lemma FilenameParts(exchangeId: string, marketType: string, today: Date, kind: string, quote: string)
    requires today.Valid()
    requires Split(marketType, '_')[0] == kind
    requires Lower(FilenameQuote(marketType)) == quote
    ensures Filename(exchangeId, marketType, today) == exchangeId + "_" + kind + "_" + quote + "_" + Yymmdd(today) + ".txt"
  {
  }

  /** `market_type.split('_')[0]` for the three market types. */
  lemma TypeKind(marketType: string)
    requires marketType in SupportedTypes
    ensures Split(marketType, '_')[0] == if marketType == Futures then "futures" else "spot"
  {
    var spot := "spot";
    if marketType == Futures {
      SplitWithoutSeparator(Futures, '_');
    } else if marketType == SpotUsdt {
      assert marketType == spot + ['_'] + "usdt";
      SplitAfterPiece(spot, '_', "usdt");
    } else {
      assert marketType == spot + ['_'] + "krw";
      SplitAfterPiece(spot, '_', "krw");
    }
  }

  /**
   * Parameters are checked before any catalog is fetched: a request is
   * rejected with 400 exactly when the lower-cased exchange or type is not in
   * its list, and then the fetch makes no difference.
   */
  lemma RejectedBeforeFetch(exchangeArg: Option<string>, typeArg: Option<string>, fetched: FetchOutcome, other: FetchOutcome, today: Date)
    requires today.Valid()
    ensures DownloadSymbols(exchangeArg, typeArg, fetched, today) == Message(400, UnsupportedRequest)
      <==> !Supported(Argument(exchangeArg), Argument(typeArg))
    ensures !Supported(Argument(exchangeArg), Argument(typeArg)) ==>
      DownloadSymbols(exchangeArg, typeArg, fetched, today) == DownloadSymbols(exchangeArg, typeArg, other, today)
  {
  }

  /** "Not found" (404) is answered exactly when a supported request yields an empty symbol list. */
  lemma NotFoundExactlyWhenEmpty(exchangeArg: Option<string>, typeArg: Option<string>, fetched: FetchOutcome, today: Date)
    requires today.Valid()
    ensures var exchangeId := Argument(exchangeArg);
      var marketType := Argument(typeArg);
      (DownloadSymbols(exchangeArg, typeArg, fetched, today).Message? && DownloadSymbols(exchangeArg, typeArg, fetched, today).status == 404)
        <==> (Supported(exchangeId, marketType) && Symbols(exchangeId, marketType, fetched) == Ok([]))
  {
  }

  /**
   * A supported request whose symbol list is non-empty gets the file: its name
   * follows the filename table, and splitting its body at ',' gives the list
   * back whenever no name holds a comma.
   */
  lemma AttachmentCarriesTheList(exchangeArg: Option<string>, typeArg: Option<string>, fetched: FetchOutcome, today: Date, list: seq<string>)
    requires today.Valid()
    requires Symbols(Argument(exchangeArg), Argument(typeArg), fetched) == Ok(list)
    ensures var exchangeId := Argument(exchangeArg);
      var marketType := Argument(typeArg);
      var response := DownloadSymbols(exchangeArg, typeArg, fetched, today);
      && (response.Attachment? <==> Supported(exchangeId, marketType) && list != [])
      && (response.Attachment? ==>
            && response.filename == exchangeId + "_" + (if marketType == Futures then "futures" else "spot")
                 + "_" + (if marketType == SpotKrw then "krw" else "usdt") + "_" + Yymmdd(today) + ".txt"
            && response.body == Join(list, ',')
            && ((forall i :: 0 <= i < |list| ==> ',' !in list[i]) ==> Split(response.body, ',') == list))
  {
    var exchangeId := Argument(exchangeArg);
    var marketType := Argument(typeArg);
    if Supported(exchangeId, marketType) && list != [] {
      FilenameTable(exchangeId, marketType, today);
      if forall i :: 0 <= i < |list| ==> ',' !in list[i] {
        SplitJoin(list, ',');
      }
    }
  }

  /** The binance perpetual `BTC/USDT:USDT`, downloaded on 16 April 2025. */
  lemma BinanceFuturesExample(btc: Market)
    requires btc == Market(Present(true), Present(true), Present(true), Absent, Present("USDT"), Present("BTC/USDT:USDT"))
    ensures DownloadSymbols(Some("binance"), Some("futures"), Loaded([("BTC/USDT:USDT", btc)]), Date(2025, 4, 16))
      == Attachment("binance_futures_usdt_250416.txt", "BINANCE:BTCUSDT.P")
  {
    BinanceArguments();
    BinanceSymbols(btc);
    AttachmentCarriesTheList(Some("binance"), Some("futures"), Loaded([("BTC/USDT:USDT", btc)]), Date(2025, 4, 16), ["BINANCE:BTCUSDT.P"]);
    BinanceFilename();
    JoinOne("BINANCE:BTCUSDT.P");
  }

  /** The two parameters of the binance example are accepted as given. */
  lemma BinanceArguments()
    ensures Argument(Some("binance")) == "binance"
    ensures Argument(Some("futures")) == "futures"
    ensures Supported("binance", "futures")
  {
    LowerCaseWord("binance");
    LowerCaseWord(Futures);
  }

  /** The binance catalog of one perpetual yields its one name. */
  lemma BinanceSymbols(btc: Market)
    requires btc == Market(Present(true), Present(true), Present(true), Absent, Present("USDT"), Present("BTC/USDT:USDT"))
    ensures Symbols("binance", Futures, Loaded([("BTC/USDT:USDT", btc)])) == Ok(["BINANCE:BTCUSDT.P"])
  {
    BinancePrefix();
    BinanceEntry();
    CollectOne("BINANCE", Futures, ("BTC/USDT:USDT", btc));
  }

  /** The filename of the binance example, with the date written out. */
  lemma BinanceFilename()
    ensures "binance" + "_" + "futures" + "_" + "usdt" + "_" + Yymmdd(Date(2025, 4, 16)) + ".txt"
      == "binance_futures_usdt_250416.txt"
  {
    DateExample();
  }

  /** A word of lower-case ASCII letters and '_' is its own lower-cased parameter. */
  lemma LowerCaseWord(s: string)
    requires forall i :: 0 <= i < |s| ==> 'a' <= s[i] <= 'z' || s[i] == '_'
    ensures Argument(Some(s)) == s
  {
    LowerKeeps(s);
  }

  /** `exchange_id.upper()` for binance. */
  lemma BinancePrefix()
    ensures Upper("binance") == "BINANCE"
  {
  }

  /** `BTC/USDT:USDT` loses its settle part and its '/'. */
  lemma BinanceEntry()
    ensures Entry("BINANCE", Futures, "BTC/USDT:USDT") == "BINANCE:BTCUSDT.P"
  {
    var base, usdt := "BTC", "USDT";
    FuturesEntryShape("BINANCE", base, usdt, usdt);
    BinanceSymbol(base, usdt);
  }

  /**
   * The literal pieces of the binance symbol and name. The literals are bound
   * to parameters so that the example proofs above never unfold them.
   */
  lemma BinanceSymbol(base: string, usdt: string)
    requires base == "BTC" && usdt == "USDT"
    ensures base + "/" + usdt + ":" + usdt == "BTC/USDT:USDT"
    ensures "BINANCE" + ":" + base + usdt + ".P" == "BINANCE:BTCUSDT.P"
  {
  }

  /** `strftime("%y%m%d")` on 16 April 2025. */
  lemma DateExample()
    ensures Yymmdd(Date(2025, 4, 16)) == "250416"
  {
    assert TwoDigits(25) == "25";
    assert TwoDigits(4) == "04";
    assert TwoDigits(16) == "16";
  }

  /** Joining a single name adds no separator. */
  lemma JoinOne(name: string)
    ensures Join([name], ',') == name
  {
  }

  /** The upbit spot market `BTC/KRW`. */
  lemma UpbitKrwExample(btc: Market, today: Date)
    requires today.Valid()
    requires btc == Market(Present(true), Absent, Absent, Present(true), Present("KRW"), Present("BTC/KRW"))
    ensures DownloadSymbols(Some("upbit"), Some("spot_krw"), Loaded([("BTC/KRW", btc)]), today)
      == Attachment("upbit_spot_krw_" + Yymmdd(today) + ".txt", "UPBIT:BTCKRW")
  {
    UpbitArguments();
    UpbitSymbols(btc);
    AttachmentCarriesTheList(Some("upbit"), Some("spot_krw"), Loaded([("BTC/KRW", btc)]), today, ["UPBIT:BTCKRW"]);
    UpbitFilename(today);
    JoinOne("UPBIT:BTCKRW");
  }

  /** The two parameters of the upbit example are accepted as given. */
  lemma UpbitArguments()
    ensures Argument(Some("upbit")) == "upbit"
    ensures Argument(Some("spot_krw")) == "spot_krw"
    ensures Supported("upbit", "spot_krw")
  {
    LowerCaseWord("upbit");
    LowerCaseWord(SpotKrw);
  }

  /** The upbit catalog of one KRW market yields its one name. */
  lemma UpbitSymbols(btc: Market)
    requires btc == Market(Present(true), Absent, Absent, Present(true), Present("KRW"), Present("BTC/KRW"))
    ensures Symbols("upbit", SpotKrw, Loaded([("BTC/KRW", btc)])) == Ok(["UPBIT:BTCKRW"])
  {
    UpbitEntry();
    CollectOne("UPBIT", SpotKrw, ("BTC/KRW", btc));
  }

  /** `upbit` upper-cased, and `BTC/KRW` without its '/'. */
  lemma UpbitEntry()
    ensures Upper("upbit") == "UPBIT"
    ensures Entry("UPBIT", SpotKrw, "BTC/KRW") == "UPBIT:BTCKRW"
  {
    var base, krw := "BTC", "KRW";
    SpotEntryShape("UPBIT", SpotKrw, base, krw);
    UpbitSymbol(base, krw);
  }

  /** The literal pieces of the upbit symbol and name, bound to parameters as for binance. */
  lemma UpbitSymbol(base: string, krw: string)
    requires base == "BTC" && krw == "KRW"
    ensures base + "/" + krw == "BTC/KRW"
    ensures "UPBIT" + ":" + base + krw == "UPBIT:BTCKRW"
  {
  }

  /** The filename of the upbit example, with its pieces joined. */
  lemma UpbitFilename(today: Date)
    requires today.Valid()
    ensures "upbit" + "_" + "spot" + "_" + "krw" + "_" + Yymmdd(today) + ".txt" == "upbit_spot_krw_" + Yymmdd(today) + ".txt"
  {
  }

  /** An exchange outside the list is refused before anything is fetched. */
  lemma UnknownExchangeExample(fetched: FetchOutcome, today: Date)
    requires today.Valid()
    ensures DownloadSymbols(Some("notarealexchange"), Some("futures"), fetched, today) == Message(400, UnsupportedRequest)
  {
    UnknownExchangeArgument();
    RejectedBeforeFetch(Some("notarealexchange"), Some("futures"), fetched, fetched, today);
  }

  /** `notarealexchange` is lower-case already and is not listed. */
  lemma UnknownExchangeArgument()
    ensures !Supported(Argument(Some("notarealexchange")), Argument(Some("futures")))
  {
    LowerCaseWord("notarealexchange");
    NotListed("notarealexchange");
  }

  /** Every listed exchange id has at most seven characters. */
  lemma NotListed(name: string)
    requires |name| > 7
    ensures name !in SupportedExchanges
  {
    assert forall x :: x in SupportedExchanges ==> |x| <= 7;
  }
}
