/** Market events as the normaliser hands them to the ingest pipeline. */
module Events {
  datatype Stream = Klines | Trades

  /** The OHLCV payload; only equality of payloads matters to the ingest code. */
  datatype Ohlcv = Ohlcv(o: real, h: real, l: real, c: real, volume: real, quoteVolume: real, trades: nat)

  datatype Candle = Candle(instrument: string, tf: string, openNs: int, closed: bool, values: Ohlcv)

  datatype Payload =
    | Kline(candle: Candle)
    | Trade(instrument: string, aggId: int)
    | Book(lastUpdateId: int)
    | MarkPrice

  /** `uid` is the event identity, `canon` the digest of the canonical bytes, `src` the source rank
      (1 = stream, 2 = REST, 3 = replay) and `ok` the verdict of the checks that do not concern this model. */
  datatype Event = Event(uid: int, canon: int, src: int, tsEvent: int, tsIngest: int, ok: bool, payload: Payload)
}
