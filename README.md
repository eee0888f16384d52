# Mempool fee monitor: decoder and alert step

This project models the core of a mempool fee monitor written in Rust. The
monitor subscribes to a real-time feed of predicted upcoming blocks. It
decodes each update into per-block fee summaries (`MempoolBlockInfo`). It then
looks at the first `moniter_block_num` summaries and raises an audible alert
when any of them has a minimum fee rate strictly below `alert_fee`.

Three modules:

- `JsonValue` (`json_value.dfy`): the parsed JSON value the decoder reads. It
  is shaped after serde_json's `Value`. Integers and floats are kept apart, as
  serde keeps them. It has the accessors the decoder uses: member lookup,
  array view, `as_f64`, `as_u64`, and first and last element.
- `FbMempool` (`fb_mempool.dfy`): the record type and the decoder. The
  decoder is specified by the function `Decode`. The method
  `ProcessMempoolBlocks` runs it as the source does, in one loop that appends
  each kept record, and is proved equal to `Decode`. This module also holds
  the window selection (`Monitored`), the filter of qualifying records
  (`Qualifying`), the alert decision (`Evaluate`) and the per-event step
  (`HandleMessage`). The stream loop is the method `HandleMessages`, which
  counts alert signals. `Handshake` is the two fixed subscription messages,
  in the order they are sent: `init`, then `want`.
- `MempoolProperties` (`mempool_properties.dfy`): lemmas about those
  definitions, and worked updates.

Modelling choices:

- Fee values are `real`. The code only compares fees and divides by a
  constant, so IEEE-754 rounding is not modelled.
- `n_tx` is a `nat` below 2^64. It is taken only from an integer in that
  range, so a float such as `50.0` gives 0, as serde's `as_u64` does.
- `fee_range` stays a two-element sequence, as it is in the source. Every
  decoded record is proved to have exactly two elements (`WellFormed`). The
  alert functions require that, so the reads of `fee_range[0]` and
  `fee_range[1]` are always in bounds.
- An inbound event is `Incoming`. Parse failure is its own variant
  (`UnparseableText`), next to the frame kinds, `Close` and `TransportError`.
  Parsing JSON text is not part of this model.
- A call to the alert sound is modelled as one counted signal.

Behaviour of the code that a reader might not expect:

- The window counts decoded records, not original positions. When an earlier
  entry is dropped, a record whose `index` is at least `moniter_block_num` is
  monitored and can raise the alert (`MonitoredCanPassWindow`). Every
  monitored record has an index below the window when none of the first
  `window` entries is dropped (`MonitoredWithinWindowWhenPrefixComplete`).
- The `totalFees` scaling applies to every number, negative ones included.
- A `Close` frame is only logged. The loop goes on until the stream itself
  ends, so `HandleMessages` handles every event of the sequence it is given.
- `play_sound` unwraps every audio-device and file error, so a missing device
  ends the process. That path is not part of this model (see below).

`Evaluate` is a function, so two calls with the same inputs return the same
decision and the same report.

## Model

| member | source | states |
|---|---|---|
| FbMempool.DecodeEntry | src/api/fb_mempool.rs:88-104 | An entry yields a record iff it has all four keys `medianFee`, `feeRange`, `totalFees`, `nTx`, whatever their values. The record carries the given index and a two-element fee range. The fee range is the numeric first and last elements of an array, or `[0, 0]` for a non-array or an empty array. Scaling `totalFees` back by 100,000,000 gives the number, or 0. The median is the number or 0. `n_tx` is an integer in the u64 range, or 0. |
| FbMempool.DecodePrefix | src/api/fb_mempool.rs:87-106 | Decoding the first n entries gives at most n records. All are well formed and all carry indices below n. |
| FbMempool.Decode | src/api/fb_mempool.rs:83-110 | Every decoded record is well formed. With no `mempool-blocks` array the result is empty. Otherwise there are never more records than entries. |
| FbMempool.ProcessMempoolBlocks | src/api/fb_mempool.rs:83-110 | The loop that appends a record per complete entry computes exactly `Decode`. |
| FbMempool.Monitored | src/api/fb_mempool.rs:45 | The monitored records are a prefix of the decoded ones, of length min(window, count). |
| FbMempool.Qualifying | src/api/fb_mempool.rs:49 | The report holds only monitored records below the alert fee, and every such record. It is non-empty iff some record is below the fee. |
| FbMempool.Evaluate | src/api/fb_mempool.rs:45-49 | The alert fires iff one of the first min(window, count) records has a minimum fee strictly below the alert fee. It fires iff the report is non-empty. The report has at most `window` records and is exactly the ordered filter of the monitored records. |
| FbMempool.HandleMessage | src/api/fb_mempool.rs:40-72 | Only a parsed text event can alert, and it alerts iff its decoded update meets the alert condition. An alert reports exactly the monitored records below the fee, in order: a non-empty list of at most `window` records. Unparseable text, close, error and other frames are quiet. |
| FbMempool.AlertCount | src/api/fb_mempool.rs:61 | A run of events never signals more often than it has events. |
| FbMempool.SignalCountOfHandled | src/api/fb_mempool.rs:39-73 | When each event gets its own action, the actions signal exactly as often as the run's alert count. |
| FbMempool.HandleOne | src/api/fb_mempool.rs:40-72 | The loop body, which decodes with the imperative decoder, computes `HandleMessage`. |
| FbMempool.HandleMessages | src/api/fb_mempool.rs:39-76 | Events are handled one at a time, in arrival order, each on its own. The signal count is the number of alerting events. |
| MempoolProperties.DecodeEmptyWithoutBlockArray | src/api/fb_mempool.rs:84-86 | A payload that is not an object, has no `mempool-blocks` key, or has a non-array under it decodes to nothing. |
| MempoolProperties.DecodedRecordsAreEntries | src/api/fb_mempool.rs:87-104 | Every decoded record is the decoding of the entry at its own `index`. |
| MempoolProperties.DecodedIndicesIncrease | src/api/fb_mempool.rs:87-99 | Record indices strictly increase, so kept entries keep their relative order. |
| MempoolProperties.DecodedIffComplete | src/api/fb_mempool.rs:88-93 | An entry has a record iff it carries all four keys. |
| MempoolProperties.DecodeExact | src/api/fb_mempool.rs:83-110 | For a payload with a blocks array: records are the complete entries, decoded, tagged with their original positions, in increasing order, and no more than the entries. |
| MempoolProperties.IndexAtLeastPosition | src/api/fb_mempool.rs:87-99 | Indices are not renumbered after drops: a record's index is never below its output position. |
| MempoolProperties.IndexIsPositionWhenNoneDropped | src/api/fb_mempool.rs:87-99 | When every entry is complete, each record's index equals its output position. |
| MempoolProperties.DecodePrefixExtends | src/api/fb_mempool.rs:87-106 | Decoding more entries only appends records: earlier records never change. |
| MempoolProperties.MonitoredWithinWindowWhenPrefixComplete | src/api/fb_mempool.rs:45 | When the first `window` entries are all complete, the k-th monitored record has index k, below the window. |
| MempoolProperties.SingletonFeeRange | src/api/fb_mempool.rs:94-95 | A one-element fee range gives min = max. |
| MempoolProperties.MonitoredIndices | src/api/fb_mempool.rs:45 | At most `window` records are monitored, and each one's index is at least its position. |
| MempoolProperties.MonitoredCanPassWindow | src/api/fb_mempool.rs:45-47 | With the first entry dropped and a window of 1, the record with index 1 is monitored and raises the alert. |
| MempoolProperties.QualifyingAppend | src/api/fb_mempool.rs:49 | The report filter distributes over concatenation, so it keeps the records' order. |
| MempoolProperties.QualifyingKeepsOrder | src/api/fb_mempool.rs:49 | Filtering records with increasing indices keeps the indices increasing. |
| MempoolProperties.ReportKeepsOrder | src/api/fb_mempool.rs:45-58 | An alert prints its records in strictly increasing `index` order. |
| MempoolProperties.QualifyingSingle | src/api/fb_mempool.rs:49 | A single record is reported iff its minimum fee is strictly below the alert fee. |
| MempoolProperties.EvaluateIgnoresBeyondWindow | src/api/fb_mempool.rs:45 | Records past the window never change the decision or the report. |
| MempoolProperties.AlertCountAppend | src/api/fb_mempool.rs:39-73 | No state crosses events: the signal counts of two runs add up. |
| MempoolProperties.NoSignalWithoutText | src/api/fb_mempool.rs:40-71 | Runs without parsed text events never signal. |
| MempoolProperties.SignalOncePerAlertingText | src/api/fb_mempool.rs:47-61 | A parsed text event adds exactly one signal when its update alerts, and none otherwise. |
| MempoolProperties.SampleUpdate | src/api/fb_mempool.rs:94-104 | A block with fee range [5, 20] and 100,000,000 total fees decodes to total 1.0. It alerts against 6, reporting itself, and not against 4. |
| MempoolProperties.MissingVersusNullCount | src/api/fb_mempool.rs:88-103 | An entry without `nTx` is dropped. An entry whose `nTx` is null is kept with 0. |

## Left out

- The WebSocket connection, the stream split and the sending of the two handshake messages are network I/O. Only the messages themselves are modelled, as `Handshake`.
- Async driving of the stream (`for_each`, pinning, awaiting) is left out. The loop is modelled as `HandleMessages` over a finite sequence of events.
- Parsing JSON text is a library call. The model takes the parsed value as input, and a parse failure is the event `UnparseableText`.
- The timestamp and the console output of each alert line, of the close notice and of errors are clock and I/O. The alert line's data is the `Alert` action's report.
- The alert sound (`src/radio_alert.rs`) is audio-device and file I/O, and panics when these fail. It is modelled as one counted signal.
- `src/main.rs` only passes the constants 560.0 and 2 to the monitor.
- IEEE-754 double arithmetic is not modelled: fees are real numbers. An integer too large for 64 bits, which serde reads as a float, is still an `Int` here. `as_f64` and `as_u64` agree on it either way.
