/** The fee-snapshot decoder and the alert step of the mempool fee monitor:
    each inbound feed message is decoded into per-block fee summaries, the
    first `window` summaries are checked against the alert fee, and a
    qualifying message raises one alert signal. */
module FbMempool {
  import opened JsonValue

  /** Fees arrive in satoshis; a coin is this many satoshis. */
  const SatoshisPerCoin: real := 100000000.0

  /** The key under which the feed reports its predicted blocks. */
  const BlocksKey: string := "mempool-blocks"

  /** The two handshake messages sent, in this order, before streaming. */
  const Handshake: seq<Value> := [
    Object(map["action" := String("init")]),
    Object(map["action" := String("want"), "data" := Array([String(BlocksKey)])])
  ]

  /** One predicted block. `index` is the entry's position in the feed's
      array; `feeRange` holds the minimum and the maximum fee rate. */
  datatype MempoolBlockInfo = MempoolBlockInfo(
    index: nat,
    medianFee: real,
    feeRange: seq<real>,
    totalFees: real,
    nTx: nat)

  /** What every decoded record satisfies: a two-element fee range (so the
      reads of its first and second element are in bounds) and a 64-bit count. */
  predicate WellFormed(b: MempoolBlockInfo) {
    |b.feeRange| == 2 && b.nTx < U64Limit
  }

  predicate AllWellFormed(s: seq<MempoolBlockInfo>) {
    forall b :: b in s ==> WellFormed(b)
  }

  // ---------------------------------------------------------------------------
  // Decoding
  // ---------------------------------------------------------------------------

  /** An entry is kept only when all four keys are present, whatever their values. */
  predicate HasRequiredKeys(block: Value) {
    block.Object? &&
    "medianFee" in block.fields && "feeRange" in block.fields &&
    "totalFees" in block.fields && "nTx" in block.fields
  }

  /** A number as a fee, 0.0 for anything that is not a number. */
  function NumberOrZero(v: Value): real {
    AsF64(v).GetOr(0.0)
  }

  /** The numeric first element of a fee-range array, 0.0 otherwise. */
  function MinFee(feeRange: Value): real {
    match AsArray(feeRange)
    case Some(xs) => (match First(xs) case Some(x) => NumberOrZero(x) case None => 0.0)
    case None => 0.0
  }

  /** The numeric last element of a fee-range array, 0.0 otherwise. */
  function MaxFee(feeRange: Value): real {
    match AsArray(feeRange)
    case Some(xs) => (match Last(xs) case Some(x) => NumberOrZero(x) case None => 0.0)
    case None => 0.0
  }

  /** The record for the entry at position `i` of the feed's array, if it has all four keys. */
  function DecodeEntry(i: nat, block: Value): (r: Option<MempoolBlockInfo>)
    ensures r.Some? <==> HasRequiredKeys(block)
    ensures r.Some? ==> r.value.index == i && WellFormed(r.value)
    ensures r.Some? ==> r.value.medianFee == NumberOrZero(block.fields["medianFee"])
    ensures r.Some? ==> r.value.totalFees * SatoshisPerCoin == NumberOrZero(block.fields["totalFees"])
    ensures r.Some? ==>
      var fr := block.fields["feeRange"];
      if fr.Array? && fr.items != [] then
        r.value.feeRange == [NumberOrZero(fr.items[0]), NumberOrZero(fr.items[|fr.items| - 1])]
      else
        r.value.feeRange == [0.0, 0.0]
    ensures r.Some? ==>
      var n := block.fields["nTx"];
      r.value.nTx == if n.Int? && 0 <= n.i < U64Limit then n.i else 0
  {
    match (Get(block, "medianFee"), Get(block, "feeRange"), Get(block, "totalFees"), Get(block, "nTx"))
    case (Some(medianFee), Some(feeRange), Some(totalFees), Some(nTx)) =>
      Some(MempoolBlockInfo(
        i,
        NumberOrZero(medianFee),
        [MinFee(feeRange), MaxFee(feeRange)],
        NumberOrZero(totalFees) / SatoshisPerCoin,
        AsU64(nTx).GetOr(0)))
    case _ => None
  }

  /** The records decoded from the first `n` entries of the feed's array, in order. */
  function DecodePrefix(blocks: seq<Value>, n: nat): (r: seq<MempoolBlockInfo>)
    requires n <= |blocks|
    ensures |r| <= n
    ensures AllWellFormed(r)
    ensures forall k :: 0 <= k < |r| ==> r[k].index < n
    decreases n
  {
    if n == 0 then []
    else
      var prev := DecodePrefix(blocks, n - 1);
      match DecodeEntry(n - 1, blocks[n - 1])
      case Some(info) => prev + [info]
      case None => prev
  }

  /** The feed's array of predicted blocks, when the payload has one. */
  function BlockArray(data: Value): Option<seq<Value>> {
    match Get(data, BlocksKey)
    case Some(v) => AsArray(v)
    case None => None
  }

  /** The specification of the decoder: every kept entry of the array, in order. */
  function Decode(data: Value): (r: seq<MempoolBlockInfo>)
    ensures AllWellFormed(r)
    ensures BlockArray(data).None? ==> r == []
    ensures BlockArray(data).Some? ==> |r| <= |BlockArray(data).value|
  {
    match BlockArray(data)
    case Some(blocks) => DecodePrefix(blocks, |blocks|)
    case None => []
  }

  /** The decoder as the source runs it: one pass over the array, appending each kept record. */
  method ProcessMempoolBlocks(data: Value) returns (result: seq<MempoolBlockInfo>)
    ensures result == Decode(data)
  {
    result := [];
    var mempoolBlocks := Get(data, BlocksKey);
    if mempoolBlocks.Some? {
      var blocks := AsArray(mempoolBlocks.value);
      if blocks.Some? {
        var items := blocks.value;
        for i := 0 to |items|
          invariant result == DecodePrefix(items, i)
        {
          var block := items[i];
          var medianFee, feeRange := Get(block, "medianFee"), Get(block, "feeRange");
          var totalFees, nTx := Get(block, "totalFees"), Get(block, "nTx");
          if medianFee.Some? && feeRange.Some? && totalFees.Some? && nTx.Some? {
            var minFee := MinFee(feeRange.value);
            var maxFee := MaxFee(feeRange.value);
            var total := NumberOrZero(totalFees.value) / SatoshisPerCoin;
            result := result + [MempoolBlockInfo(
              i, NumberOrZero(medianFee.value), [minFee, maxFee], total, AsU64(nTx.value).GetOr(0))];
          }
        }
      }
    }
  }

  // ---------------------------------------------------------------------------
  // Alert evaluation
  // ---------------------------------------------------------------------------

  function Min(a: nat, b: nat): nat {
    if a <= b then a else b
  }

  /** The monitored records: the first `window` decoded records (fewer if there are fewer). */
  function Monitored(blocks: seq<MempoolBlockInfo>, window: nat): (r: seq<MempoolBlockInfo>)
    ensures |r| == Min(window, |blocks|)
    ensures r <= blocks
  {
    blocks[..Min(window, |blocks|)]
  }

  /** A record's minimum fee is strictly below the alert fee. */
  predicate BelowThreshold(b: MempoolBlockInfo, alertFee: real)
    requires WellFormed(b)
  {
    b.feeRange[0] < alertFee
  }

  predicate AnyBelow(blocks: seq<MempoolBlockInfo>, alertFee: real)
    requires AllWellFormed(blocks)
  {
    exists b :: b in blocks && BelowThreshold(b, alertFee)
  }

  /** The records whose minimum fee is below the alert fee, in their original order. */
  function Qualifying(blocks: seq<MempoolBlockInfo>, alertFee: real): (r: seq<MempoolBlockInfo>)
    requires AllWellFormed(blocks)
    ensures |r| <= |blocks|
    ensures forall b :: b in r ==> b in blocks && BelowThreshold(b, alertFee)
    ensures forall b :: b in blocks && BelowThreshold(b, alertFee) ==> b in r
    ensures r != [] <==> AnyBelow(blocks, alertFee)
  {
    if blocks == [] then []
    else
      var rest := Qualifying(blocks[1..], alertFee);
      if BelowThreshold(blocks[0], alertFee) then [blocks[0]] + rest else rest
  }

  /** The outcome of evaluating one update: whether to alert, and the records reported. */
  datatype Evaluation = Evaluation(alert: bool, reported: seq<MempoolBlockInfo>)

  /** The alert decision for one update. */
  function Evaluate(blocks: seq<MempoolBlockInfo>, alertFee: real, window: nat): (e: Evaluation)
    requires AllWellFormed(blocks)
    ensures e.alert <==> exists k :: 0 <= k < |blocks| && k < window && BelowThreshold(blocks[k], alertFee)
    ensures e.alert <==> e.reported != []
    ensures |e.reported| <= window
    ensures forall b :: b in e.reported ==> b in Monitored(blocks, window) && BelowThreshold(b, alertFee)
    ensures e.alert ==> forall b :: b in Monitored(blocks, window) && BelowThreshold(b, alertFee) ==> b in e.reported
    ensures e.alert ==> e.reported == Qualifying(Monitored(blocks, window), alertFee)
  {
    var monitored := Monitored(blocks, window);
    if AnyBelow(monitored, alertFee) then Evaluation(true, Qualifying(monitored, alertFee))
    else Evaluation(false, [])
  }

  // ---------------------------------------------------------------------------
  // Per-message step and the receive loop
  // ---------------------------------------------------------------------------

  /** An inbound event on the feed: a text frame that parsed, one that did not,
      the other frame kinds, and a transport error. */
  datatype Incoming =
    | Text(data: Value)
    | UnparseableText
    | Binary
    | Ping
    | Pong
    | RawFrame
    | Close
    | TransportError

  /** What handling one event does: nothing, or report these records and signal once. */
  datatype Action = Quiet | Alert(reported: seq<MempoolBlockInfo>)

  function HandleMessage(msg: Incoming, alertFee: real, window: nat): (a: Action)
    ensures a.Alert? ==> msg.Text? && a.reported != [] && |a.reported| <= window
    ensures msg.Text? ==>
      var blocks := Decode(msg.data);
      (a.Alert? <==> exists k :: 0 <= k < |blocks| && k < window && BelowThreshold(blocks[k], alertFee))
    ensures a.Alert? ==> msg.Text? && a.reported == Qualifying(Monitored(Decode(msg.data), window), alertFee)
  {
    match msg
    case Text(data) =>
      var e := Evaluate(Decode(data), alertFee, window);
      if e.alert then Alert(e.reported) else Quiet
    case _ => Quiet
  }

  /** How many alert signals a run of events raises. */
  function AlertCount(msgs: seq<Incoming>, alertFee: real, window: nat): (c: nat)
    ensures c <= |msgs|
  {
    if msgs == [] then 0
    else
      var last := if HandleMessage(msgs[|msgs| - 1], alertFee, window).Alert? then 1 else 0;
      AlertCount(msgs[..|msgs| - 1], alertFee, window) + last
  }

  /** How many of these actions signal. */
  function SignalCount(actions: seq<Action>): (c: nat)
    ensures c <= |actions|
  {
    if actions == [] then 0
    else SignalCount(actions[..|actions| - 1]) + (if actions[|actions| - 1].Alert? then 1 else 0)
  }

  /** The signals of the actions taken for a run of events are that run's alert count. */
  lemma {:induction false} SignalCountOfHandled(msgs: seq<Incoming>, actions: seq<Action>, alertFee: real, window: nat)
    requires |actions| == |msgs|
    requires forall i :: 0 <= i < |msgs| ==> actions[i] == HandleMessage(msgs[i], alertFee, window)
    ensures SignalCount(actions) == AlertCount(msgs, alertFee, window)
    decreases |msgs|
  {
    if msgs != [] {
      var n := |msgs| - 1;
      SignalCountOfHandled(msgs[..n], actions[..n], alertFee, window);
    }
  }

  /** `f` applied to each element of `xs`, in order. */
  function Map<A, B>(f: A -> B, xs: seq<A>): (r: seq<B>)
    ensures |r| == |xs|
    ensures forall i :: 0 <= i < |xs| ==> r[i] == f(xs[i])
  {
    if xs == [] then [] else Map(f, xs[..|xs| - 1]) + [f(xs[|xs| - 1])]
  }

  /** Mapping one more element appends its image. */
  lemma MapSnoc<A, B>(f: A -> B, xs: seq<A>, i: nat)
    requires i < |xs|
    ensures Map(f, xs[..i + 1]) == Map(f, xs[..i]) + [f(xs[i])]
  {
    assert xs[..i + 1][..i] == xs[..i];
  }

  /** One event as the loop body handles it: a parsed text frame is decoded
      and evaluated; every other event is only logged or ignored. */
  method HandleOne(msg: Incoming, alertFee: real, window: nat) returns (action: Action)
    ensures action == HandleMessage(msg, alertFee, window)
  {
    action := Quiet;
    match msg {
      case Text(data) =>
        var blocks := ProcessMempoolBlocks(data);
        var e := Evaluate(blocks, alertFee, window);
        if e.alert {
          action := Alert(e.reported);
        }
      case _ =>
    }
  }

  /** The receive loop: every event is handled on its own, in arrival order,
      and each alerting event signals once. */
  method HandleMessages(msgs: seq<Incoming>, alertFee: real, window: nat)
    returns (signals: nat, actions: seq<Action>)
    ensures |actions| == |msgs|
    ensures forall i :: 0 <= i < |msgs| ==> actions[i] == HandleMessage(msgs[i], alertFee, window)
    ensures signals == AlertCount(msgs, alertFee, window)
  {
    signals, actions := 0, [];
    ghost var step := (m: Incoming) => HandleMessage(m, alertFee, window);
    for i := 0 to |msgs|
      invariant actions == Map(step, msgs[..i])
      invariant signals == SignalCount(actions)
    {
      var action := HandleOne(msgs[i], alertFee, window);
      if action.Alert? {
        signals := signals + 1;
      }
      assert (actions + [action])[..i] == actions;
      MapSnoc(step, msgs, i);
      actions := actions + [action];
    }
    assert msgs[..|msgs|] == msgs;
    assert forall j :: 0 <= j < |msgs| ==> actions[j] == HandleMessage(msgs[j], alertFee, window);
    SignalCountOfHandled(msgs, actions, alertFee, window);
  }
}
