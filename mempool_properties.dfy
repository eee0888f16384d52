/** Properties of the fee-snapshot decoder, the alert evaluation and the
    receive loop, stated over the definitions in `FbMempool`. */
module MempoolProperties {
  import opened JsonValue
  import opened FbMempool

  // ---------------------------------------------------------------------------
  // Decoder
  // ---------------------------------------------------------------------------

  /** A payload that is not an object, lacks the blocks key, or holds a
      non-array under it decodes to nothing. */
  lemma DecodeEmptyWithoutBlockArray(data: Value)
    requires !data.Object? || BlocksKey !in data.fields || !data.fields[BlocksKey].Array?
    ensures Decode(data) == []
  {
  }

  /** Each record is the decoding of the entry at its own `index`, one of the first `n`. */
  predicate RecordsAreEntries(r: seq<MempoolBlockInfo>, blocks: seq<Value>, n: nat)
    requires n <= |blocks|
  {
    forall k :: 0 <= k < |r| ==> r[k].index < n && DecodeEntry(r[k].index, blocks[r[k].index]) == Some(r[k])
  }

  /** Record indices strictly increase, so records keep the order of their entries. */
  predicate IndicesIncrease(r: seq<MempoolBlockInfo>) {
    forall j, k :: 0 <= j < k < |r| ==> r[j].index < r[k].index
  }

  /** Among the first `n` entries, exactly those with all four keys have a record. */
  predicate KeptIffComplete(r: seq<MempoolBlockInfo>, blocks: seq<Value>, n: nat)
    requires n <= |blocks|
  {
    forall i :: 0 <= i < n ==> (HasRequiredKeys(blocks[i]) <==> exists k :: 0 <= k < |r| && r[k].index == i)
  }

  /** No record's index is below its position in the output. */
  predicate IndexAtLeastPos(r: seq<MempoolBlockInfo>) {
    forall k :: 0 <= k < |r| ==> k <= r[k].index
  }

  lemma {:induction false} DecodedRecordsAreEntries(blocks: seq<Value>, n: nat)
    requires n <= |blocks|
    ensures RecordsAreEntries(DecodePrefix(blocks, n), blocks, n)
    decreases n
  {
    if n > 0 {
      DecodedRecordsAreEntries(blocks, n - 1);
      var prev := DecodePrefix(blocks, n - 1);
      var r := DecodePrefix(blocks, n);
      var e := DecodeEntry(n - 1, blocks[n - 1]);
      if e.Some? {
        assert r == prev + [e.value];
        assert forall k :: 0 <= k < |prev| ==> r[k] == prev[k];
      }
    }
  }

  lemma {:induction false} DecodedIndicesIncrease(blocks: seq<Value>, n: nat)
    requires n <= |blocks|
    ensures IndicesIncrease(DecodePrefix(blocks, n))
    decreases n
  {
    if n > 0 {
      DecodedIndicesIncrease(blocks, n - 1);
      var prev := DecodePrefix(blocks, n - 1);
      var r := DecodePrefix(blocks, n);
      var e := DecodeEntry(n - 1, blocks[n - 1]);
      if e.Some? {
        assert r == prev + [e.value];
        assert forall k :: 0 <= k < |prev| ==> r[k] == prev[k];
      }
    }
  }

  lemma {:induction false} DecodedIffComplete(blocks: seq<Value>, n: nat)
    requires n <= |blocks|
    ensures KeptIffComplete(DecodePrefix(blocks, n), blocks, n)
    decreases n
  {
    if n > 0 {
      DecodedIffComplete(blocks, n - 1);
      var prev := DecodePrefix(blocks, n - 1);
      var r := DecodePrefix(blocks, n);
      var e := DecodeEntry(n - 1, blocks[n - 1]);
      forall i | 0 <= i < n
        ensures HasRequiredKeys(blocks[i]) <==> exists k :: 0 <= k < |r| && r[k].index == i
      {
        if e.Some? {
          assert r == prev + [e.value];
          if i == n - 1 {
            assert r[|prev|].index == i;
          } else if HasRequiredKeys(blocks[i]) {
            var k :| 0 <= k < |prev| && prev[k].index == i;
            assert r[k] == prev[k];
          } else {
            forall k | 0 <= k < |r| ensures r[k].index != i {
              if k < |prev| { assert r[k] == prev[k]; }
            }
          }
        } else {
          assert r == prev;
        }
      }
    }
  }

  /** Lifted to a whole payload: the kept records are exactly the entries of
      the feed's array that carry all four keys, each the decoding of the
      entry at its original position, in increasing order of position, and
      never more records than entries. */
  lemma DecodeExact(data: Value)
    requires data.Object? && BlocksKey in data.fields && data.fields[BlocksKey].Array?
    ensures |Decode(data)| <= |data.fields[BlocksKey].items|
    ensures RecordsAreEntries(Decode(data), data.fields[BlocksKey].items, |data.fields[BlocksKey].items|)
    ensures IndicesIncrease(Decode(data))
    ensures KeptIffComplete(Decode(data), data.fields[BlocksKey].items, |data.fields[BlocksKey].items|)
  {
    var blocks := data.fields[BlocksKey].items;
    assert Decode(data) == DecodePrefix(blocks, |blocks|);
    DecodedRecordsAreEntries(blocks, |blocks|);
    DecodedIndicesIncrease(blocks, |blocks|);
    DecodedIffComplete(blocks, |blocks|);
  }

  /** Dropping entries only moves later records forward. */
  lemma {:induction false} IndexAtLeastPosition(blocks: seq<Value>, n: nat)
    requires n <= |blocks|
    ensures IndexAtLeastPos(DecodePrefix(blocks, n))
    decreases n
  {
    if n > 0 {
      IndexAtLeastPosition(blocks, n - 1);
      var prev := DecodePrefix(blocks, n - 1);
      var r := DecodePrefix(blocks, n);
      var e := DecodeEntry(n - 1, blocks[n - 1]);
      if e.Some? {
        assert r == prev + [e.value];
        assert forall k :: 0 <= k < |prev| ==> r[k] == prev[k];
      }
    }
  }

  /** When no entry is dropped, every record's index is its output position. */
  lemma {:induction false} IndexIsPositionWhenNoneDropped(blocks: seq<Value>, n: nat)
    requires n <= |blocks|
    requires forall i :: 0 <= i < n ==> HasRequiredKeys(blocks[i])
    ensures |DecodePrefix(blocks, n)| == n
    ensures forall k :: 0 <= k < n ==> DecodePrefix(blocks, n)[k].index == k
    decreases n
  {
    if n > 0 {
      IndexIsPositionWhenNoneDropped(blocks, n - 1);
      var prev := DecodePrefix(blocks, n - 1);
      var info := DecodeEntry(n - 1, blocks[n - 1]).value;
      assert DecodePrefix(blocks, n) == prev + [info];
      assert forall k :: 0 <= k < n - 1 ==> DecodePrefix(blocks, n)[k] == prev[k];
    }
  }

  /** One-element fee ranges give equal minimum and maximum. */
  lemma SingletonFeeRange(i: nat, block: Value)
    requires HasRequiredKeys(block)
    requires block.fields["feeRange"].Array? && |block.fields["feeRange"].items| == 1
    ensures var info := DecodeEntry(i, block).value;
      info.feeRange[0] == info.feeRange[1]
  {
  }

  // ---------------------------------------------------------------------------
  // Window selection
  // ---------------------------------------------------------------------------

  /** Every monitored record comes from the first `window` decoded records
      and its index is at least its position among them. */
  lemma MonitoredIndices(data: Value, window: nat)
    ensures |Monitored(Decode(data), window)| <= window
    ensures IndexAtLeastPos(Monitored(Decode(data), window))
  {
    match BlockArray(data)
    case Some(blocks) =>
      var r := DecodePrefix(blocks, |blocks|);
      assert Decode(data) == r;
      IndexAtLeastPosition(blocks, |blocks|);
      var m := Monitored(r, window);
      assert forall k :: 0 <= k < |m| ==> m[k] == r[k];
    case None =>
  }

  /** Decoding more entries only appends records. */
  lemma {:induction false} DecodePrefixExtends(blocks: seq<Value>, m: nat, n: nat)
    requires m <= n <= |blocks|
    ensures DecodePrefix(blocks, m) <= DecodePrefix(blocks, n)
    decreases n
  {
    if m < n {
      DecodePrefixExtends(blocks, m, n - 1);
    }
  }

  /** When none of the first `window` entries is dropped, every monitored
      record's index is its position, so it lies below the window. */
  lemma MonitoredWithinWindowWhenPrefixComplete(data: Value, window: nat)
    requires data.Object? && BlocksKey in data.fields && data.fields[BlocksKey].Array?
    requires forall i :: 0 <= i < |data.fields[BlocksKey].items| && i < window ==>
      HasRequiredKeys(data.fields[BlocksKey].items[i])
    ensures forall k :: 0 <= k < |Monitored(Decode(data), window)| ==>
      Monitored(Decode(data), window)[k].index == k < window
  {
    var blocks := data.fields[BlocksKey].items;
    var w := Min(window, |blocks|);
    var all := DecodePrefix(blocks, |blocks|);
    assert Decode(data) == all;
    IndexIsPositionWhenNoneDropped(blocks, w);
    DecodePrefixExtends(blocks, w, |blocks|);
    var first := DecodePrefix(blocks, w);
    var m := Monitored(all, window);
    assert |m| == w by {
      assert |first| == w && first <= all;
    }
    assert m == first;
  }

  /** The window counts decoded records, not original positions: when an
      earlier entry is dropped, a record whose index is not below the window
      is still monitored, and can raise the alert. */
  lemma MonitoredCanPassWindow()
    ensures var complete := Object(map["medianFee" := Int(10), "feeRange" := Array([Int(5), Int(20)]),
                                        "totalFees" := Int(100000000), "nTx" := Int(50)]);
      var data := Object(map[BlocksKey := Array([Object(map["medianFee" := Int(10)]), complete])]);
      var m := Monitored(Decode(data), 1);
      |m| == 1 && m[0].index == 1 && Evaluate(Decode(data), 6.0, 1).alert
  {
    var complete := Object(map["medianFee" := Int(10), "feeRange" := Array([Int(5), Int(20)]),
                                "totalFees" := Int(100000000), "nTx" := Int(50)]);
    var partial := Object(map["medianFee" := Int(10)]);
    var blocks := [partial, complete];
    assert !HasRequiredKeys(partial);
    assert HasRequiredKeys(complete);
    assert DecodePrefix(blocks, 1) == [];
    var info := DecodeEntry(1, complete).value;
    assert DecodePrefix(blocks, 2) == [info];
    assert info.feeRange == [5.0, 20.0];
  }

  // ---------------------------------------------------------------------------
  // Qualifying records and the alert decision
  // ---------------------------------------------------------------------------

  /** Filtering distributes over concatenation; with the single-record case
      this says the report is the below-threshold records, in their order. */
  lemma {:induction false} QualifyingAppend(a: seq<MempoolBlockInfo>, b: seq<MempoolBlockInfo>, alertFee: real)
    requires AllWellFormed(a) && AllWellFormed(b)
    ensures AllWellFormed(a + b)
    ensures Qualifying(a + b, alertFee) == Qualifying(a, alertFee) + Qualifying(b, alertFee)
    decreases |a|
  {
    if a == [] {
      assert a + b == b;
    } else {
      assert (a + b)[0] == a[0];
      assert (a + b)[1..] == a[1..] + b;
      QualifyingAppend(a[1..], b, alertFee);
    }
  }

  /** With increasing indices, the first record's index is below every later record's. */
  lemma HeadIndexBelowTail(blocks: seq<MempoolBlockInfo>)
    requires blocks != [] && IndicesIncrease(blocks)
    ensures IndicesIncrease(blocks[1..])
    ensures forall b :: b in blocks[1..] ==> blocks[0].index < b.index
  {
    var tail := blocks[1..];
    assert forall j :: 0 <= j < |tail| ==> tail[j] == blocks[j + 1];
  }

  /** The report keeps the order of the records it is drawn from. */
  lemma {:induction false} QualifyingKeepsOrder(blocks: seq<MempoolBlockInfo>, alertFee: real)
    requires AllWellFormed(blocks)
    requires IndicesIncrease(blocks)
    ensures IndicesIncrease(Qualifying(blocks, alertFee))
    decreases |blocks|
  {
    if blocks != [] {
      HeadIndexBelowTail(blocks);
      QualifyingKeepsOrder(blocks[1..], alertFee);
      var rest := Qualifying(blocks[1..], alertFee);
      if BelowThreshold(blocks[0], alertFee) {
        assert Qualifying(blocks, alertFee) == [blocks[0]] + rest;
        assert forall k :: 0 <= k < |rest| ==> rest[k] in blocks[1..];
        ConsKeepsOrder(blocks[0], rest);
      } else {
        assert Qualifying(blocks, alertFee) == rest;
      }
    }
  }

  /** Putting a record with a smaller index in front keeps indices increasing. */
  lemma ConsKeepsOrder(b: MempoolBlockInfo, rest: seq<MempoolBlockInfo>)
    requires IndicesIncrease(rest)
    requires forall k :: 0 <= k < |rest| ==> b.index < rest[k].index
    ensures IndicesIncrease([b] + rest)
  {
    var r := [b] + rest;
    assert forall k :: 1 <= k < |r| ==> r[k] == rest[k - 1];
  }

  /** An alert's report lists its records in increasing index, the order of
      the feed's array. */
  lemma ReportKeepsOrder(msg: Incoming, alertFee: real, window: nat)
    ensures HandleMessage(msg, alertFee, window).Alert? ==>
      IndicesIncrease(HandleMessage(msg, alertFee, window).reported)
  {
    if msg.Text? {
      var data := msg.data;
      var all := Decode(data);
      assert IndicesIncrease(all) by {
        match BlockArray(data)
        case Some(blocks) => DecodedIndicesIncrease(blocks, |blocks|);
        case None =>
      }
      var m := Monitored(all, window);
      assert IndicesIncrease(m) by {
        assert forall k :: 0 <= k < |m| ==> m[k] == all[k];
      }
      QualifyingKeepsOrder(m, alertFee);
    }
  }

  /** A single record is reported iff it is below the alert fee. */
  lemma QualifyingSingle(b: MempoolBlockInfo, alertFee: real)
    requires WellFormed(b)
    ensures Qualifying([b], alertFee) == if BelowThreshold(b, alertFee) then [b] else []
  {
    assert [b][1..] == [];
  }

  /** Records past the window never influence the decision or the report. */
  lemma EvaluateIgnoresBeyondWindow(blocks: seq<MempoolBlockInfo>, other: seq<MempoolBlockInfo>, alertFee: real, window: nat)
    requires AllWellFormed(blocks) && AllWellFormed(other)
    requires window <= |blocks|
    ensures AllWellFormed(blocks[..window] + other)
    ensures Evaluate(blocks[..window] + other, alertFee, window) == Evaluate(blocks, alertFee, window)
  {
    var changed := blocks[..window] + other;
    assert changed[..window] == blocks[..window];
  }

  // ---------------------------------------------------------------------------
  // The receive loop
  // ---------------------------------------------------------------------------

  /** Events are handled independently: the signals of two runs add up. */
  lemma {:induction false} AlertCountAppend(a: seq<Incoming>, b: seq<Incoming>, alertFee: real, window: nat)
    ensures AlertCount(a + b, alertFee, window) == AlertCount(a, alertFee, window) + AlertCount(b, alertFee, window)
    decreases |b|
  {
    if b != [] {
      var last := b[|b| - 1];
      assert (a + b)[..|a + b| - 1] == a + b[..|b| - 1];
      AlertCountAppend(a, b[..|b| - 1], alertFee, window);
    } else {
      assert a + b == a;
    }
  }

  /** Unparseable text, close frames, transport errors and the other frame
      kinds never signal. */
  lemma {:induction false} NoSignalWithoutText(msgs: seq<Incoming>, alertFee: real, window: nat)
    requires forall i :: 0 <= i < |msgs| ==> !msgs[i].Text?
    ensures AlertCount(msgs, alertFee, window) == 0
    decreases |msgs|
  {
    if msgs != [] {
      NoSignalWithoutText(msgs[..|msgs| - 1], alertFee, window);
    }
  }

  /** A text event signals exactly once when its decoded update alerts, and
      not at all otherwise. */
  lemma SignalOncePerAlertingText(msgs: seq<Incoming>, data: Value, alertFee: real, window: nat)
    ensures AlertCount(msgs + [Text(data)], alertFee, window) ==
      AlertCount(msgs, alertFee, window) + (if Evaluate(Decode(data), alertFee, window).alert then 1 else 0)
  {
    assert (msgs + [Text(data)])[..|msgs|] == msgs;
  }

  // ---------------------------------------------------------------------------
  // Worked updates
  // ---------------------------------------------------------------------------

  function SampleBlock(): Value {
    Object(map["medianFee" := Int(10), "feeRange" := Array([Int(5), Int(20)]),
               "totalFees" := Int(100000000), "nTx" := Int(50)])
  }

  /** A minimum fee of 5 alerts against 6 and not against 4; the reported
      block carries a total of one coin. */
  lemma SampleUpdate()
    ensures var blocks := Decode(Object(map[BlocksKey := Array([SampleBlock()])]));
      blocks == [MempoolBlockInfo(0, 10.0, [5.0, 20.0], 1.0, 50)] &&
      Evaluate(blocks, 6.0, 1) == Evaluation(true, blocks) &&
      Evaluate(blocks, 4.0, 1) == Evaluation(false, [])
  {
    var blocks := [SampleBlock()];
    assert HasRequiredKeys(SampleBlock());
    var info := DecodeEntry(0, SampleBlock()).value;
    assert info == MempoolBlockInfo(0, 10.0, [5.0, 20.0], 1.0, 50);
    assert DecodePrefix(blocks, 1) == [info];
    assert [info][1..] == [];
    assert Monitored([info], 1) == [info];
    assert BelowThreshold(info, 6.0) && info in [info];
    QualifyingSingle(info, 6.0);
    QualifyingSingle(info, 4.0);
  }

  /** An entry without `nTx` is dropped, not defaulted; one whose `nTx` is null is kept with 0. */
  lemma MissingVersusNullCount()
    ensures Decode(Object(map[BlocksKey := Array([Object(SampleBlock().fields - {"nTx"})])])) == []
    ensures Decode(Object(map[BlocksKey := Array([Object(SampleBlock().fields["nTx" := Null])])])) ==
      [MempoolBlockInfo(0, 10.0, [5.0, 20.0], 1.0, 0)]
  {
    var missing := Object(SampleBlock().fields - {"nTx"});
    assert !HasRequiredKeys(missing);
    assert DecodePrefix([missing], 1) == [];
    var nulled := Object(SampleBlock().fields["nTx" := Null]);
    assert HasRequiredKeys(nulled);
    var info := DecodeEntry(0, nulled).value;
    assert info == MempoolBlockInfo(0, 10.0, [5.0, 20.0], 1.0, 0);
    assert DecodePrefix([nulled], 1) == [info];
  }
}
