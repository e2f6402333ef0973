// sensorPack of data_log/sensor_drv.h (and its verbatim copy in
// data_log/sensors.h): greedy splitting of a run of readings into sensor
// packets of at most LORA_MAX_PAYLOAD bytes, always with timestamp 0.

module SensorPack {
  import opened Text
  import Packets

  /** buildSensorPacket with timestamp 0 into a buffer of pktCap bytes, as a function of the readings ("" when it returns 0). */
  function Builder(nodeId: string, pktCap: nat): seq<Packets.Reading> -> string
    requires 4 <= pktCap && IsU32(pktCap)
  {
    rs => Packets.SensorPacket(pktCap, nodeId, 0, rs)
  }

  /** Readings [offset, end) make a packet that was built and is at most LORA_MAX_PAYLOAD bytes. */
  predicate FitsAt(build: seq<Packets.Reading> -> string, readings: seq<Packets.Reading>, offset: nat, end: nat)
    requires offset <= end <= |readings|
  {
    var p := build(readings[offset..end]);
    |p| > 0 && |p| <= Packets.LORA_MAX_PAYLOAD
  }

  /** The end the decrementing search settles on: the largest end <= top that fits, or offset when none does. */
  function LargestFit(build: seq<Packets.Reading> -> string, readings: seq<Packets.Reading>, offset: nat, top: nat): (e: nat)
    requires offset <= top <= |readings|
    ensures offset <= e <= top
    decreases top
  {
    if top == offset then offset
    else if FitsAt(build, readings, offset, top) then top
    else LargestFit(build, readings, offset, top - 1)
  }

  /** The three results of sensorPack: the length returned, the packet, and *nextOffset. */
  datatype Packed = Packed(len: nat, pkt: string, next: nat)

  /** sensorPack, as a function of its inputs. */
  function PackSpec(build: seq<Packets.Reading> -> string, readings: seq<Packets.Reading>, offset: nat): (r: Packed)
    ensures offset < |readings| ==> offset < r.next <= |readings|
    ensures offset >= |readings| ==> r.next == |readings|
  {
    var count := |readings|;
    if offset >= count then Packed(0, "", count)
    else
      var e := LargestFit(build, readings, offset, count);
      if e == offset then Packed(0, "", offset + 1)
      else
        var p := build(readings[offset..e]);
        Packed(|p|, p, e)
  }

  /** build produces the packets buildSensorPacket makes with timestamp 0 into pktCap bytes. */
  ghost predicate Agrees(build: seq<Packets.Reading> -> string, nodeId: string, pktCap: nat)
    requires 4 <= pktCap && IsU32(pktCap)
  {
    forall rs {:trigger Packets.SensorPacket(pktCap, nodeId, 0, rs)} :: build(rs) == Packets.SensorPacket(pktCap, nodeId, 0, rs)
  }

  /** buildSensorPacket with timestamp 0 of the readings rs. */
  method BuildAt(ghost build: seq<Packets.Reading> -> string, nodeId: string, pktCap: nat, rs: seq<Packets.Reading>)
    returns (len: nat, pkt: string)
    requires 4 <= pktCap && IsU32(pktCap) && |nodeId| < Packets.NODE_ID_MAX_LEN
    requires Agrees(build, nodeId, pktCap)
    ensures pkt == build(rs) && len == |pkt|
  {
    len, pkt := Packets.BuildSensorPacket(pktCap, nodeId, 0, rs);
  }

  /**
   * The loop of sensorPack: tries end = count, count - 1, ... down to
   * offset + 1 and stops at the first packet that is built and fits
   * LORA_MAX_PAYLOAD; end == offset when none does.
   */
  method Search(ghost build: seq<Packets.Reading> -> string, nodeId: string, readings: seq<Packets.Reading>, offset: nat, pktCap: nat)
    returns (end: nat, len: nat, pkt: string)
    requires 4 <= pktCap && IsU32(pktCap) && |nodeId| < Packets.NODE_ID_MAX_LEN
    requires Agrees(build, nodeId, pktCap) && offset < |readings|
    ensures end == LargestFit(build, readings, offset, |readings|)
    ensures end > offset ==> pkt == build(readings[offset..end]) && len == |pkt|
  {
    end := |readings|;
    var found := false;
    len, pkt := 0, "";
    while end > offset && !found
      invariant offset <= end <= |readings|
      invariant LargestFit(build, readings, offset, end) == LargestFit(build, readings, offset, |readings|)
      invariant found ==> end > offset && FitsAt(build, readings, offset, end)
      invariant found ==> pkt == build(readings[offset..end]) && len == |pkt|
      decreases end, !found
    {
      len, pkt := BuildAt(build, nodeId, pktCap, readings[offset..end]);
      if len > 0 && len <= Packets.LORA_MAX_PAYLOAD {
        found := true;
      } else {
        LargestFitStep(build, readings, offset, end);
        end := end - 1;
      }
    }
  }

  /** sensorPack: the packet of the largest fitting run from offset, or 0 and a skip of one reading. */
  method Pack(nodeId: string, readings: seq<Packets.Reading>, offset: nat, pktCap: nat)
    returns (len: nat, pkt: string, nextOffset: nat)
    requires 4 <= pktCap && IsU32(pktCap) && |nodeId| < Packets.NODE_ID_MAX_LEN
    ensures Packed(len, pkt, nextOffset) == PackSpec(Builder(nodeId, pktCap), readings, offset)
  {
    if offset >= |readings| {
      return 0, "", |readings|;
    }
    ghost var build := Builder(nodeId, pktCap);
    assert Agrees(build, nodeId, pktCap);
    var end;
    end, len, pkt := Search(build, nodeId, readings, offset, pktCap);
    if end == offset {
      return 0, "", offset + 1;
    }
    nextOffset := end;
  }

  /** An end that does not fit hands the search on to the next one down. */
  lemma LargestFitStep(build: seq<Packets.Reading> -> string, readings: seq<Packets.Reading>, offset: nat, top: nat)
    requires offset < top <= |readings| && !FitsAt(build, readings, offset, top)
    ensures LargestFit(build, readings, offset, top) == LargestFit(build, readings, offset, top - 1)
  {
  }

  /** The largest fitting end really is the largest: every end above it up to top fails. */
  lemma {:induction false} LargestFitIsLargest(build: seq<Packets.Reading> -> string, readings: seq<Packets.Reading>, offset: nat, top: nat)
    requires offset <= top <= |readings|
    ensures var e := LargestFit(build, readings, offset, top);
      (e > offset ==> FitsAt(build, readings, offset, e)) &&
      forall end :: e < end <= top ==> !FitsAt(build, readings, offset, end)
    decreases top
  {
    if top > offset && !FitsAt(build, readings, offset, top) {
      LargestFitIsLargest(build, readings, offset, top - 1);
    }
  }

  /** An offset at or past the end: 0, and nextOffset = count. */
  lemma PackPastEnd(build: seq<Packets.Reading> -> string, readings: seq<Packets.Reading>, offset: nat)
    requires offset >= |readings|
    ensures PackSpec(build, readings, offset) == Packed(0, "", |readings|)
  {
  }

  /**
   * A packet that is made is 1..LORA_MAX_PAYLOAD bytes long, is the packet
   * of exactly readings [offset, next) with timestamp 0, and is greedy: no
   * larger end up to count would have fitted.
   */
  lemma PackSucceeds(build: seq<Packets.Reading> -> string, readings: seq<Packets.Reading>, offset: nat)
    ensures var r := PackSpec(build, readings, offset);
      r.len > 0 ==>
        1 <= r.len <= Packets.LORA_MAX_PAYLOAD && r.len == |r.pkt| &&
        offset < r.next <= |readings| &&
        r.pkt == build(readings[offset..r.next]) &&
        forall end :: r.next < end <= |readings| ==> !FitsAt(build, readings, offset, end)
  {
    if offset < |readings| {
      LargestFitIsLargest(build, readings, offset, |readings|);
    }
  }

  /**
   * When no end fits, not even the single reading at offset, sensorPack
   * returns 0 and skips exactly that reading.
   */
  lemma PackSkipsOversized(build: seq<Packets.Reading> -> string, readings: seq<Packets.Reading>, offset: nat)
    requires offset < |readings|
    ensures var r := PackSpec(build, readings, offset);
      r.len == 0 <==> forall end :: offset < end <= |readings| ==> !FitsAt(build, readings, offset, end)
    ensures var r := PackSpec(build, readings, offset);
      r.len == 0 ==> r.next == offset + 1 && r.pkt == ""
  {
    var r := PackSpec(build, readings, offset);
    LargestFitIsLargest(build, readings, offset, |readings|);
    if r.len == 0 {
      var e := LargestFit(build, readings, offset, |readings|);
      assert e == offset;
    }
  }

  /** One call of a caller's loop: where it started and where it moved offset to. */
  datatype Batch = Batch(start: nat, next: nat, len: nat)

  /** The calls of the loop `offset := nextOffset` from offset until it reaches count. */
  function Batches(build: seq<Packets.Reading> -> string, readings: seq<Packets.Reading>, offset: nat): seq<Batch>
    decreases |readings| - offset
  {
    if offset >= |readings| then []
    else
      var r := PackSpec(build, readings, offset);
      [Batch(offset, r.next, r.len)] + Batches(build, readings, r.next)
  }

  /**
   * The loop terminates and its calls tile [offset, count): the first
   * starts at offset, each starts where the previous one stopped, each
   * covers at least one reading, and the last stops at count.
   */
  lemma {:induction false} BatchesTile(build: seq<Packets.Reading> -> string, readings: seq<Packets.Reading>, offset: nat)
    requires offset < |readings|
    ensures var bs := Batches(build, readings, offset);
      |bs| >= 1 && bs[0].start == offset && bs[|bs| - 1].next == |readings| &&
      (forall k :: 0 <= k < |bs| ==> bs[k].start < bs[k].next) &&
      (forall k :: 0 < k < |bs| ==> bs[k].start == bs[k - 1].next)
    decreases |readings| - offset
  {
    var r := PackSpec(build, readings, offset);
    if r.next < |readings| {
      BatchesTile(build, readings, r.next);
    }
  }

  /** Batches that tile a range cover each index of it in exactly one batch. */
  lemma {:induction false} TiledOnce(bs: seq<Batch>, j: nat)
    requires |bs| >= 1 && bs[0].start <= j < bs[|bs| - 1].next
    requires forall k :: 0 <= k < |bs| ==> bs[k].start < bs[k].next
    requires forall k :: 0 < k < |bs| ==> bs[k].start == bs[k - 1].next
    ensures exists k :: 0 <= k < |bs| && bs[k].start <= j < bs[k].next
    ensures forall k, l | 0 <= k < |bs| && 0 <= l < |bs| && bs[k].start <= j < bs[k].next && bs[l].start <= j < bs[l].next :: k == l
  {
    if |bs| > 1 {
      var rest := bs[1..];
      if j < bs[0].next {
        assert bs[0].start <= j < bs[0].next;
      } else {
        TiledOnce(rest, j);
        var k :| 0 <= k < |rest| && rest[k].start <= j < rest[k].next;
        assert bs[k + 1].start <= j < bs[k + 1].next;
      }
      Ascending(bs);
    }
  }

  /** In a tiling, an earlier batch ends no later than a later one starts. */
  lemma Ascending(bs: seq<Batch>)
    requires forall k :: 0 <= k < |bs| ==> bs[k].start < bs[k].next
    requires forall k :: 0 < k < |bs| ==> bs[k].start == bs[k - 1].next
    ensures forall k, l :: 0 <= k < l < |bs| ==> bs[k].next <= bs[l].start
  {
    forall k, l | 0 <= k < l < |bs|
      ensures bs[k].next <= bs[l].start
    {
      AscendingFrom(bs, k, l);
    }
  }

  lemma {:induction false} AscendingFrom(bs: seq<Batch>, k: nat, l: nat)
    requires forall i :: 0 <= i < |bs| ==> bs[i].start < bs[i].next
    requires forall i :: 0 < i < |bs| ==> bs[i].start == bs[i - 1].next
    requires k < l < |bs|
    ensures bs[k].next <= bs[l].start
    decreases l - k
  {
    if k + 1 < l {
      AscendingFrom(bs, k, l - 1);
    }
  }

  /** From offset 0, every reading is sent or skipped by exactly one call. */
  lemma CoversEveryReading(build: seq<Packets.Reading> -> string, readings: seq<Packets.Reading>, j: nat)
    requires j < |readings|
    ensures var bs := Batches(build, readings, 0);
      (exists k :: 0 <= k < |bs| && bs[k].start <= j < bs[k].next) &&
      forall k, l | 0 <= k < |bs| && 0 <= l < |bs| && bs[k].start <= j < bs[k].next && bs[l].start <= j < bs[l].next :: k == l
  {
    BatchesTile(build, readings, 0);
    TiledOnce(Batches(build, readings, 0), j);
  }
}
