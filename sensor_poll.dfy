// The sensor driver registry of data_log/sensor_drv.cpp: up to four driver
// slots, each with its own sample interval (read through a pointer to a
// runtime uint16 global), liveness flag and time of last transmission, and
// the poll that reads every due, live driver into one readings buffer.
//
// A driver's init(), is_alive() and read() are calls into hardware code;
// what they answer during one call of sensorInitAll or sensorPoll is an
// input of the model (a bool per init, a Probe per slot and poll).

module SensorPoll {
  import opened Text
  import opened Memory
  import Packets

  const SENSOR_MAX_DRIVERS: nat := 4
  /** The interval, in seconds, of a driver without an interval pointer. */
  const DEFAULT_INTERVAL_SEC: nat := 5

  /** A registered driver: its name and the address of its uint16 interval in seconds (None: NULL). */
  datatype Driver = Driver(name: string, intervalAddr: Option<nat>)

  /** One entry of slots[]: the driver, last_tx_time (millis) and alive. */
  datatype Slot = Slot(drv: Driver, lastTx: nat, alive: bool)

  /**
   * What a driver answers during one poll: whether init() returns non-zero,
   * whether is_alive() does, and the readings it takes. Like the BME280 and
   * battery drivers, read() stores its readings and returns their number
   * when they fit in the room it is given, and returns 0 otherwise.
   */
  datatype Probe = Probe(initOk: bool, isAlive: bool, sample: seq<Packets.Reading>)

  predicate IntervalFits(d: Driver, size: nat)
  {
    d.intervalAddr.Some? ==> d.intervalAddr.value + 2 <= size
  }

  /** The slot's interval in milliseconds: 5 s without a pointer, 0 s taken as 1 s. */
  function IntervalMs(d: Driver, mem: seq<byte>): (ms: nat)
    requires IntervalFits(d, |mem|)
    ensures 1000 <= ms <= 65535 * 1000 && ms % 1000 == 0
    ensures d.intervalAddr.None? ==> ms == DEFAULT_INTERVAL_SEC * 1000
  {
    var sec := if d.intervalAddr.None? then DEFAULT_INTERVAL_SEC
               else Unsigned(Read(mem, d.intervalAddr.value, 2));
    assert Pow256(2) == 65536;
    (if sec == 0 then 1 else sec) * 1000
  }

  /** The interval the pointer designates: the stored seconds, 0 read as 1. */
  lemma IntervalFromPointer(d: Driver, mem: seq<byte>)
    requires d.intervalAddr.Some? && IntervalFits(d, |mem|)
    ensures var a := d.intervalAddr.value;
      var sec := mem[a] as nat + 256 * mem[a + 1] as nat;
      IntervalMs(d, mem) == (if sec == 0 then 1000 else sec * 1000)
  {
    var a := d.intervalAddr.value;
    var bs := Read(mem, a, 2);
    assert Unsigned(bs[1..][1..]) == 0;
    assert Unsigned(bs[1..]) == mem[a + 1] as nat;
    assert Unsigned(bs) == mem[a] as nat + 256 * mem[a + 1] as nat;
  }

  /** A slot is due when it never sent, or when unsigned (now - last_tx_time) reaches the interval. */
  predicate Due(s: Slot, now: nat, ms: nat)
  {
    s.lastTx == 0 || U32(now - s.lastTx) >= ms
  }

  /** The elapsed time of a due check, also across the wrap of the 32-bit millisecond clock. */
  lemma Elapsed(now: nat, last: nat)
    requires IsU32(now) && IsU32(last)
    ensures now >= last ==> U32(now - last) == now - last
    ensures now < last ==> U32(now - last) == now + 0x1_0000_0000 - last
  {
    if now < last {
      ModUnique(now - last, 0x1_0000_0000, -1, now + 0x1_0000_0000 - last);
    }
  }

  /** The slot after one pass of the poll loop, and the readings it appended. */
  datatype Step = Step(slot: Slot, got: seq<Packets.Reading>)

  /**
   * The poll loop's body for a due slot with room readings of space left:
   * a dead slot, or one whose is_alive() fails, is re-initialised and
   * skipped if that fails; otherwise read() is called and a successful read
   * stamps last_tx_time with now.
   */
  function Service(s: Slot, p: Probe, now: nat, room: int): (r: Step)
    ensures r.slot.drv == s.drv
    ensures r.slot.alive == ((s.alive && p.isAlive) || p.initOk)
    ensures r.got != [] <==> r.slot.alive && 0 < |p.sample| <= room
    ensures r.got != [] ==> r.got == p.sample && r.slot.lastTx == now
    ensures r.got == [] ==> r.slot.lastTx == s.lastTx
  {
    var alive := if !s.alive || !p.isAlive then p.initOk else true;
    if !alive then Step(s.(alive := false), [])
    else if 0 < |p.sample| <= room then Step(Slot(s.drv, now, true), p.sample)
    else Step(s.(alive := true), [])
  }

  /** One pass of the poll loop: a slot that is not due is left as it is. */
  function SlotStep(s: Slot, p: Probe, mem: seq<byte>, now: nat, room: int): (r: Step)
    requires IntervalFits(s.drv, |mem|)
    ensures !Due(s, now, IntervalMs(s.drv, mem)) ==> r == Step(s, [])
    ensures Due(s, now, IntervalMs(s.drv, mem)) ==> r == Service(s, p, now, room)
  {
    if Due(s, now, IntervalMs(s.drv, mem)) then Service(s, p, now, room) else Step(s, [])
  }

  predicate IntervalsFit(ss: seq<Slot>, size: nat)
  {
    forall k :: 0 <= k < |ss| ==> IntervalFits(ss[k].drv, size)
  }

  /** The slots and the readings after the poll loop. */
  datatype Polled = Polled(slots: seq<Slot>, out: seq<Packets.Reading>)

  /**
   * The poll loop from slot i on, with the readings out gathered so far:
   * it runs while slots remain and fewer than max readings are gathered,
   * and each read is offered the room max - total.
   */
  function PollFrom(ss: seq<Slot>, probes: seq<Probe>, mem: seq<byte>, now: nat, max: int, i: nat,
                    out: seq<Packets.Reading>): (r: Polled)
    requires |probes| == |ss| && i <= |ss| && IntervalsFit(ss, |mem|)
    ensures |r.slots| == |ss|
    decreases |ss| - i
  {
    if i == |ss| || |out| >= max then Polled(ss, out)
    else
      var st := SlotStep(ss[i], probes[i], mem, now, max - |out|);
      PollFrom(ss[i := st.slot], probes, mem, now, max, i + 1, out + st.got)
  }

  /** One pass of the loop hands the rest of the poll on to the next slot. */
  lemma PollStep(ss: seq<Slot>, probes: seq<Probe>, mem: seq<byte>, now: nat, max: int, i: nat,
                 out: seq<Packets.Reading>)
    requires |probes| == |ss| && i < |ss| && IntervalsFit(ss, |mem|) && |out| < max
    ensures var st := SlotStep(ss[i], probes[i], mem, now, max - |out|);
      IntervalsFit(ss[i := st.slot], |mem|) &&
      PollFrom(ss, probes, mem, now, max, i, out) ==
      PollFrom(ss[i := st.slot], probes, mem, now, max, i + 1, out + st.got)
  {
    var st := SlotStep(ss[i], probes[i], mem, now, max - |out|);
    var ss' := ss[i := st.slot];
    assert forall k :: 0 <= k < |ss'| ==> ss'[k].drv == ss[k].drv;
  }

  /** The poll ends once every slot has been visited or max readings are in. */
  lemma PollDone(ss: seq<Slot>, probes: seq<Probe>, mem: seq<byte>, now: nat, max: int, i: nat,
                 out: seq<Packets.Reading>)
    requires |probes| == |ss| && i <= |ss| && IntervalsFit(ss, |mem|) && (i == |ss| || |out| >= max)
    ensures PollFrom(ss, probes, mem, now, max, i, out) == Polled(ss, out)
  {
  }

  /** sensorPoll, as a function of the registry, the driver answers and the clock. */
  function PollSpec(ss: seq<Slot>, probes: seq<Probe>, mem: seq<byte>, now: nat, max: int): (r: Polled)
    requires |probes| == |ss| && IntervalsFit(ss, |mem|)
  {
    PollFrom(ss, probes, mem, now, max, 0, [])
  }

  /**
   * The poll only appends: what was gathered stays in front, and whatever
   * it adds keeps the total within max.
   */
  lemma {:induction false} PollAppends(ss: seq<Slot>, probes: seq<Probe>, mem: seq<byte>, now: nat, max: int, i: nat,
                                       out: seq<Packets.Reading>)
    requires |probes| == |ss| && i <= |ss| && IntervalsFit(ss, |mem|)
    ensures var r := PollFrom(ss, probes, mem, now, max, i, out);
      |out| <= |r.out| && r.out[..|out|] == out && (|r.out| > |out| ==> |r.out| <= max)
    decreases |ss| - i
  {
    if i < |ss| && |out| < max {
      var st := SlotStep(ss[i], probes[i], mem, now, max - |out|);
      var ss' := ss[i := st.slot];
      assert IntervalsFit(ss', |mem|) by {
        assert forall k :: 0 <= k < |ss'| ==> ss'[k].drv == ss[k].drv;
      }
      PollAppends(ss', probes, mem, now, max, i + 1, out + st.got);
      var r := PollFrom(ss', probes, mem, now, max, i + 1, out + st.got);
      assert r.out[..|out|] == (r.out[..|out + st.got|])[..|out|];
    }
  }

  /** sensorPoll returns at most maxReadings readings (none when maxReadings <= 0). */
  lemma PollBounded(ss: seq<Slot>, probes: seq<Probe>, mem: seq<byte>, now: nat, max: int)
    requires |probes| == |ss| && IntervalsFit(ss, |mem|)
    ensures var r := PollSpec(ss, probes, mem, now, max);
      |r.out| <= max || r.out == []
  {
    PollAppends(ss, probes, mem, now, max, 0, []);
  }

  /**
   * What a pass of the loop can have done to slot s: nothing (not due, or
   * not reached); a failed re-init (alive cleared, nothing else changed);
   * a failed or refused read of a live slot; or a successful read, which
   * stamps last_tx_time with now.
   */
  predicate Outcome(s: Slot, p: Probe, now: nat, t: Slot)
  {
    t == s ||
    ((!s.alive || !p.isAlive) && !p.initOk && t == s.(alive := false)) ||
    (((s.alive && p.isAlive) || p.initOk) && t == s.(alive := true)) ||
    (((s.alive && p.isAlive) || p.initOk) && |p.sample| > 0 && t == Slot(s.drv, now, true))
  }

  /**
   * Every slot ends in one of the outcomes of its own driver's answers;
   * slots before i and slots that are not due are untouched.
   */
  lemma {:induction false} PollSlots(ss: seq<Slot>, probes: seq<Probe>, mem: seq<byte>, now: nat, max: int, i: nat,
                                     out: seq<Packets.Reading>, k: nat)
    requires |probes| == |ss| && i <= |ss| && IntervalsFit(ss, |mem|) && k < |ss|
    ensures var r := PollFrom(ss, probes, mem, now, max, i, out);
      Outcome(ss[k], probes[k], now, r.slots[k]) &&
      (k < i ==> r.slots[k] == ss[k]) &&
      (!Due(ss[k], now, IntervalMs(ss[k].drv, mem)) ==> r.slots[k] == ss[k])
    decreases |ss| - i
  {
    if i < |ss| && |out| < max {
      var st := SlotStep(ss[i], probes[i], mem, now, max - |out|);
      var ss' := ss[i := st.slot];
      assert IntervalsFit(ss', |mem|) by {
        assert forall j :: 0 <= j < |ss'| ==> ss'[j].drv == ss[j].drv;
      }
      PollSlots(ss', probes, mem, now, max, i + 1, out + st.got, k);
      if k == i {
        assert Outcome(ss'[k], probes[k], now, ss'[k]);
      }
    }
  }

  /** A slot's stored state is its due time base: last_tx_time values are 32-bit millis. */
  predicate Stamped(ss: seq<Slot>)
  {
    forall k :: 0 <= k < |ss| ==> IsU32(ss[k].lastTx)
  }

  /** sensorRegister: appends a fresh slot (never sent, not alive) unless all four are taken. */
  function Registered(ss: seq<Slot>, d: Driver): (r: seq<Slot>)
  {
    if |ss| >= SENSOR_MAX_DRIVERS then ss else ss + [Slot(d, 0, false)]
  }

  /** Registering keeps every earlier slot, and adds at most one. */
  lemma RegisterKeeps(ss: seq<Slot>, d: Driver)
    ensures var r := Registered(ss, d);
      |ss| <= |r| <= |ss| + 1 && r[..|ss|] == ss &&
      (|r| == |ss| + 1 <==> |ss| < SENSOR_MAX_DRIVERS)
  {
  }

  /** sensorInitAll: each slot's alive flag becomes its init() result. */
  function Initialised(ss: seq<Slot>, inits: seq<bool>): (r: seq<Slot>)
    requires |inits| == |ss|
    ensures |r| == |ss|
    decreases |ss|
  {
    if |ss| == 0 then []
    else Initialised(ss[..|ss| - 1], inits[..|inits| - 1]) + [ss[|ss| - 1].(alive := inits[|inits| - 1])]
  }

  /** After sensorInitAll, slot k keeps its driver and time and is alive exactly when its init succeeded. */
  lemma {:induction false} InitialisedAt(ss: seq<Slot>, inits: seq<bool>, k: nat)
    requires |inits| == |ss| && k < |ss|
    ensures var r := Initialised(ss, inits);
      r[k].drv == ss[k].drv && r[k].lastTx == ss[k].lastTx && r[k].alive == inits[k]
    decreases |ss|
  {
    if k < |ss| - 1 {
      InitialisedAt(ss[..|ss| - 1], inits[..|inits| - 1], k);
    }
  }

  /** The out[] buffer written by a driver's read(): rs stored at index at. */
  method StoreReadings(out: array<Packets.Reading>, at: nat, rs: seq<Packets.Reading>)
    requires at + |rs| <= out.Length
    modifies out
    ensures out[..] == old(out[..])[..at] + rs + old(out[..])[at + |rs|..]
  {
    var k: nat := 0;
    while k < |rs|
      invariant k <= |rs|
      invariant forall p :: 0 <= p < out.Length ==> out[p] == if at <= p < at + k then rs[p - at] else old(out[p])
    {
      out[at + k] := rs[k];
      k := k + 1;
    }
  }

  /** The registry: slots[] with slotCount entries in use. */
  class Registry {
    const slots: array<Slot>
    var count: nat

    ghost predicate Valid()
      reads this, slots
    {
      slots.Length == SENSOR_MAX_DRIVERS && count <= SENSOR_MAX_DRIVERS && Stamped(slots[..count])
    }

    /** The slots in use, in registration order. */
    function Contents(): seq<Slot>
      reads this, slots
      requires count <= slots.Length
    {
      slots[..count]
    }

    /** The registry at start-up: no slots in use. */
    constructor ()
      ensures Valid() && Contents() == []
    {
      slots := new Slot[SENSOR_MAX_DRIVERS](_ => Slot(Driver("", None), 0, false));
      count := 0;
    }

    /** sensorRegister. */
    method Register(d: Driver)
      requires Valid()
      modifies this, slots
      ensures Valid() && Contents() == Registered(old(Contents()), d)
    {
      if count >= SENSOR_MAX_DRIVERS {
        return;
      }
      slots[count] := Slot(d, 0, false);
      count := count + 1;
      assert Contents() == old(Contents()) + [Slot(d, 0, false)];
    }

    /** sensorInitAll, with inits[i] the answer of slot i's init(). */
    method InitAll(inits: seq<bool>)
      requires Valid() && |inits| == count
      modifies slots
      ensures Valid() && Contents() == Initialised(old(Contents()), inits)
    {
      ghost var start := Contents();
      var i: nat := 0;
      while i < count
        invariant i <= count
        invariant forall k :: 0 <= k < i ==> slots[k] == start[k].(alive := inits[k])
        invariant forall k :: i <= k < count ==> slots[k] == start[k]
      {
        slots[i] := slots[i].(alive := inits[i]);
        i := i + 1;
      }
      forall k | 0 <= k < count
        ensures slots[k] == Initialised(start, inits)[k]
      {
        InitialisedAt(start, inits, k);
      }
      assert forall k :: 0 <= k < count ==> slots[k].lastTx == start[k].lastTx;
    }

    /**
     * One pass of sensorPoll's loop for slot i, with total readings already
     * in out[] and p the driver's answers; returns the new total.
     */
    method Visit(i: nat, now: nat, mem: array<byte>, out: array<Packets.Reading>, total: nat, maxReadings: int, p: Probe)
      returns (newTotal: nat)
      requires Valid() && i < count && IsU32(now)
      requires IntervalFits(slots[i].drv, mem.Length) && total < maxReadings <= out.Length
      modifies slots, out
      ensures Valid()
      ensures var st := SlotStep(old(slots[i]), p, mem[..], now, maxReadings - total);
        slots[..] == old(slots[..])[i := st.slot] && Contents() == old(Contents())[i := st.slot] &&
        newTotal == total + |st.got| &&
        out[..newTotal] == old(out[..total]) + st.got && out[newTotal..] == old(out[newTotal..])
    {
      var s := slots[i];
      ghost var st := SlotStep(s, p, mem[..], now, maxReadings - total);
      newTotal := total;
      var ms := IntervalMs(s.drv, mem[..]);
      if s.lastTx == 0 || U32(now - s.lastTx) >= ms {
        var alive := s.alive;
        if !alive || !p.isAlive {
          alive := p.initOk;
        }
        if !alive {
          slots[i] := s.(alive := false);
        } else {
          var sample := p.sample;
          if 0 < |sample| <= maxReadings - total {
            StoreReadings(out, total, sample);
            newTotal := total + |sample|;
            slots[i] := Slot(s.drv, now, true);
          } else {
            slots[i] := s.(alive := true);
          }
        }
      }
      assert slots[i] == st.slot;
    }

    /**
     * sensorPoll: services every due slot in order while fewer than
     * maxReadings readings are gathered, appending them to out[] from
     * index 0; returns their number.
     */
    method Poll(now: nat, mem: array<byte>, out: array<Packets.Reading>, maxReadings: int, probes: seq<Probe>)
      returns (total: nat)
      requires Valid() && IsU32(now) && |probes| == count && maxReadings <= out.Length
      requires IntervalsFit(Contents(), mem.Length)
      modifies slots, out
      ensures Valid()
      ensures var r := PollSpec(old(Contents()), probes, mem[..], now, maxReadings);
        Contents() == r.slots && total == |r.out| && total <= out.Length && out[..total] == r.out
      ensures forall k :: total <= k < out.Length ==> out[k] == old(out[k])
    {
      ghost var start := Contents();
      ghost var goal := PollSpec(start, probes, mem[..], now, maxReadings);
      ghost var cur, acc := start, [];
      total := 0;
      var i: nat := 0;
      while i < count && total < maxReadings
        invariant Polling(now, mem, out, maxReadings, probes, goal, i, total, cur, acc)
        invariant forall k :: total <= k < out.Length ==> out[k] == old(out[k])
      {
        total, cur, acc := PollTurn(i, now, mem, out, total, maxReadings, probes, goal, cur, acc);
        i := i + 1;
      }
      PollDone(cur, probes, mem[..], now, maxReadings, i, acc);
    }

    /**
     * What holds between the turns of sensorPoll's loop: slots [0, i) have
     * been serviced into cur, out[..total] holds the readings gathered, and
     * the rest of the poll from there ends in goal, the whole poll's result.
     */
    ghost predicate Polling(now: nat, mem: array<byte>, out: array<Packets.Reading>, maxReadings: int, probes: seq<Probe>,
                            goal: Polled, i: nat, total: nat, cur: seq<Slot>, acc: seq<Packets.Reading>)
      reads this, slots, mem, out
    {
      Valid() && i <= count && IsU32(now) && |probes| == count && maxReadings <= out.Length && total <= out.Length &&
      Contents() == cur && out[..total] == acc && IntervalsFit(cur, mem.Length) &&
      PollFrom(cur, probes, mem[..], now, maxReadings, i, acc) == goal &&
      (total == 0 || total <= maxReadings)
    }

    /** One turn of sensorPoll's loop, slot i serviced, with the loop's bookkeeping carried along. */
    method PollTurn(i: nat, now: nat, mem: array<byte>, out: array<Packets.Reading>, total: nat, maxReadings: int,
                    probes: seq<Probe>, ghost goal: Polled, ghost cur: seq<Slot>, ghost acc: seq<Packets.Reading>)
      returns (newTotal: nat, ghost cur': seq<Slot>, ghost acc': seq<Packets.Reading>)
      requires Polling(now, mem, out, maxReadings, probes, goal, i, total, cur, acc) && i < count && total < maxReadings
      modifies slots, out
      ensures Polling(now, mem, out, maxReadings, probes, goal, i + 1, newTotal, cur', acc') && total <= newTotal
      ensures forall k :: newTotal <= k < out.Length ==> out[k] == old(out[k])
    {
      ghost var st := SlotStep(cur[i], probes[i], mem[..], now, maxReadings - total);
      PollStep(cur, probes, mem[..], now, maxReadings, i, acc);
      newTotal := Visit(i, now, mem, out, total, maxReadings, probes[i]);
      cur', acc' := cur[i := st.slot], acc + st.got;
    }
  }
}
