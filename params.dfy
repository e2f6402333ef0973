// The parameter registry of shared/params.h: a table of typed parameters
// that live at addresses of the node's memory, read and written through
// memcpy at each type's width, and rendered as sorted-key JSON for the
// getparam, setparam, getparams and getcmds commands.
//
// A pointer of the table is an address into one byte memory, so a staged
// parameter's configuration field, its runtime copy and the NodeConfig
// record all live in the same memory, as they do on the node. A post-set
// callback is represented by a number.

module Params {
  import opened Text
  import opened Memory
  import Config

  datatype ParamType = Int8 | UInt8 | Int16 | UInt16 | UInt32 | Str

  /** sizeof the C type a parameter of this type is stored as (strings are not copied). */
  function Width(t: ParamType): nat
  {
    match t
    case Int8 => 1
    case UInt8 => 1
    case Int16 => 2
    case UInt16 => 2
    case UInt32 => 4
    case Str => 0
  }

  predicate IsSigned(t: ParamType)
  {
    t == Int8 || t == Int16
  }

  /** Marks a parameter that is not persisted in the NodeConfig record. */
  const CFG_OFFSET_NONE: nat := 0xFF

  /** The size of paramsList's buffer for one "key":value item. */
  const ITEM_BUF_SIZE: int := 80

  const UNKNOWN_PARAM: string := "{\"e\":\"unknown param\"}"

  /**
   * One row of the table: name, type, the address setparam writes, the
   * runtime copy of a staged parameter, the int16 range, whether setparam
   * may write it, the post-set callback and the offset in NodeConfig.
   */
  datatype ParamDef = ParamDef(
    name: string,
    ptype: ParamType,
    ptr: nat,
    runtimePtr: Option<nat>,
    minVal: int,
    maxVal: int,
    writable: bool,
    onSet: Option<nat>,
    cfgOffset: nat)

  predicate IsInt16(x: int)
  {
    -0x8000 <= x < 0x8000
  }

  /** The storage a row names lies inside a memory of the given size. */
  predicate Readable(p: ParamDef, size: nat)
  {
    if p.ptype == Str then p.ptr <= size else p.ptr + Width(p.ptype) <= size
  }

  /** A row as the C declaration allows it: pointers into memory, int16 bounds, a uint8 offset of a field. */
  predicate ValidDef(p: ParamDef, size: nat)
  {
    Readable(p, size) &&
    (p.runtimePtr.Some? ==> p.runtimePtr.value + Width(p.ptype) <= size) &&
    IsInt16(p.minVal) && IsInt16(p.maxVal) &&
    p.cfgOffset < 256 &&
    (p.cfgOffset != CFG_OFFSET_NONE ==> p.cfgOffset + Width(p.ptype) <= Config.NODE_CONFIG_SIZE)
  }

  predicate ValidTable(table: seq<ParamDef>, size: nat)
  {
    forall i :: 0 <= i < |table| ==> ValidDef(table[i], size)
  }

  // ---------------------------------------------------------------------
  // Reading and rendering a value
  // ---------------------------------------------------------------------

  /** The numeric value at the row's address, at its type's width and signedness. */
  function ValueOf(p: ParamDef, m: seq<byte>): (v: int)
    requires p.ptype != Str && Readable(p, |m|)
  {
    var bs := Read(m, p.ptr, Width(p.ptype));
    if IsSigned(p.ptype) then Signed(bs) else Unsigned(bs)
  }

  /** The value as printed: a quoted C string, or %d / %u / %lu of the number. */
  function ValueText(p: ParamDef, m: seq<byte>): string
    requires Readable(p, |m|)
  {
    if p.ptype == Str then Quote(Config.CStringOf(m[p.ptr..]))
    else if IsSigned(p.ptype) then SignedDecimal(ValueOf(p, m))
    else Decimal(ValueOf(p, m))
  }

  /** The "key":value fragment of a row. */
  function KV(p: ParamDef, m: seq<byte>): (r: string)
    requires Readable(p, |m|)
    ensures |r| >= 4 && r[0] == '"'
  {
    "\"" + p.name + "\":" + ValueText(p, m)
  }

  /** What snprintf into a buffer of bufSize bytes returns, as text: all of s, or 0 ("") when it does not fit. */
  function Fits(s: string, bufSize: int): (r: string)
    ensures r == "" || (r == s && |r| < bufSize)
    ensures |s| < bufSize ==> r == s
  {
    if |s| < bufSize then s else ""
  }

  /** paramFmtKV: the fragment when it fits in bufSize bytes with its terminator, else 0 (""). */
  function FmtKV(p: ParamDef, m: seq<byte>, bufSize: int): (r: string)
    requires Readable(p, |m|)
    ensures r == "" <==> |KV(p, m)| >= bufSize
    ensures r != "" ==> r == KV(p, m) && |r| < bufSize
  {
    Fits(KV(p, m), bufSize)
  }

  /** Printing a number and parsing it back with strtol / strtoul gives the stored value. */
  lemma ValueTextReadsBack(p: ParamDef, m: seq<byte>)
    requires p.ptype != Str && Readable(p, |m|)
    ensures IsSigned(p.ptype) ==> StrToLong(ValueText(p, m)).0 == ValueOf(p, m)
    ensures !IsSigned(p.ptype) ==> StrToULong(ValueText(p, m)).0 == ValueOf(p, m)
  {
    var w := Width(p.ptype);
    if IsSigned(p.ptype) {
      assert Half(w) <= 0x8000 by { assert w <= 2; }
      StrToLongDecimal(ValueOf(p, m));
    } else {
      assert Pow256(w) <= 0x1_0000_0000 by { assert w <= 4; }
      StrToULongDecimal(ValueOf(p, m));
    }
  }

  // ---------------------------------------------------------------------
  // paramFind
  // ---------------------------------------------------------------------

  /** The first row at or after i whose name is equal, or -1. */
  function IndexOfNameFrom(table: seq<ParamDef>, name: string, i: nat): (r: int)
    ensures r == -1 || (i <= r < |table| && table[r].name == name)
    ensures r == -1 ==> forall j :: i <= j < |table| ==> table[j].name != name
    ensures r >= 0 ==> forall j :: i <= j < r ==> table[j].name != name
    decreases |table| - i
  {
    if i >= |table| then -1
    else if table[i].name == name then i
    else IndexOfNameFrom(table, name, i + 1)
  }

  /** paramFind's answer: the first row with an equal name, or -1 when there is none. */
  function IndexOfName(table: seq<ParamDef>, name: string): (r: int)
    ensures r == -1 || (0 <= r < |table| && table[r].name == name)
    ensures r == -1 <==> forall j :: 0 <= j < |table| ==> table[j].name != name
    ensures r >= 0 ==> forall j :: 0 <= j < r ==> table[j].name != name
  {
    IndexOfNameFrom(table, name, 0)
  }

  /** paramFind: a linear scan in table order. */
  method Find(table: seq<ParamDef>, name: string) returns (idx: int)
    ensures idx == IndexOfName(table, name)
  {
    var i: nat := 0;
    while i < |table|
      invariant i <= |table|
      invariant IndexOfNameFrom(table, name, i) == IndexOfName(table, name)
    {
      if table[i].name == name {
        return i;
      }
      i := i + 1;
    }
    return -1;
  }

  /** Names strictly ascending by strcmp, as the table's declaration demands. */
  predicate Sorted(table: seq<ParamDef>)
  {
    forall i :: 0 < i < |table| ==> StrLess(table[i - 1].name, table[i].name)
  }

  /** In a sorted table every later name is strictly greater. */
  lemma {:induction false} SortedStrict(table: seq<ParamDef>, i: nat, j: nat)
    requires Sorted(table) && i < j < |table|
    ensures StrLess(table[i].name, table[j].name)
    decreases j - i
  {
    if i + 1 < j {
      SortedStrict(table, i, j - 1);
      StrLessTransitive(table[i].name, table[j - 1].name, table[j].name);
    }
  }

  /** In a sorted table lookup by a row's own name finds that row. */
  lemma SortedFindsEveryRow(table: seq<ParamDef>, i: nat)
    requires Sorted(table) && i < |table|
    ensures IndexOfName(table, table[i].name) == i
  {
    var r := IndexOfName(table, table[i].name);
    if r != i {
      assert 0 <= r < i;
      SortedStrict(table, r, i);
      StrLessIrreflexive(table[i].name);
    }
  }

  // ---------------------------------------------------------------------
  // paramGet
  // ---------------------------------------------------------------------

  /** paramGet: {"e":"unknown param"} for a missing name, else {<kv>}; 0 ("") when the buffer is too small. */
  function Get(table: seq<ParamDef>, m: seq<byte>, name: string, bufSize: int): string
    requires ValidTable(table, |m|)
  {
    var idx := IndexOfName(table, name);
    if idx < 0 then Fits(UNKNOWN_PARAM, bufSize)
    else
      var kv := FmtKV(table[idx], m, bufSize - 1);
      if kv == "" || 1 + |kv| + 2 > bufSize then "" else "{" + kv + "}"
  }

  /**
   * What paramGet answers: the unknown-param error for a missing name, and
   * for the first row with that name its braced fragment whenever fragment,
   * braces and terminator fit; never a text that does not fit.
   */
  lemma GetShape(table: seq<ParamDef>, m: seq<byte>, name: string, bufSize: int)
    requires ValidTable(table, |m|)
    ensures var r := Get(table, m, name, bufSize);
      var idx := IndexOfName(table, name);
      (r == "" || |r| < bufSize) &&
      (idx < 0 ==> r == Fits(UNKNOWN_PARAM, bufSize)) &&
      (idx >= 0 ==> r == (if |KV(table[idx], m)| + 3 <= bufSize then "{" + KV(table[idx], m) + "}" else ""))
  {
  }

  /** paramGet as the C code runs it. */
  method ParamGet(table: seq<ParamDef>, mem: array<byte>, name: string, bufSize: int) returns (r: string)
    requires ValidTable(table, mem.Length)
    ensures r == Get(table, mem[..], name, bufSize)
  {
    var idx := Find(table, name);
    if idx < 0 {
      return Fits(UNKNOWN_PARAM, bufSize);
    }
    var kv := FmtKV(table[idx], mem[..], bufSize - 1);
    if kv == "" {
      return "";
    }
    var pos := 1 + |kv|;
    if pos + 2 > bufSize {
      return "";
    }
    r := "{" + kv + "}";
  }

  // ---------------------------------------------------------------------
  // paramSet
  // ---------------------------------------------------------------------

  /** The memory after a set, the callbacks it invoked, and its response. */
  datatype SetResult = SetResult(mem: seq<byte>, calls: seq<nat>, response: string)

  function ReadOnlyError(name: string): string
  {
    "{\"e\":\"read-only: " + name + "\"}"
  }

  function RangeError(p: ParamDef): string
  {
    "{\"e\":\"range: " + SignedDecimal(p.minVal) + ".." + SignedDecimal(p.maxVal) + "\"}"
  }

  /** The callback a successful set invokes: the row's onSet, if it has one. */
  function Callbacks(p: ParamDef): (r: seq<nat>)
    ensures |r| <= 1 && (|r| == 1 <==> p.onSet.Some?)
  {
    if p.onSet.Some? then [p.onSet.value] else []
  }

  /** The bytes a set stores: strtoul's value for UINT32, else strtol's value cast to the type. */
  function StoredBytes(p: ParamDef, valueStr: string): (bs: seq<byte>)
    ensures |bs| == Width(p.ptype)
  {
    if p.ptype == UInt32 then LittleEndian(StrToULong(valueStr).0, 4)
    else LittleEndian(StrToLong(valueStr).0, Width(p.ptype))
  }

  /** The value strtol reads is outside the row's range (never checked for UINT32). */
  predicate OutOfRange(p: ParamDef, valueStr: string)
  {
    p.ptype != UInt32 &&
    (StrToLong(valueStr).0 < p.minVal || StrToLong(valueStr).0 > p.maxVal)
  }

  /** paramSet, as a function of the memory before it. */
  function SetSpec(table: seq<ParamDef>, m: seq<byte>, name: string, valueStr: string, bufSize: int): (r: SetResult)
    requires ValidTable(table, |m|)
    ensures |r.mem| == |m|
  {
    var idx := IndexOfName(table, name);
    if idx < 0 then SetResult(m, [], Fits(UNKNOWN_PARAM, bufSize))
    else
      var p := table[idx];
      if !p.writable || p.ptype == Str then SetResult(m, [], Fits(ReadOnlyError(name), bufSize))
      else if OutOfRange(p, valueStr) then SetResult(m, [], Fits(RangeError(p), bufSize))
      else
        var m' := Write(m, p.ptr, StoredBytes(p, valueStr));
        SetResult(m', Callbacks(p), Get(table, m', name, bufSize))
  }

  /**
   * paramSet: finds the row, refuses unknown, read-only and string
   * parameters and out-of-range values, otherwise stores the value at the
   * row's width, invokes the callback and answers as paramGet would.
   */
  method Set(table: seq<ParamDef>, mem: array<byte>, name: string, valueStr: string, bufSize: int)
    returns (response: string, calls: seq<nat>)
    requires ValidTable(table, mem.Length)
    modifies mem
    ensures var r := SetSpec(table, old(mem[..]), name, valueStr, bufSize);
      mem[..] == r.mem && calls == r.calls && response == r.response
  {
    var idx := Find(table, name);
    if idx < 0 {
      return Fits(UNKNOWN_PARAM, bufSize), [];
    }
    var p := table[idx];
    if !p.writable {
      return Fits(ReadOnlyError(name), bufSize), [];
    }
    if p.ptype == Str {
      return Fits(ReadOnlyError(name), bufSize), [];
    }
    if p.ptype == UInt32 {
      var v32 := StrToULong(valueStr).0;
      Store(mem, p.ptr, LittleEndian(v32, 4));
    } else {
      var val := StrToLong(valueStr).0;
      if val < p.minVal || val > p.maxVal {
        return Fits(RangeError(p), bufSize), [];
      }
      Store(mem, p.ptr, LittleEndian(val, Width(p.ptype)));
    }
    calls := Callbacks(p);
    response := ParamGet(table, mem, name, bufSize);
  }

  /** Unknown names, read-only rows and string rows: the matching error, no write, no callback. */
  lemma SetRejects(table: seq<ParamDef>, m: seq<byte>, name: string, valueStr: string, bufSize: int)
    requires ValidTable(table, |m|)
    ensures var r := SetSpec(table, m, name, valueStr, bufSize);
      var idx := IndexOfName(table, name);
      (idx < 0 ==> r == SetResult(m, [], Fits(UNKNOWN_PARAM, bufSize))) &&
      (idx >= 0 && (!table[idx].writable || table[idx].ptype == Str) ==>
        r == SetResult(m, [], Fits(ReadOnlyError(name), bufSize)))
  {
  }

  /** A value outside [minVal, maxVal] of a non-UINT32 row: the range error, no write, no callback. */
  lemma SetOutOfRange(table: seq<ParamDef>, m: seq<byte>, name: string, valueStr: string, bufSize: int)
    requires ValidTable(table, |m|)
    requires var idx := IndexOfName(table, name);
      idx >= 0 && table[idx].writable && table[idx].ptype !in {Str, UInt32}
    requires var v := StrToLong(valueStr).0;
      var p := table[IndexOfName(table, name)];
      v < p.minVal || v > p.maxVal
    ensures var r := SetSpec(table, m, name, valueStr, bufSize);
      r == SetResult(m, [], Fits(RangeError(table[IndexOfName(table, name)]), bufSize))
  {
  }

  /** The C cast of v to the row's type. */
  function Cast(t: ParamType, v: int): (r: int)
    requires t != Str
  {
    if IsSigned(t) then WrapSigned(v, Width(t)) else WrapUnsigned(v, Width(t))
  }

  /**
   * A successful set: the row's storage now reads as the parsed value cast
   * to its type, no byte outside it changed, the callback ran once if
   * present, and the response is what paramGet renders for the new value.
   */
  lemma SetStores(table: seq<ParamDef>, m: seq<byte>, name: string, valueStr: string, bufSize: int)
    requires ValidTable(table, |m|)
    requires var idx := IndexOfName(table, name);
      idx >= 0 && table[idx].writable && table[idx].ptype != Str
    requires !OutOfRange(table[IndexOfName(table, name)], valueStr)
    ensures var p := table[IndexOfName(table, name)];
      var r := SetSpec(table, m, name, valueStr, bufSize);
      var v := if p.ptype == UInt32 then StrToULong(valueStr).0 else StrToLong(valueStr).0;
      ValueOf(p, r.mem) == Cast(p.ptype, v) &&
      (forall k :: 0 <= k < |m| && !(p.ptr <= k < p.ptr + Width(p.ptype)) ==> r.mem[k] == m[k]) &&
      r.calls == Callbacks(p) &&
      r.response == Get(table, r.mem, name, bufSize)
  {
    var p := table[IndexOfName(table, name)];
    var w := Width(p.ptype);
    var v := if p.ptype == UInt32 then StrToULong(valueStr).0 else StrToLong(valueStr).0;
    var m' := SetSpec(table, m, name, valueStr, bufSize).mem;
    assert Read(m', p.ptr, w) == LittleEndian(v, w);
    if IsSigned(p.ptype) {
      SignedLittleEndian(v, w);
    } else {
      UnsignedLittleEndian(v, w);
    }
  }

  /** The row's range fits its type, so an accepted value is stored unchanged. */
  predicate RangeFitsType(p: ParamDef)
  {
    p.ptype != Str && p.ptype != UInt32 &&
    (if IsSigned(p.ptype) then -Half(Width(p.ptype)) <= p.minVal && p.maxVal < Half(Width(p.ptype))
     else 0 <= p.minVal && p.maxVal < Pow256(Width(p.ptype)))
  }

  /**
   * Both ends of the range are accepted: setting a writable row to the
   * printed minVal or maxVal stores exactly that value.
   */
  lemma SetAcceptsEndpoints(table: seq<ParamDef>, m: seq<byte>, name: string, bufSize: int, atMax: bool)
    requires ValidTable(table, |m|)
    requires var idx := IndexOfName(table, name);
      idx >= 0 && table[idx].writable && RangeFitsType(table[idx]) &&
      table[idx].minVal <= table[idx].maxVal
    ensures var p := table[IndexOfName(table, name)];
      var x := if atMax then p.maxVal else p.minVal;
      var r := SetSpec(table, m, name, SignedDecimal(x), bufSize);
      ValueOf(p, r.mem) == x && r.calls == Callbacks(p)
  {
    var p := table[IndexOfName(table, name)];
    var x := if atMax then p.maxVal else p.minVal;
    StrToLongDecimal(x);
    SetStores(table, m, name, SignedDecimal(x), bufSize);
  }

  // ---------------------------------------------------------------------
  // Greedy pagination shared by paramsList and cmdsList
  // ---------------------------------------------------------------------

  /**
   * One page of a listing: the items taken, whether more remain, and the
   * index the listing stopped at.
   */
  datatype Page = Page(items: seq<string>, more: bool, next: nat)

  /**
   * Greedy packing of the candidates from index i on: an empty candidate
   * is skipped; a candidate is taken when the comma-joined items plus the
   * fixed overhead still fit in bufSize; the first one that does not fit
   * ends the page with more set.
   */
  function Pack(cands: seq<string>, i: nat, acc: seq<string>, overhead: nat, bufSize: int): Page
    decreases |cands| - i
  {
    if i >= |cands| then Page(acc, false, i)
    else if cands[i] == "" then Pack(cands, i + 1, acc, overhead, bufSize)
    else if overhead + |JoinComma(acc + [cands[i]])| > bufSize then Page(acc, true, i)
    else Pack(cands, i + 1, acc + [cands[i]], overhead, bufSize)
  }

  /** The non-empty candidates in [i, j), in order. */
  function NonEmpty(cands: seq<string>, i: nat, j: nat): seq<string>
    decreases j - i
  {
    if i >= j || i >= |cands| then []
    else (if cands[i] == "" then [] else [cands[i]]) + NonEmpty(cands, i + 1, j)
  }

  /** An empty candidate is passed over. */
  lemma PackSkip(cands: seq<string>, i: nat, acc: seq<string>, overhead: nat, bufSize: int)
    requires i < |cands| && cands[i] == ""
    ensures Pack(cands, i, acc, overhead, bufSize) == Pack(cands, i + 1, acc, overhead, bufSize)
  {
  }

  /** A candidate that does not fit ends the page, with more set. */
  lemma PackStop(cands: seq<string>, i: nat, acc: seq<string>, overhead: nat, bufSize: int)
    requires i < |cands| && cands[i] != ""
    requires overhead + |JoinComma(acc + [cands[i]])| > bufSize
    ensures Pack(cands, i, acc, overhead, bufSize) == Page(acc, true, i)
  {
  }

  /** A candidate that fits is taken. */
  lemma PackTake(cands: seq<string>, i: nat, acc: seq<string>, overhead: nat, bufSize: int)
    requires i < |cands| && cands[i] != ""
    requires overhead + |JoinComma(acc + [cands[i]])| <= bufSize
    ensures Pack(cands, i, acc, overhead, bufSize) == Pack(cands, i + 1, acc + [cands[i]], overhead, bufSize)
  {
  }

  /**
   * Where a page stops: never before i; at the end when it started within
   * the candidates and took them all; otherwise, with more set, at a whole
   * candidate that does not fit.
   */
  lemma {:induction false} PackStops(cands: seq<string>, i: nat, acc: seq<string>, overhead: nat, bufSize: int)
    ensures var pg := Pack(cands, i, acc, overhead, bufSize);
      i <= pg.next &&
      (i <= |cands| ==> pg.next <= |cands|) &&
      (pg.more <==> pg.next < |cands|) &&
      (pg.more ==> cands[pg.next] != "" && overhead + |JoinComma(pg.items + [cands[pg.next]])| > bufSize)
    decreases |cands| - i
  {
    if i < |cands| {
      if cands[i] == "" {
        PackStops(cands, i + 1, acc, overhead, bufSize);
      } else if overhead + |JoinComma(acc + [cands[i]])| <= bufSize {
        PackStops(cands, i + 1, acc + [cands[i]], overhead, bufSize);
      }
    }
  }

  /** A page holds exactly the non-empty candidates from i up to where it stopped, in order. */
  lemma {:induction false} PackItems(cands: seq<string>, i: nat, acc: seq<string>, overhead: nat, bufSize: int)
    ensures var pg := Pack(cands, i, acc, overhead, bufSize);
      pg.items == acc + NonEmpty(cands, i, pg.next)
    decreases |cands| - i
  {
    if i < |cands| {
      var pg := Pack(cands, i, acc, overhead, bufSize);
      if cands[i] == "" {
        PackStops(cands, i + 1, acc, overhead, bufSize);
        PackItems(cands, i + 1, acc, overhead, bufSize);
        assert NonEmpty(cands, i, pg.next) == NonEmpty(cands, i + 1, pg.next);
      } else if overhead + |JoinComma(acc + [cands[i]])| <= bufSize {
        PackStops(cands, i + 1, acc + [cands[i]], overhead, bufSize);
        PackItems(cands, i + 1, acc + [cands[i]], overhead, bufSize);
        assert NonEmpty(cands, i, pg.next) == [cands[i]] + NonEmpty(cands, i + 1, pg.next);
        assert pg.items == acc + ([cands[i]] + NonEmpty(cands, i + 1, pg.next));
      }
    }
  }

  /** A page that starts within bufSize ends within it. */
  lemma {:induction false} PackFits(cands: seq<string>, i: nat, acc: seq<string>, overhead: nat, bufSize: int)
    requires overhead + |JoinComma(acc)| <= bufSize
    ensures overhead + |JoinComma(Pack(cands, i, acc, overhead, bufSize).items)| <= bufSize
    decreases |cands| - i
  {
    if i < |cands| {
      if cands[i] == "" {
        PackFits(cands, i + 1, acc, overhead, bufSize);
      } else if overhead + |JoinComma(acc + [cands[i]])| <= bufSize {
        PackFits(cands, i + 1, acc + [cands[i]], overhead, bufSize);
      }
    }
  }

  /** Taking one more item lengthens the joined text by the item and, after the first, a comma. */
  lemma JoinOneMore(acc: seq<string>, item: string)
    ensures |JoinComma(acc + [item])| == |JoinComma(acc)| + (if acc == [] then 0 else 1) + |item|
    ensures JoinComma(acc + [item]) == JoinComma(acc) + (if acc == [] then "" else ",") + item
  {
    JoinCommaSnoc(acc, item);
  }

  function Start(offset: int): nat
  {
    if offset < 0 then 0 else offset
  }

  function MoreFlag(more: bool): string
  {
    if more then "1" else "0"
  }

  // ---------------------------------------------------------------------
  // paramsList
  // ---------------------------------------------------------------------

  /** The "{"m":0,"p":{" prefix and the "}}" + terminator after the items. */
  const LIST_OVERHEAD: nat := 12 + 3

  /** Each row's fragment as formatted into paramsList's 80-byte item buffer ("" when it does not fit). */
  function ParamItems(table: seq<ParamDef>, m: seq<byte>): (r: seq<string>)
    requires ValidTable(table, |m|)
    ensures |r| == |table|
  {
    if |table| == 0 then []
    else ParamItems(table[..|table| - 1], m) + [FmtKV(table[|table| - 1], m, ITEM_BUF_SIZE)]
  }

  lemma {:induction false} ParamItemsAt(table: seq<ParamDef>, m: seq<byte>, k: nat)
    requires ValidTable(table, |m|) && k < |table|
    ensures ParamItems(table, m)[k] == FmtKV(table[k], m, ITEM_BUF_SIZE)
  {
    if k < |table| - 1 {
      ParamItemsAt(table[..|table| - 1], m, k);
    }
  }

  /** paramsList: 0 ("") below 16 bytes, else {"m":X,"p":{...}} with the page's items. */
  function ListSpec(table: seq<ParamDef>, m: seq<byte>, offset: int, bufSize: int): string
    requires ValidTable(table, |m|)
  {
    if bufSize < 16 then ""
    else
      var pg := Pack(ParamItems(table, m), Start(offset), [], LIST_OVERHEAD, bufSize);
      ListHead(pg.more) + JoinComma(pg.items) + "}}"
  }

  /** The opening of paramsList's answer, with the more flag at index 5. */
  function ListHead(more: bool): (r: string)
    ensures |r| == 12
  {
    "{\"m\":" + MoreFlag(more) + ",\"p\":{"
  }

  /** Setting the flag character after the fact gives the head with more set. */
  lemma PatchMore(body: string)
    ensures (ListHead(false) + body)[5 := '1'] == ListHead(true) + body
  {
  }

  /**
   * paramsList's answer: "" iff bufSize < 16; otherwise a braced object
   * shorter than bufSize whose "p" holds, in table order from the offset,
   * every row up to where the page stopped (rows whose fragment exceeds
   * the item buffer skipped), with "m":1 exactly when it stopped at a row
   * that does not fit.
   */
  lemma ListShape(table: seq<ParamDef>, m: seq<byte>, offset: int, bufSize: int)
    requires ValidTable(table, |m|)
    ensures var r := ListSpec(table, m, offset, bufSize);
      var cands := ParamItems(table, m);
      var pg := Pack(cands, Start(offset), [], LIST_OVERHEAD, bufSize);
      (r == "" <==> bufSize < 16) &&
      (bufSize >= 16 ==>
        |r| < bufSize &&
        pg.items == NonEmpty(cands, Start(offset), pg.next) &&
        (pg.more <==> pg.next < |table|) &&
        (pg.more ==> LIST_OVERHEAD + |JoinComma(pg.items + [cands[pg.next]])| > bufSize))
  {
    var cands := ParamItems(table, m);
    PackStops(cands, Start(offset), [], LIST_OVERHEAD, bufSize);
    PackItems(cands, Start(offset), [], LIST_OVERHEAD, bufSize);
    if bufSize >= 16 {
      PackFits(cands, Start(offset), [], LIST_OVERHEAD, bufSize);
    }
  }

  /** An offset at or past the end lists nothing: {"m":0,"p":{}}. */
  lemma ListPastEnd(table: seq<ParamDef>, m: seq<byte>, offset: int, bufSize: int)
    requires ValidTable(table, |m|) && bufSize >= 16 && offset >= |table|
    ensures ListSpec(table, m, offset, bufSize) == "{\"m\":0,\"p\":{}}"
  {
  }

  /**
   * The loop of paramsList: formats each row from start on into the item
   * buffer, skips one that does not fit there, and appends it after a comma
   * while "}}" and the terminator still fit behind it; the first row that
   * does not fit ends the page with more set.
   */
  method ListItems(table: seq<ParamDef>, mem: array<byte>, start: nat, bufSize: int) returns (body: string, more: bool)
    requires ValidTable(table, mem.Length)
    ensures var pg := Pack(ParamItems(table, mem[..]), start, [], LIST_OVERHEAD, bufSize);
      body == JoinComma(pg.items) && more == pg.more
  {
    ghost var cands := ParamItems(table, mem[..]);
    var pos := |ListHead(false)|;
    body, more := "", false;
    var first := true;
    ghost var acc: seq<string> := [];
    var i: nat := start;
    while i < |table| && !more
      invariant first <==> acc == []
      invariant body == JoinComma(acc) && pos == |ListHead(false)| + |body|
      invariant Pack(cands, i, acc, LIST_OVERHEAD, bufSize) == Pack(cands, start, [], LIST_OVERHEAD, bufSize)
      invariant more ==> i < |table| && Pack(cands, i, acc, LIST_OVERHEAD, bufSize) == Page(acc, true, i)
      decreases |table| - i, !more
    {
      i, acc, body, pos, first, more := ListTurn(table, mem, bufSize, cands, i, acc, body, pos, first);
    }
  }

  /**
   * One turn of that loop, at row i: a row that does not fit the item buffer
   * is skipped, one that fits the page is appended, and one that does not
   * fit the page ends it.
   */
  method ListTurn(table: seq<ParamDef>, mem: array<byte>, bufSize: int, ghost cands: seq<string>,
                  i: nat, ghost acc: seq<string>, body: string, pos: int, first: bool)
    returns (i': nat, ghost acc': seq<string>, body': string, pos': int, first': bool, more: bool)
    requires ValidTable(table, mem.Length) && cands == ParamItems(table, mem[..]) && i < |table|
    requires (first <==> acc == []) && body == JoinComma(acc) && pos == |ListHead(false)| + |body|
    ensures (first' <==> acc' == []) && body' == JoinComma(acc') && pos' == |ListHead(false)| + |body'|
    ensures Pack(cands, i', acc', LIST_OVERHEAD, bufSize) == Pack(cands, i, acc, LIST_OVERHEAD, bufSize)
    ensures more ==> i' == i && Pack(cands, i', acc', LIST_OVERHEAD, bufSize) == Page(acc', true, i')
    ensures !more ==> i' == i + 1
  {
    i', acc', body', pos', first', more := i, acc, body, pos, first, false;
    var item := FmtKV(table[i], mem[..], ITEM_BUF_SIZE);
    ParamItemsAt(table, mem[..], i);
    if item == "" {
      PackSkip(cands, i, acc, LIST_OVERHEAD, bufSize);
      i' := i + 1;
    } else {
      var need := |item| + (if first then 0 else 1) + 2 + 1;
      JoinOneMore(acc, item);
      if pos + need > bufSize {
        PackStop(cands, i, acc, LIST_OVERHEAD, bufSize);
        more := true;
      } else {
        PackTake(cands, i, acc, LIST_OVERHEAD, bufSize);
        body' := body + (if first then "" else ",") + item;
        pos' := pos + need - 3;
        acc' := acc + [item];
        first' := false;
        i' := i + 1;
      }
    }
  }

  /** paramsList as the C code runs it: the head, the page's items, the more flag patched in, the close. */
  method List(table: seq<ParamDef>, mem: array<byte>, offset: int, bufSize: int) returns (buf: string)
    requires ValidTable(table, mem.Length)
    ensures buf == ListSpec(table, mem[..], offset, bufSize)
  {
    if bufSize < 16 {
      return "";
    }
    var body, more := ListItems(table, mem, Start(offset), bufSize);
    buf := ListHead(false) + body;
    if more {
      PatchMore(body);
      buf := buf[5 := '1'];
    }
    assert buf == ListHead(more) + body;
    buf := buf + "}}";
  }

  // ---------------------------------------------------------------------
  // cmdsList
  // ---------------------------------------------------------------------

  /** The "{"c":[" prefix and the "],"m":X}" + terminator after the names. */
  const CMDS_OVERHEAD: nat := 6 + 9

  /** cmdsList: 0 ("") below 15 bytes, else {"c":[...],"m":X} with the page's quoted names. */
  function CmdsSpec(names: seq<string>, offset: int, bufSize: int): string
  {
    if bufSize < 15 then ""
    else
      var pg := Pack(QuoteAll(names), Start(offset), [], CMDS_OVERHEAD, bufSize);
      "{\"c\":[" + JoinComma(pg.items) + "],\"m\":" + MoreFlag(pg.more) + "}"
  }

  /** Without skips, a page holds exactly the candidates [i, j). */
  lemma {:induction false} NonEmptyAll(cands: seq<string>, i: nat, j: nat)
    requires i <= j <= |cands|
    requires forall k :: i <= k < j ==> cands[k] != ""
    ensures NonEmpty(cands, i, j) == cands[i..j]
    decreases j - i
  {
    if i < j {
      NonEmptyAll(cands, i + 1, j);
    }
  }

  /**
   * cmdsList's answer: "" iff bufSize < 15; otherwise shorter than bufSize,
   * listing the quoted names [offset, next) in input order, with "m":1
   * iff next < the name count, and then the next name does not fit.
   */
  lemma CmdsShape(names: seq<string>, offset: int, bufSize: int)
    ensures var r := CmdsSpec(names, offset, bufSize);
      var cands := QuoteAll(names);
      var pg := Pack(cands, Start(offset), [], CMDS_OVERHEAD, bufSize);
      (r == "" <==> bufSize < 15) &&
      (bufSize >= 15 ==>
        |r| < bufSize &&
        (pg.more <==> pg.next < |names|) &&
        (Start(offset) <= |names| ==> Start(offset) <= pg.next <= |names| && pg.items == cands[Start(offset)..pg.next]) &&
        (pg.more ==> CMDS_OVERHEAD + |JoinComma(pg.items + [Quote(names[pg.next])])| > bufSize))
  {
    var cands := QuoteAll(names);
    var start := Start(offset);
    PackStops(cands, start, [], CMDS_OVERHEAD, bufSize);
    PackItems(cands, start, [], CMDS_OVERHEAD, bufSize);
    if bufSize >= 15 {
      PackFits(cands, start, [], CMDS_OVERHEAD, bufSize);
    }
    var pg := Pack(cands, start, [], CMDS_OVERHEAD, bufSize);
    if pg.more {
      QuoteAllAt(names, pg.next);
    }
    if start <= |names| {
      forall k | start <= k < pg.next
        ensures cands[k] != ""
      {
        QuoteAllAt(names, k);
      }
      NonEmptyAll(cands, start, pg.next);
    }
  }

  /**
   * The loop of cmdsList: appends each quoted name from start on, after a
   * comma, while the close and the terminator still fit behind it, and
   * stops at the first that does not; answers the index it stopped at.
   */
  method CmdsItems(names: seq<string>, start: nat, bufSize: int) returns (body: string, i: nat)
    ensures var pg := Pack(QuoteAll(names), start, [], CMDS_OVERHEAD, bufSize);
      body == JoinComma(pg.items) && i == pg.next
  {
    ghost var cands := QuoteAll(names);
    var pos := 6;
    body := "";
    var first := true;
    var stop := false;
    ghost var acc: seq<string> := [];
    i := start;
    while i < |names| && !stop
      invariant first <==> acc == []
      invariant body == JoinComma(acc) && pos == 6 + |body|
      invariant Pack(cands, i, acc, CMDS_OVERHEAD, bufSize) == Pack(cands, start, [], CMDS_OVERHEAD, bufSize)
      invariant stop ==> i < |names| && Pack(cands, i, acc, CMDS_OVERHEAD, bufSize) == Page(acc, true, i)
      decreases |names| - i, !stop
    {
      i, acc, body, pos, first, stop := CmdsTurn(names, bufSize, cands, i, acc, body, pos, first);
    }
  }

  /** One turn of that loop, at name i: the quoted name is appended if it fits the page, else the page ends. */
  method CmdsTurn(names: seq<string>, bufSize: int, ghost cands: seq<string>,
                  i: nat, ghost acc: seq<string>, body: string, pos: int, first: bool)
    returns (i': nat, ghost acc': seq<string>, body': string, pos': int, first': bool, stop: bool)
    requires cands == QuoteAll(names) && i < |names|
    requires (first <==> acc == []) && body == JoinComma(acc) && pos == 6 + |body|
    ensures (first' <==> acc' == []) && body' == JoinComma(acc') && pos' == 6 + |body'|
    ensures Pack(cands, i', acc', CMDS_OVERHEAD, bufSize) == Pack(cands, i, acc, CMDS_OVERHEAD, bufSize)
    ensures stop ==> i' == i && Pack(cands, i', acc', CMDS_OVERHEAD, bufSize) == Page(acc', true, i')
    ensures !stop ==> i' == i + 1
  {
    i', acc', body', pos', first', stop := i, acc, body, pos, first, false;
    var nameLen := |names[i]|;
    var need := nameLen + 2 + (if first then 0 else 1) + 8 + 1;
    var quoted := "\"" + names[i] + "\"";
    QuoteAllAt(names, i);
    assert quoted == cands[i];
    JoinOneMore(acc, quoted);
    if pos + need > bufSize {
      PackStop(cands, i, acc, CMDS_OVERHEAD, bufSize);
      stop := true;
    } else {
      PackTake(cands, i, acc, CMDS_OVERHEAD, bufSize);
      body' := body + (if first then "" else ",") + quoted;
      pos' := pos + need - 9;
      acc' := acc + [quoted];
      first' := false;
      i' := i + 1;
    }
  }

  /** cmdsList as the C code runs it: the head, the page's names, and the close with "m" set iff names remain. */
  method CmdsList(names: seq<string>, offset: int, bufSize: int) returns (buf: string)
    ensures buf == CmdsSpec(names, offset, bufSize)
  {
    if bufSize < 15 {
      return "";
    }
    var body, i := CmdsItems(names, Start(offset), bufSize);
    PackStops(QuoteAll(names), Start(offset), [], CMDS_OVERHEAD, bufSize);
    var more := i < |names|;
    buf := "{\"c\":[" + body + "],\"m\":" + MoreFlag(more) + "}";
  }

  // ---------------------------------------------------------------------
  // paramsApplyStaged and paramsSyncToConfig
  // ---------------------------------------------------------------------

  /** Where a copy goes: the runtime globals, or the NodeConfig record at address cfgAddr. */
  datatype Target = Runtime | ConfigAt(cfgAddr: nat)

  /**
   * The memcpy a row contributes: a staged numeric row copies its value to
   * its runtime global; a persisted numeric row copies it to its field of
   * the record. Strings and rows without a destination copy nothing.
   */
  function MoveOf(p: ParamDef, t: Target): Option<Move>
  {
    if p.ptype == Str then None
    else match t
      case Runtime =>
        if p.runtimePtr.Some? then Some(Move(p.ptr, p.runtimePtr.value, Width(p.ptype))) else None
      case ConfigAt(a) =>
        if p.cfgOffset != CFG_OFFSET_NONE then Some(Move(p.ptr, a + p.cfgOffset, Width(p.ptype))) else None
  }

  /** The copies of the rows, in table order. */
  function Moves(table: seq<ParamDef>, t: Target): seq<Move>
  {
    if |table| == 0 then []
    else
      var last := MoveOf(table[|table| - 1], t);
      Moves(table[..|table| - 1], t) + (if last.Some? then [last.value] else [])
  }

  /** The destination fits: the whole record at cfgAddr lies in memory. */
  predicate TargetFits(t: Target, size: nat)
  {
    t.ConfigAt? ==> t.cfgAddr + Config.NODE_CONFIG_SIZE <= size
  }

  /** A copy is among the moves iff some row contributes it. */
  lemma {:induction false} MovesIff(table: seq<ParamDef>, t: Target, mv: Move)
    ensures mv in Moves(table, t) <==> exists i :: 0 <= i < |table| && MoveOf(table[i], t) == Some(mv)
  {
    if |table| > 0 {
      var n := |table| - 1;
      MovesIff(table[..n], t, mv);
      if exists i :: 0 <= i < |table| && MoveOf(table[i], t) == Some(mv) {
        var i :| 0 <= i < |table| && MoveOf(table[i], t) == Some(mv);
        if i < n {
          assert table[..n][i] == table[i];
        }
      }
      if exists i :: 0 <= i < n && MoveOf(table[..n][i], t) == Some(mv) {
        var i :| 0 <= i < n && MoveOf(table[..n][i], t) == Some(mv);
        assert table[i] == table[..n][i];
      }
    }
  }

  /** Every copy of a valid table stays inside memory. */
  lemma MovesFit(table: seq<ParamDef>, t: Target, size: nat)
    requires ValidTable(table, size) && TargetFits(t, size)
    ensures forall k :: 0 <= k < |Moves(table, t)| ==> MoveFits(Moves(table, t)[k], size)
  {
    var ms := Moves(table, t);
    forall k | 0 <= k < |ms|
      ensures MoveFits(ms[k], size)
    {
      MovesIff(table, t, ms[k]);
      var i :| 0 <= i < |table| && MoveOf(table[i], t) == Some(ms[k]);
      assert ValidDef(table[i], size);
    }
  }

  /** Moves of one more row. */
  lemma MovesSnoc(table: seq<ParamDef>, t: Target, i: nat)
    requires i < |table|
    ensures Moves(table[..i + 1], t) ==
      Moves(table[..i], t) + (if MoveOf(table[i], t).Some? then [MoveOf(table[i], t).value] else [])
  {
    assert table[..i + 1][..i] == table[..i];
  }

  /** The memory after the rows' copies. */
  function Applied(m: seq<byte>, table: seq<ParamDef>, t: Target): (r: seq<byte>)
    requires ValidTable(table, |m|) && TargetFits(t, |m|)
    ensures |r| == |m|
  {
    MovesFit(table, t, |m|);
    Copies(m, Moves(table, t))
  }

  /** paramsApplyStaged (t == Runtime) and paramsSyncToConfig (t == ConfigAt): the rows' copies in table order. */
  method CopyAll(table: seq<ParamDef>, mem: array<byte>, t: Target)
    requires ValidTable(table, mem.Length) && TargetFits(t, mem.Length)
    modifies mem
    ensures mem[..] == Applied(old(mem[..]), table, t)
  {
    var i: nat := 0;
    while i < |table|
      invariant i <= |table|
      invariant ValidTable(table[..i], mem.Length)
      invariant mem[..] == Applied(old(mem[..]), table[..i], t)
    {
      CopyRow(table, mem, t, i, old(mem[..]));
      i := i + 1;
    }
    assert table[..i] == table;
  }

  /** One turn of that loop: row i's copy, if it has one. */
  method CopyRow(table: seq<ParamDef>, mem: array<byte>, t: Target, i: nat, ghost m0: seq<byte>)
    requires ValidTable(table, mem.Length) && TargetFits(t, mem.Length) && i < |table| && |m0| == mem.Length
    requires ValidTable(table[..i], mem.Length) && mem[..] == Applied(m0, table[..i], t)
    modifies mem
    ensures ValidTable(table[..i + 1], mem.Length) && mem[..] == Applied(m0, table[..i + 1], t)
  {
    MovesSnoc(table, t, i);
    MovesFit(table[..i], t, mem.Length);
    assert ValidDef(table[i], mem.Length);
    assert ValidTable(table[..i + 1], mem.Length);
    var mv := MoveOf(table[i], t);
    ghost var before := mem[..];
    if mv.Some? {
      CopiesSnoc(m0, Moves(table[..i], t), mv.value);
      CopyBytes(mem, mv.value);
      assert mem[..] == Copy(before, mv.value);
    } else {
      assert Moves(table[..i + 1], t) == Moves(table[..i], t);
    }
  }

  /** paramsApplyStaged: every staged numeric row's value copied to its runtime global. */
  method ApplyStaged(table: seq<ParamDef>, mem: array<byte>)
    requires ValidTable(table, mem.Length)
    modifies mem
    ensures mem[..] == Applied(old(mem[..]), table, Runtime)
  {
    CopyAll(table, mem, Runtime);
  }

  /** paramsSyncToConfig: every persisted numeric row's value copied into the record at cfgAddr. */
  method SyncToConfig(table: seq<ParamDef>, mem: array<byte>, cfgAddr: nat)
    requires ValidTable(table, mem.Length) && cfgAddr + Config.NODE_CONFIG_SIZE <= mem.Length
    modifies mem
    ensures mem[..] == Applied(old(mem[..]), table, ConfigAt(cfgAddr))
  {
    CopyAll(table, mem, ConfigAt(cfgAddr));
  }

  /**
   * When no copy writes into another's source or onto another's
   * destination, each row with a copy ends up holding at its destination
   * the value its source held before.
   */
  lemma CopiedRow(table: seq<ParamDef>, m: seq<byte>, t: Target, i: nat)
    requires ValidTable(table, |m|) && TargetFits(t, |m|) && i < |table|
    requires Independent(Moves(table, t)) && MoveOf(table[i], t).Some?
    ensures var mv := MoveOf(table[i], t).value;
      MoveFits(mv, |m|) && Read(Applied(m, table, t), mv.dst, mv.w) == Read(m, mv.src, mv.w)
  {
    MovesFit(table, t, |m|);
    var mv := MoveOf(table[i], t).value;
    var ms := Moves(table, t);
    MovesIff(table, t, mv);
    var k :| 0 <= k < |ms| && ms[k] == mv;
    CopiesDisjoint(m, ms, k);
  }

  /** A byte that no row's copy writes keeps its value (rows without a destination have no effect). */
  lemma UntouchedByte(table: seq<ParamDef>, m: seq<byte>, t: Target, b: nat)
    requires ValidTable(table, |m|) && TargetFits(t, |m|) && b < |m|
    requires forall i :: 0 <= i < |table| && MoveOf(table[i], t).Some? ==>
      !(MoveOf(table[i], t).value.dst <= b < MoveOf(table[i], t).value.dst + MoveOf(table[i], t).value.w)
    ensures Applied(m, table, t)[b] == m[b]
  {
    MovesFit(table, t, |m|);
    var ms := Moves(table, t);
    forall j | 0 <= j < |ms|
      ensures !(ms[j].dst <= b < ms[j].dst + ms[j].w)
    {
      MovesIff(table, t, ms[j]);
    }
    CopiesFrame(m, ms, b);
  }

  /**
   * paramsSyncToConfig never touches the record's magic and version bytes:
   * every row's offset names a field after them.
   */
  lemma SyncKeepsHeader(table: seq<ParamDef>, m: seq<byte>, cfgAddr: nat)
    requires ValidTable(table, |m|) && cfgAddr + Config.NODE_CONFIG_SIZE <= |m|
    requires forall i :: 0 <= i < |table| ==> table[i].cfgOffset >= Config.OFF_VERSION + 1
    ensures var after := Applied(m, table, ConfigAt(cfgAddr));
      after[cfgAddr + Config.OFF_MAGIC] == m[cfgAddr + Config.OFF_MAGIC] &&
      after[cfgAddr + Config.OFF_VERSION] == m[cfgAddr + Config.OFF_VERSION]
  {
    UntouchedByte(table, m, ConfigAt(cfgAddr), cfgAddr + Config.OFF_MAGIC);
    UntouchedByte(table, m, ConfigAt(cfgAddr), cfgAddr + Config.OFF_VERSION);
  }

  /**
   * When the rows' copies are independent, copying a second time changes
   * nothing: a repeated paramsSyncToConfig (or paramsApplyStaged) leaves
   * memory as the first one left it.
   */
  lemma AppliedTwice(m: seq<byte>, table: seq<ParamDef>, t: Target)
    requires ValidTable(table, |m|) && TargetFits(t, |m|) && Independent(Moves(table, t))
    ensures Applied(Applied(m, table, t), table, t) == Applied(m, table, t)
  {
    MovesFit(table, t, |m|);
    CopiesTwice(m, Moves(table, t));
  }
}
