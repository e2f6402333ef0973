// The node's LoRa wire codec (shared/packets.h): value formatting, the
// sensor packet builder, the JSON field extractors, the command parser and
// the ACK builders.  Every packet is JSON with sorted keys; field "c" holds
// the "%08x" CRC-32 of the same JSON with "c" left out.

module Packets {
  import opened Text
  import Crc32

  const LORA_MAX_PAYLOAD: nat := 250
  const CMD_MAX_ARGS: nat := 4
  const CMD_MAX_ARG_LEN: nat := 163
  const CMD_MAX_NAME_LEN: nat := 32
  const NODE_ID_MAX_LEN: nat := 16
  /** Size of the CRC text buffer of a command packet (cmd->crc). */
  const CRC_TEXT_CAP: nat := 9
  /** rBuf holds 256 chars; the readings array fails at 255. */
  const READINGS_LIMIT: nat := 255

  /** Four blanks in front of every transmitted packet (radio TX-FIFO workaround). */
  const PADDING: string := "    "

  /** printf "%08x" of the CRC-32 of s. */
  function CrcText(s: string): (r: string)
    ensures |r| == 8 && forall i :: 0 <= i < |r| ==> IsLowerHex(r[i])
    ensures HexValue(r) == Crc32.CrcValue(s)
  {
    Hex8RoundTrip(Crc32.CrcValue(s));
    Hex8(Crc32.CrcValue(s))
  }

  // ------------------------------------------------------------------ fmtVal

  /** s without the '0's that trail it strictly after index dot. */
  function DropZerosAfter(s: string, dot: nat): (r: string)
    requires dot < |s|
    ensures dot < |r| <= |s| && r == s[..|r|]
    ensures |r| == dot + 1 || r[|r| - 1] != '0'
    ensures forall j :: |r| <= j < |s| ==> s[j] == '0'
    decreases |s|
  {
    if |s| - 1 > dot && s[|s| - 1] == '0' then DropZerosAfter(s[..|s| - 1], dot) else s
  }

  /**
   * fmtVal's post-processing of the "%.8g" text: when it has a '.', the '0's
   * at its end after the first '.' go, and then the '.' itself if it ends
   * the text.
   */
  function Stripped(s: string): (r: string)
  {
    match FindChar(s, '.', 0)
    case None => s
    case Some(dot) =>
      var t := DropZerosAfter(s, dot);
      if |t| == dot + 1 then t[..dot] else t
  }

  /**
   * fmtVal as written: the length the text keeps after the zero-stripping
   * loop has overwritten the dropped characters with NUL.
   */
  method FmtVal(printed: string) returns (len: nat)
    ensures len <= |printed| && printed[..len] == Stripped(printed)
  {
    len := |printed|;
    var dot := FindChar(printed, '.', 0);
    if dot.Some? {
      var d := dot.value;
      var p := DropZeros(printed, d);
      len := p + 1;
      if p == d {
        len := len - 1;
        assert printed[..len] == printed[..p + 1][..d];
      }
    } else {
      assert printed[..len] == printed;
    }
  }

  /** fmtVal's loop: p moves down over the '0's after the dot; p is the last kept index. */
  method DropZeros(printed: string, d: nat) returns (p: nat)
    requires d < |printed|
    ensures d <= p < |printed| && printed[..p + 1] == DropZerosAfter(printed, d)
  {
    p := |printed| - 1;
    while p > d && printed[p] == '0'
      invariant d <= p < |printed|
      invariant forall j :: p < j < |printed| ==> printed[j] == '0'
    {
      p := p - 1;
    }
    ZerosDropped(printed, d, p);
  }

  /**
   * What fmtVal's loop stops at is what DropZerosAfter keeps: everything
   * after p is '0', and p is the dot or holds another character.
   */
  lemma {:induction false} ZerosDropped(s: string, dot: nat, p: nat)
    requires dot <= p < |s| && (p == dot || s[p] != '0')
    requires forall j :: p < j < |s| ==> s[j] == '0'
    ensures DropZerosAfter(s, dot) == s[..p + 1]
    decreases |s|
  {
    if p + 1 < |s| {
      ZerosDropped(s[..|s| - 1], dot, p);
      assert s[..|s| - 1][..p + 1] == s[..p + 1];
    }
  }

  /** Text without '.' is left as it is. */
  lemma StrippedWithoutDot(s: string)
    requires '.' !in s
    ensures Stripped(s) == s
  {
  }

  /**
   * What fmtVal keeps: a prefix of the text such that everything dropped is
   * '0' apart from the '.' at index dot, and what is kept ends neither in a
   * '0' after the '.' nor in the '.'.
   */
  lemma StrippedShape(s: string, dot: nat)
    requires dot < |s| && s[dot] == '.' && '.' !in s[..dot]
    ensures var r := Stripped(s);
      r == s[..|r|] && |r| != dot + 1 &&
      (forall j :: |r| <= j < |s| && j != dot ==> s[j] == '0') &&
      (|r| == dot || (|r| > dot + 1 && s[|r| - 1] != '0'))
  {
    assert FindChar(s, '.', 0) == Some(dot);
  }

  /** Stripping twice changes nothing more. */
  lemma StrippedIdempotent(s: string)
    ensures Stripped(Stripped(s)) == Stripped(s)
  {
    var f := FindChar(s, '.', 0);
    if f.Some? {
      var dot := f.value;
      assert '.' !in s[..dot] by {
        forall j | 0 <= j < dot ensures s[..dot][j] != '.' { }
      }
      StrippedShape(s, dot);
      var r := Stripped(s);
      if |r| == dot {
        assert r == s[..dot];
        StrippedWithoutDot(r);
      } else {
        assert r[dot] == '.';
        var g := FindChar(r, '.', 0);
        assert g == Some(dot);
        assert DropZerosAfter(r, dot) == r;
      }
    }
  }

  /**
   * fmtVal as written also strips the exponent: 1.5e10 is printed
   * "1.5e+10" by "%.8g" and leaves fmtVal as "1.5e+1", a value a
   * billion times smaller.
   */
  lemma FmtValStripsExponent()
    ensures Stripped("1.5e+10") == "1.5e+1"
  {
    assert FindChar("1.5e+10", '.', 0) == Some(1);
    var t := "1.5e+10";
    assert DropZerosAfter(t, 1) == DropZerosAfter(t[..6], 1);
    assert t[..6] == "1.5e+1";
  }

  /**
   * The evidently intended value text: only the mantissa is stripped. The
   * packet builder below keeps fmtVal as written.
   */
  function FmtValFixed(printed: string): (r: string)
  {
    match FindChar(printed, 'e', 0)
    case None => Stripped(printed)
    case Some(e) => Stripped(printed[..e]) + printed[e..]
  }

  /**
   * The exponent survives the fixed formatting unchanged and the mantissa in
   * front of it is stripped as fmtVal strips.
   */
  lemma FmtValFixedKeepsExponent(printed: string, e: nat)
    requires e < |printed| && printed[e] == 'e' && 'e' !in printed[..e]
    ensures var r := FmtValFixed(printed);
      |r| >= |printed| - e && r[|r| - (|printed| - e)..] == printed[e..] &&
      r[..|r| - (|printed| - e)] == Stripped(printed[..e])
  {
    assert FindChar(printed, 'e', 0) == Some(e);
  }

  /** Without an exponent the fixed formatting is fmtVal's. */
  lemma FmtValFixedWithoutExponent(printed: string)
    requires 'e' !in printed
    ensures FmtValFixed(printed) == Stripped(printed)
  {
  }

  /** "1.5e+10" keeps its exponent under the fixed formatting. */
  lemma FmtValFixedExample()
    ensures FmtValFixed("1.5e+10") == "1.5e+10"
  {
    var t := "1.5e+10";
    assert FindChar(t, 'e', 0) == Some(3);
    assert t[..3] == "1.5";
    assert FindChar("1.5", '.', 0) == Some(1);
    assert DropZerosAfter("1.5", 1) == "1.5";
    assert t[3..] == "e+10";
  }

  // --------------------------------------------------------- sensor packets

  /** One reading; `printed` is printf's "%.8g" text of its double value. */
  datatype Reading = Reading(name: string, sid: int, units: string, printed: string)

  /**
   * One element of the readings array; keys in the order k < s < u < v. The
   * value is fmtVal's text as written, exponent digits stripped included.
   */
  function ReadingJson(r: Reading): string
  {
    "{\"k\":\"" + r.name + "\",\"s\":" + SignedDecimal(r.sid) + ",\"u\":\"" + r.units
      + "\",\"v\":" + Stripped(r.printed) + "}"
  }

  /** The array elements, one per reading. */
  function Items(rs: seq<Reading>): seq<string>
  {
    if |rs| == 0 then [] else Items(rs[..|rs| - 1]) + [ReadingJson(rs[|rs| - 1])]
  }

  /** The readings array, "[...]". */
  function ReadingsArray(rs: seq<Reading>): string
  {
    "[" + JoinComma(Items(rs)) + "]"
  }

  /** The readings array fits rBuf: no prefix of it reaches 255 chars. */
  predicate ReadingsFit(rs: seq<Reading>)
  {
    |rs| == 0 || |"[" + JoinComma(Items(rs))| < READINGS_LIMIT
  }

  /** The members n, r and t, without the closing brace. */
  function SensorHead(nodeId: string, ts: nat, rs: seq<Reading>): string
  {
    "{\"n\":\"" + nodeId + "\",\"r\":" + ReadingsArray(rs) + ",\"t\":" + Decimal(ts)
  }

  /** The JSON the CRC is computed over: keys n < r < t, no "c". */
  function SensorBody(nodeId: string, ts: nat, rs: seq<Reading>): string
  {
    SensorHead(nodeId, ts, rs) + "}"
  }

  /** The JSON on the wire: the body with "c" appended last. */
  function SensorWire(nodeId: string, ts: nat, rs: seq<Reading>): string
  {
    SensorHead(nodeId, ts, rs) + ",\"c\":\"" + CrcText(SensorBody(nodeId, ts, rs)) + "\"}"
  }

  /**
   * buildSensorPacket: the bytes written to buf, "" when it returns 0.
   * (int)(bufCap - 4) is the room the JSON must stay below.
   */
  function SensorPacket(bufCap: nat, nodeId: string, ts: nat, rs: seq<Reading>): (r: string)
    requires 4 <= bufCap && IsU32(bufCap)
  {
    if !ReadingsFit(rs) then ""
    else
      var w := SensorWire(nodeId, ts, rs);
      if |w| >= SizeAsInt(bufCap - 4) then "" else PADDING + w
  }

  /**
   * Step 1 of buildSensorPacket: the readings array, rendered item by item
   * into rBuf; false once rBuf reaches 255 chars.
   */
  method SerialiseReadings(readings: seq<Reading>) returns (ok: bool, rBuf: string)
    ensures ok == ReadingsFit(readings)
    ensures ok ==> rBuf == ReadingsArray(readings)
  {
    ok, rBuf := FillArrayBuffer(Items(readings));
  }

  /**
   * The rBuf loop: '[' and then the items separated by ',', checking after
   * each item that rBuf has not reached 255 chars; then ']'.
   */
  method FillArrayBuffer(items: seq<string>) returns (ok: bool, rBuf: string)
    ensures ok == (|items| == 0 || |"[" + JoinComma(items)| < READINGS_LIMIT)
    ensures ok ==> rBuf == "[" + JoinComma(items) + "]"
  {
    rBuf := "[";
    var i := 0;
    while i < |items|
      invariant 0 <= i <= |items|
      invariant rBuf == "[" + JoinComma(items[..i])
      invariant i > 0 ==> |rBuf| < READINGS_LIMIT
    {
      ItemStep(items, i, rBuf);
      var sep := if i > 0 then "," else "";
      rBuf := rBuf + sep + items[i];
      if |rBuf| >= READINGS_LIMIT {
        JoinCommaPrefixLength(items, i + 1);
        return false, "";
      }
      i := i + 1;
    }
    assert items[..|items|] == items;
    rBuf := rBuf + "]";
    ok := true;
  }

  /** One more item, after a ',' unless it is the first, extends rBuf. */
  lemma ItemStep(items: seq<string>, i: nat, rBuf: string)
    requires i < |items| && rBuf == "[" + JoinComma(items[..i])
    ensures rBuf + (if i > 0 then "," else "") + items[i] == "[" + JoinComma(items[..i + 1])
  {
    AppendItem(items, i);
    if i > 0 {
      assert rBuf + "," + items[i] == "[" + (JoinComma(items[..i]) + "," + items[i]);
    }
  }

  /** The readings text grows by one separator and one item. */
  lemma AppendItem(items: seq<string>, i: nat)
    requires i < |items|
    ensures JoinComma(items[..i + 1]) ==
      if i == 0 then items[0] else JoinComma(items[..i]) + "," + items[i]
  {
    JoinCommaSnoc(items[..i], items[i]);
    assert items[..i] + [items[i]] == items[..i + 1];
  }

  /**
   * buildSensorPacket: the readings array, the CRC body and its CRC-32,
   * then the four blanks and the JSON with "c" last.  Returns the length
   * and the bytes written.
   */
  method BuildSensorPacket(bufCap: nat, nodeId: string, ts: nat, readings: seq<Reading>)
    returns (len: nat, pkt: string)
    requires 4 <= bufCap && IsU32(bufCap)
    requires |nodeId| < NODE_ID_MAX_LEN && IsU32(ts)
    ensures pkt == SensorPacket(bufCap, nodeId, ts, readings) && len == |pkt|
  {
    var ok, rBuf := SerialiseReadings(readings);
    if !ok {
      return 0, "";
    }
    var head := "{\"n\":\"" + nodeId + "\",\"r\":" + rBuf + ",\"t\":" + Decimal(ts);
    assert head == SensorHead(nodeId, ts, readings);
    var body := head + "}";
    var crc := Crc32.Compute(body);
    var wire := head + ",\"c\":\"" + Hex8(crc as nat) + "\"}";
    assert wire == SensorWire(nodeId, ts, readings);
    if |wire| >= SizeAsInt(bufCap - 4) {
      return 0, "";
    }
    pkt := PADDING + wire;
    len := |pkt|;
  }

  /**
   * A packet either is not built at all, or fits below bufCap, starts with the
   * four blanks, and is the CRC body with "c" (the "%08x" CRC-32 of that body)
   * added as its last member.
   */
  lemma SensorPacketShape(bufCap: nat, nodeId: string, ts: nat, rs: seq<Reading>)
    requires 4 <= bufCap && IsU32(bufCap)
    ensures var r := SensorPacket(bufCap, nodeId, ts, rs);
      var body := SensorBody(nodeId, ts, rs);
      r != "" ==>
        |r| < bufCap && |r| >= 14 && r[..4] == PADDING &&
        r[4..] == body[..|body| - 1] + ",\"c\":\"" + CrcText(body) + "\"}" &&
        r[|r| - 10..|r| - 2] == CrcText(body)
  {
    var r := SensorPacket(bufCap, nodeId, ts, rs);
    if r != "" {
      var head := SensorHead(nodeId, ts, rs);
      var hex := CrcText(SensorBody(nodeId, ts, rs));
      assert SensorBody(nodeId, ts, rs) == head + "}";
      assert r == PADDING + (head + ",\"c\":\"" + hex + "\"}");
      CrcLast(PADDING, head, hex);
    }
  }

  /** The pieces of a packet that ends in "c": padding, the body's members, then the eight hex chars. */
  lemma CrcLast(pad: string, head: string, hex: string)
    requires |hex| == 8
    ensures var r := pad + (head + ",\"c\":\"" + hex + "\"}");
      var body := head + "}";
      |r| == |pad| + |head| + 16 && r[..|pad|] == pad && r[|r| - 10..|r| - 2] == hex &&
      r[|pad|..] == body[..|body| - 1] + ",\"c\":\"" + hex + "\"}"
  {
    var body := head + "}";
    assert body[..|body| - 1] == head;
  }

  /**
   * buildSensorPacket fails exactly when the readings array reaches 255 chars
   * or the JSON does not stay below bufCap - 4.
   */
  lemma SensorPacketFails(bufCap: nat, nodeId: string, ts: nat, rs: seq<Reading>)
    requires 4 <= bufCap && IsU32(bufCap) && bufCap - 4 <= LONG_MAX
    ensures SensorPacket(bufCap, nodeId, ts, rs) == "" <==>
      (|rs| > 0 && |"[" + JoinComma(Items(rs))| >= READINGS_LIMIT) ||
      |SensorWire(nodeId, ts, rs)| + 4 >= bufCap
  {
  }

  // ------------------------------------------------------- JSON extraction

  /** `"key":"`: what extractJsonString searches for. */
  function StringPattern(key: string): string { "\"" + key + "\":\"" }

  /** `"key":`: what extractJsonInt searches for. */
  function IntPattern(key: string): string { "\"" + key + "\":" }

  /** `"key":[`: what extractJsonStringArray searches for. */
  function ArrayPattern(key: string): string { "\"" + key + "\":[" }

  /**
   * extractJsonString: the text between the first `"key":"` and the next
   * '"', truncated to outCap - 1 chars; None when either is missing.
   */
  function ExtractString(json: string, key: string, outCap: nat): (r: Option<string>)
    requires 1 <= outCap
    ensures r.Some? ==> |r.value| < outCap && '"' !in r.value
    ensures IndexOf(json, StringPattern(key)).None? ==> r.None?
  {
    var pat := StringPattern(key);
    match IndexOf(json, pat)
    case None => None
    case Some(p) =>
      match FindChar(json, '"', p + |pat|)
      case None => None
      case Some(e) =>
        var v := Truncate(json[p + |pat|..e], outCap - 1);
        assert forall k :: 0 <= k < |v| ==> v[k] == json[p + |pat| + k];
        Some(v)
  }

  /**
   * A value written after the first `"key":"` and closed by '"' is found,
   * truncated to the buffer.
   */
  lemma ExtractStringFinds(json: string, key: string, outCap: nat, p: nat, v: string)
    requires 1 <= outCap && '"' !in v
    requires IndexOf(json, StringPattern(key)) == Some(p)
    requires p + |StringPattern(key)| + |v| < |json|
    requires json[p + |StringPattern(key)|..p + |StringPattern(key)| + |v|] == v
    requires json[p + |StringPattern(key)| + |v|] == '"'
    ensures ExtractString(json, key, outCap) == Some(Truncate(v, outCap - 1))
  {
    var s := p + |StringPattern(key)|;
    forall j | s <= j < s + |v| ensures json[j] != '"' {
      assert json[j] == json[s..s + |v|][j - s];
    }
    FindCharIs(json, '"', s, s + |v|);
  }

  /**
   * A key whose pattern first appears after a lead-in without '"' is found,
   * and its value up to the next '"' is read back, truncated to the buffer.
   */
  lemma ExtractStringAfter(lead: string, key: string, v: string, tail: string, outCap: nat)
    requires 1 <= outCap && '"' !in lead && '"' !in v
    requires |tail| > 0 && tail[0] == '"'
    ensures ExtractString(lead + StringPattern(key) + v + tail, key, outCap) == Some(Truncate(v, outCap - 1))
  {
    var pat := StringPattern(key);
    var json := lead + pat + v + tail;
    var p := |lead|;
    assert json[p..p + |pat|] == pat;
    forall j | 0 <= j < p ensures !OccursAt(json, pat, j) {
      assert json[j] == lead[j] != pat[0];
    }
    IndexOfIs(json, pat, p);
    assert json[p + |pat|..p + |pat| + |v|] == v;
    assert json[p + |pat| + |v|] == tail[0];
    ExtractStringFinds(json, key, outCap, p, v);
  }

  /**
   * extractJsonInt's answer: strtol on the text after the first `"key":` and
   * its blanks; None when the key is missing or no digits follow.
   */
  function ExtractInt(json: string, key: string): (r: Option<int>)
    ensures r.Some? ==> LONG_MIN <= r.value <= LONG_MAX
    ensures IndexOf(json, IntPattern(key)).None? ==> r.None?
  {
    var pat := IntPattern(key);
    match IndexOf(json, pat)
    case None => None
    case Some(p) => NumberAt(json, p + |pat|)
  }

  /** strtol on the text from index at on, after its blanks; None when no digits follow. */
  function NumberAt(json: string, at: nat): (r: Option<int>)
    ensures r.Some? ==> LONG_MIN <= r.value <= LONG_MAX
  {
    var s := SkipBlanks(json, at);
    if s > |json| then None
    else
      var n := StrToLong(json[s..]);
      if n.1 == 0 then None else Some(n.0)
  }

  /** The `while (*start == ' ') start++` loop. */
  method SkipBlankRun(json: string, i: nat) returns (j: nat)
    requires i <= |json|
    ensures j == SkipBlanks(json, i)
  {
    j := i;
    while At(json, j) == ' '
      invariant i <= j <= |json|
      invariant SkipBlanks(json, j) == SkipBlanks(json, i)
      decreases |json| - j
    {
      j := j + 1;
    }
  }

  /** extractJsonInt. */
  method ExtractJsonInt(json: string, key: string) returns (found: bool, value: int)
    ensures found == ExtractInt(json, key).Some?
    ensures found ==> value == ExtractInt(json, key).value
  {
    var pat := IntPattern(key);
    var p := IndexOf(json, pat);
    if p.None? {
      return false, 0;
    }
    var start := SkipBlankRun(json, p.value + |pat|);
    var (v, used) := StrToLong(json[start..]);
    if used == 0 {
      return false, 0;
    }
    found, value := true, v;
  }

  /** A decimal number right after the first `"key":` is read back. */
  lemma ExtractIntFinds(json: string, key: string, p: nat, x: int)
    requires LONG_MIN <= x <= LONG_MAX
    requires IndexOf(json, IntPattern(key)) == Some(p)
    requires var s := p + |IntPattern(key)|;
      s + |SignedDecimal(x)| <= |json| && json[s..s + |SignedDecimal(x)|] == SignedDecimal(x) &&
      !IsDigit(At(json, s + |SignedDecimal(x)|))
    ensures ExtractInt(json, key) == Some(x)
  {
    var s := p + |IntPattern(key)|;
    var d := SignedDecimal(x);
    assert json[s] == d[0];
    assert d[0] != ' ' by {
      if x >= 0 { assert IsDigit(Decimal(x)[0]); }
    }
    NoBlankHere(json, s);
    var rest := json[s..];
    assert rest[..|d|] == d;
    assert At(rest, |d|) == At(json, s + |d|);
    StrToLongDecimalPrefix(rest, x);
    NumberAtIs(json, s, s);
    ExtractIntIs(json, key, p);
  }

  /** SkipBlanks stays put on a character that is not a blank. */
  lemma NoBlankHere(json: string, s: nat)
    requires s < |json| && json[s] != ' '
    ensures SkipBlanks(json, s) == s
  {
  }

  /** ExtractInt reads the number after the first occurrence of `"key":`. */
  lemma ExtractIntIs(json: string, key: string, p: nat)
    requires IndexOf(json, IntPattern(key)) == Some(p)
    ensures ExtractInt(json, key) == NumberAt(json, p + |IntPattern(key)|)
  {
  }

  /** NumberAt once the blanks are skipped to s. */
  lemma NumberAtIs(json: string, at: nat, s: nat)
    requires s == SkipBlanks(json, at) && s <= |json| && StrToLong(json[s..]).1 != 0
    ensures NumberAt(json, at) == Some(StrToLong(json[s..]).0)
  {
  }

  // -------------------------------------------------- string arrays ("a")

  /** CMD_MAX_ARG_LEN - 1: the most chars an argument keeps. */
  const ARG_TEXT_MAX: nat := CMD_MAX_ARG_LEN - 1

  /**
   * One element of a string array: its text (truncated to 162 chars), the
   * index where the next element would start, and whether a ',' said that
   * one more follows.
   */
  datatype Element = Element(text: string, next: nat, more: bool)

  /**
   * The element at index i: a '"', the text up to the next '"', then blanks
   * and either ',' and blanks (more follow) or anything else (the list ends).
   */
  function ReadElement(json: string, i: nat): (r: Option<Element>)
    ensures r.Some? ==> i < r.value.next && |r.value.text| <= ARG_TEXT_MAX && '"' !in r.value.text
  {
    if At(json, i) != '"' then None
    else
      match FindChar(json, '"', i + 1)
      case None => None
      case Some(e) =>
        var text := Truncate(json[i + 1..e], ARG_TEXT_MAX);
        assert forall k :: 0 <= k < |text| ==> text[k] == json[i + 1 + k];
        var j := SkipBlanks(json, e + 1);
        if At(json, j) == ',' then Some(Element(text, SkipBlanks(json, j + 1), true))
        else Some(Element(text, j, false))
  }

  /**
   * The elements extractJsonStringArray collects from index i on, at most
   * room of them.
   */
  function Elements(json: string, i: nat, room: nat): (r: seq<string>)
    ensures |r| <= room
    ensures forall k :: 0 <= k < |r| ==> |r[k]| <= ARG_TEXT_MAX && '"' !in r[k]
    decreases room
  {
    if room == 0 then []
    else
      match ReadElement(json, i)
      case None => []
      case Some(el) => if el.more then [el.text] + Elements(json, el.next, room - 1) else [el.text]
  }

  /**
   * extractJsonStringArray's answer: None (it returns -1) when `"key":[` is
   * missing, [] for an array that starts with ']', else the elements.
   */
  function ExtractArray(json: string, key: string, maxCount: nat): (r: Option<seq<string>>)
    ensures r.None? <==> IndexOf(json, ArrayPattern(key)).None?
    ensures r.Some? ==> |r.value| <= maxCount
    ensures r.Some? ==> forall k :: 0 <= k < |r.value| ==> |r.value[k]| <= ARG_TEXT_MAX
  {
    var pat := ArrayPattern(key);
    match IndexOf(json, pat)
    case None => None
    case Some(p) =>
      var s := SkipBlanks(json, p + |pat|);
      if At(json, s) == ']' then Some([]) else Some(Elements(json, s, maxCount))
  }

  /** The elements an array may carry: at most 162 chars and no quote. */
  predicate PlainArgs(args: seq<string>)
  {
    forall k :: 0 <= k < |args| ==> |args[k]| <= ARG_TEXT_MAX && '"' !in args[k]
  }

  /** Where json spells Quote(a), its first and last chars are quotes and a lies between. */
  lemma QuotedParts(json: string, i: nat, a: string)
    requires i + |a| + 2 <= |json| && json[i..i + |a| + 2] == Quote(a)
    ensures json[i] == '"' && json[i + |a| + 1] == '"' && json[i + 1..i + 1 + |a|] == a
  {
    var w := json[i..i + |a| + 2];
    assert json[i] == w[0];
    assert json[i + |a| + 1] == w[|a| + 1];
    forall k | 0 <= k < |a| ensures json[i + 1 + k] == a[k] {
      assert json[i + 1 + k] == w[1 + k];
    }
    assert json[i + 1..i + 1 + |a|] == a;
  }

  /** The closing quote of a quote-free text is the next quote. */
  lemma ClosingQuote(json: string, i: nat, a: string)
    requires '"' !in a && i + |a| + 1 < |json| && json[i + 1..i + 1 + |a|] == a && json[i + |a| + 1] == '"'
    ensures FindChar(json, '"', i + 1) == Some(i + 1 + |a|)
  {
    forall j | i + 1 <= j < i + 1 + |a| ensures json[j] != '"' {
      assert json[j] == a[j - i - 1];
    }
    FindCharIs(json, '"', i + 1, i + 1 + |a|);
  }

  /** ReadElement once the closing quote and the char after it are known. */
  lemma ReadElementAtQuote(json: string, i: nat, e: nat, sep: char)
    requires At(json, i) == '"' && FindChar(json, '"', i + 1) == Some(e)
    requires e + 1 < |json| && json[e + 1] == sep && (sep == ',' || sep == ']')
    ensures ReadElement(json, i) == Some(Element(Truncate(json[i + 1..e], ARG_TEXT_MAX),
      if sep == ',' then SkipBlanks(json, e + 2) else e + 1, sep == ','))
  {
    NoBlankHere(json, e + 1);
  }

  /** A quoted text followed by ',' or ']' is read back as that text. */
  lemma ReadQuoted(json: string, i: nat, a: string, sep: char)
    requires |a| <= ARG_TEXT_MAX && '"' !in a && (sep == ',' || sep == ']')
    requires i + |a| + 2 < |json| && json[i..i + |a| + 2] == Quote(a) && json[i + |a| + 2] == sep
    ensures ReadElement(json, i) ==
      Some(Element(a, if sep == ',' then SkipBlanks(json, i + |a| + 3) else i + |a| + 2, sep == ','))
  {
    var e := i + 1 + |a|;
    QuotedParts(json, i, a);
    ClosingQuote(json, i, a);
    assert Truncate(json[i + 1..e], ARG_TEXT_MAX) == a;
    ReadElementAtQuote(json, i, e, sep);
  }

  /** The body of two or more arguments: the first quoted, then ',' and the rest. */
  lemma FrontSplit(args: seq<string>)
    requires |args| >= 2
    ensures JoinComma(QuoteAll(args)) + "]" == Quote(args[0]) + ("," + (JoinComma(QuoteAll(args[1..])) + "]"))
  {
    var q := QuoteAll(args);
    JoinCommaFront(q);
    QuoteAllTail(args);
    QuoteAllAt(args, 0);
    ConcatAssoc(q[0], ",", JoinComma(q[1..]), "]");
  }

  /** Dropping the first argument keeps the rest plain. */
  lemma PlainArgsTail(args: seq<string>)
    requires |args| >= 1 && PlainArgs(args)
    ensures PlainArgs(args[1..])
  {
    forall k | 0 <= k < |args| - 1 ensures |args[1..][k]| <= ARG_TEXT_MAX && '"' !in args[1..][k] {
      assert args[1..][k] == args[k + 1];
    }
  }

  /** json spells text from index i on. */
  predicate SliceIs(json: string, i: nat, text: string)
  {
    i + |text| <= |json| && json[i..i + |text|] == text
  }

  /**
   * json holds a well-formed array body of args from index i on: each
   * element quoted, followed by ',' when more follow and by ']' after the
   * last.
   */
  predicate BodyAt(json: string, i: nat, args: seq<string>)
    decreases |args|
  {
    if |args| == 0 then i < |json| && json[i] == ']'
    else
      var a := args[0];
      i + |a| + 3 <= |json| && json[i..i + |a| + 2] == Quote(a) &&
      if |args| == 1 then json[i + |a| + 2] == ']'
      else json[i + |a| + 2] == ',' && BodyAt(json, i + |a| + 3, args[1..])
  }

  /** An empty array body is the ']' alone. */
  lemma JoinedNone(json: string, i: nat, args: seq<string>)
    requires |args| == 0 && SliceIs(json, i, JoinComma(QuoteAll(args)) + "]")
    ensures BodyAt(json, i, args)
  {
    assert JoinComma(QuoteAll(args)) + "]" == "]";
    assert json[i] == json[i..i + 1][0];
  }

  /** One argument: its quoted text and the ']'. */
  lemma JoinedOne(json: string, i: nat, args: seq<string>)
    requires |args| == 1 && SliceIs(json, i, JoinComma(QuoteAll(args)) + "]")
    ensures BodyAt(json, i, args)
  {
    QuoteAllAt(args, 0);
    SliceParts(json, i, Quote(args[0]), "]");
  }

  /** Where json spells x, a ',' and rest, it spells each of them in turn. */
  lemma CommaSplit(json: string, i: nat, x: string, rest: string)
    requires SliceIs(json, i, x + ("," + rest))
    ensures SliceIs(json, i, x) && json[i + |x|] == ',' && SliceIs(json, i + |x| + 1, rest)
  {
    SliceParts(json, i, x, "," + rest);
    SliceParts(json, i + |x|, ",", rest);
    assert json[i + |x|] == json[i + |x|..i + |x| + 1][0];
  }

  /** More arguments: the first quoted, a ',' and the joined others. */
  lemma JoinedMore(json: string, i: nat, args: seq<string>)
    requires |args| >= 2 && SliceIs(json, i, JoinComma(QuoteAll(args)) + "]")
    ensures SliceIs(json, i, Quote(args[0])) && i + |args[0]| + 2 < |json| && json[i + |args[0]| + 2] == ','
    ensures SliceIs(json, i + |args[0]| + 3, JoinComma(QuoteAll(args[1..])) + "]")
  {
    FrontSplit(args);
    CommaSplit(json, i, Quote(args[0]), JoinComma(QuoteAll(args[1..])) + "]");
  }

  /** A first quoted element, a ',' and a body of the others make a body. */
  lemma BodyCons(json: string, i: nat, args: seq<string>)
    requires |args| >= 2 && SliceIs(json, i, Quote(args[0])) && i + |args[0]| + 2 < |json| && json[i + |args[0]| + 2] == ','
    requires BodyAt(json, i + |args[0]| + 3, args[1..])
    ensures BodyAt(json, i, args)
  {
  }

  /** The joined, quoted arguments and the ']' form a well-formed body. */
  lemma {:induction false} JoinedBody(json: string, i: nat, args: seq<string>)
    requires SliceIs(json, i, JoinComma(QuoteAll(args)) + "]")
    ensures BodyAt(json, i, args)
    decreases |args|
  {
    if |args| == 0 {
      JoinedNone(json, i, args);
    } else if |args| == 1 {
      JoinedOne(json, i, args);
    } else {
      JoinedMore(json, i, args);
      JoinedBody(json, i + |args[0]| + 3, args[1..]);
      BodyCons(json, i, args);
    }
  }

  /** After the first element and its ',' comes the body of the others. */
  lemma BodyRest(json: string, i: nat, args: seq<string>)
    requires |args| >= 2 && BodyAt(json, i, args)
    ensures BodyAt(json, i + |args[0]| + 3, args[1..])
  {
  }

  /** The body of one argument, `"a"]`, is read as that argument. */
  lemma ElementsOne(json: string, i: nat, args: seq<string>, room: nat)
    requires |args| == 1 && 1 <= room && PlainArgs(args) && BodyAt(json, i, args)
    ensures Elements(json, i, room) == args
  {
    ReadQuoted(json, i, args[0], ']');
  }

  /**
   * The body of two or more arguments: the first is read, and the reading
   * goes on at the body of the others.
   */
  lemma ElementsStep(json: string, i: nat, args: seq<string>, room: nat)
    requires |args| >= 2 && 1 <= room && PlainArgs(args) && BodyAt(json, i, args)
    ensures Elements(json, i, room) == [args[0]] + Elements(json, i + |args[0]| + 3, room - 1)
  {
    var a := args[0];
    var next := i + |a| + 3;
    ReadQuoted(json, i, a, ',');
    assert json[next] == json[next..next + |args[1]| + 2][0];
    NoBlankHere(json, next);
  }

  /** A list that is its head before the rest of the arguments is the arguments. */
  lemma ConsBack(args: seq<string>, r: seq<string>, t: seq<string>)
    requires |args| >= 1 && r == [args[0]] + t && t == args[1..]
    ensures r == args
  {
    assert args == [args[0]] + args[1..];
  }

  /** When the others are read back, so is the whole body. */
  lemma ElementsNext(json: string, i: nat, args: seq<string>, room: nat)
    requires |args| >= 2 && 1 <= room && PlainArgs(args) && BodyAt(json, i, args)
    requires Elements(json, i + |args[0]| + 3, room - 1) == args[1..]
    ensures Elements(json, i, room) == args
  {
    ElementsStep(json, i, args, room);
    ConsBack(args, Elements(json, i, room), Elements(json, i + |args[0]| + 3, room - 1));
  }

  /**
   * Reading a well-formed array body, `"a","b",..."]`, gives back its
   * elements when there is room for all of them.
   */
  lemma {:induction false} ElementsOf(json: string, i: nat, args: seq<string>, room: nat)
    requires 1 <= |args| <= room && PlainArgs(args) && BodyAt(json, i, args)
    ensures Elements(json, i, room) == args
    decreases |args|
  {
    if |args| == 1 {
      ElementsOne(json, i, args, room);
    } else {
      var next := i + |args[0]| + 3;
      BodyRest(json, i, args);
      PlainArgsTail(args);
      ElementsOf(json, next, args[1..], room - 1);
      ElementsNext(json, i, args, room);
    }
  }

  /** The first character of a non-empty body is the opening quote. */
  lemma BodyStartsQuoted(json: string, i: nat, args: seq<string>)
    requires |args| >= 1 && BodyAt(json, i, args)
    ensures i < |json| && json[i] == '"'
  {
    assert json[i] == json[i..i + |args[0]| + 2][0];
  }

  /** Reading starts at the first non-blank after `"key":[`: here at q itself. */
  lemma ExtractArrayAt(json: string, key: string, maxCount: nat, p: nat)
    requires IndexOf(json, ArrayPattern(key)) == Some(p)
    requires p + |ArrayPattern(key)| < |json| && json[p + |ArrayPattern(key)|] != ' '
    ensures var q := p + |ArrayPattern(key)|;
      ExtractArray(json, key, maxCount) ==
        if json[q] == ']' then Some([]) else Some(Elements(json, q, maxCount))
  {
    var q := p + |ArrayPattern(key)|;
    NoBlankHere(json, q);
    assert SkipBlanks(json, q) == q && At(json, q) == json[q];
  }

  /** A ']' straight after `"key":[` is the empty array. */
  lemma ExtractEmptyArray(json: string, key: string, maxCount: nat, p: nat, args: seq<string>)
    requires IndexOf(json, ArrayPattern(key)) == Some(p)
    requires |args| == 0 && BodyAt(json, p + |ArrayPattern(key)|, args)
    ensures ExtractArray(json, key, maxCount) == Some(args)
  {
    ExtractArrayAt(json, key, maxCount, p);
    assert args == [];
  }

  /** A well-formed body straight after `"key":[` is read element for element. */
  lemma ExtractFullArray(json: string, key: string, maxCount: nat, p: nat, args: seq<string>)
    requires IndexOf(json, ArrayPattern(key)) == Some(p)
    requires 1 <= |args| <= maxCount && PlainArgs(args)
    requires BodyAt(json, p + |ArrayPattern(key)|, args)
    ensures ExtractArray(json, key, maxCount) == Some(args)
  {
    var q := p + |ArrayPattern(key)|;
    BodyStartsQuoted(json, q, args);
    ExtractArrayAt(json, key, maxCount, p);
    ElementsOf(json, q, args, maxCount);
  }

  /**
   * After the first `"key":[`, a well-formed body is read back element for
   * element, and a bare ']' as no elements. With JoinedBody this is the
   * round trip with the rendering `"[" + JoinComma(QuoteAll(args)) + "]"`.
   */
  lemma ExtractArrayOf(json: string, key: string, maxCount: nat, p: nat, args: seq<string>)
    requires IndexOf(json, ArrayPattern(key)) == Some(p)
    requires |args| <= maxCount && PlainArgs(args)
    requires BodyAt(json, p + |ArrayPattern(key)|, args)
    ensures ExtractArray(json, key, maxCount) == Some(args)
  {
    if |args| == 0 {
      ExtractEmptyArray(json, key, maxCount, p, args);
    } else {
      ExtractFullArray(json, key, maxCount, p, args);
    }
  }

  /** extractJsonStringArray: the count (-1 when the key is missing) and the elements. */
  method ExtractJsonStringArray(json: string, key: string, maxCount: nat)
    returns (count: int, out: seq<string>)
    ensures ExtractArray(json, key, maxCount).None? ==> count == -1 && out == []
    ensures ExtractArray(json, key, maxCount).Some? ==>
      count == |out| && out == ExtractArray(json, key, maxCount).value
  {
    var pat := ArrayPattern(key);
    var p := IndexOf(json, pat);
    if p.None? {
      return -1, [];
    }
    var start := SkipBlankRun(json, p.value + |pat|);
    if At(json, start) == ']' {
      return 0, [];
    }
    count, out := CollectElements(json, start, maxCount);
  }

  /** Collecting one element that a ',' continues keeps the loop invariant. */
  lemma CollectMore(json: string, i: nat, room: nat, el: Element, was: seq<string>, all: seq<string>)
    requires room > 0 && ReadElement(json, i) == Some(el) && el.more
    requires was + Elements(json, i, room) == all
    ensures (was + [el.text]) + Elements(json, el.next, room - 1) == all
  {
    assert Elements(json, i, room) == [el.text] + Elements(json, el.next, room - 1);
  }

  /** Collecting the last element ends the list. */
  lemma CollectLast(json: string, i: nat, room: nat, el: Element, was: seq<string>, all: seq<string>)
    requires room > 0 && ReadElement(json, i) == Some(el) && !el.more
    requires was + Elements(json, i, room) == all
    ensures was + [el.text] == all
  {
  }

  /** The element loop of extractJsonStringArray, from index start. */
  method CollectElements(json: string, start: nat, maxCount: nat) returns (count: nat, out: seq<string>)
    requires start <= |json|
    ensures out == Elements(json, start, maxCount) && count == |out|
  {
    ghost var all := Elements(json, start, maxCount);
    var i: nat := start;
    var room := maxCount;
    count, out := 0, [];
    while room > 0
      invariant count + room == maxCount && count == |out|
      invariant i <= |json|
      invariant out + Elements(json, i, room) == all
    {
      var found, v, next, more := ReadElementAt(json, i);
      if !found {
        break;
      }
      if !more {
        CollectLast(json, i, room, Element(v, next, more), out, all);
        out := out + [v];
        count := count + 1;
        return;
      }
      CollectMore(json, i, room, Element(v, next, more), out, all);
      out := out + [v];
      count := count + 1;
      i := next;
      room := room - 1;
    }
    assert out + [] == out;
  }

  /**
   * One turn of that loop: the opening '"', strchr for the closing one, the
   * copy truncated to 162 chars, the blanks, and the ',' test.
   */
  method ReadElementAt(json: string, i: nat) returns (found: bool, v: string, next: nat, more: bool)
    requires i <= |json|
    ensures found == ReadElement(json, i).Some?
    ensures found ==> ReadElement(json, i) == Some(Element(v, next, more)) && next <= |json|
  {
    found, v, next, more := false, "", i, false;
    if At(json, i) != '"' {
      return;
    }
    var close := FindChar(json, '"', i + 1);
    if close.None? {
      return;
    }
    v := CopyArg(json, i + 1, close.value);
    found := true;
    next := SkipBlankRun(json, close.value + 1);
    more := At(json, next) == ',';
    if more {
      next := SkipBlankRun(json, next + 1);
    }
  }

  /** The memcpy of an element's text, its length clamped to CMD_MAX_ARG_LEN - 1. */
  method CopyArg(json: string, from: nat, close: nat) returns (v: string)
    requires from <= close <= |json|
    ensures v == Truncate(json[from..close], ARG_TEXT_MAX)
  {
    var len := close - from;
    if len >= CMD_MAX_ARG_LEN {
      len := CMD_MAX_ARG_LEN - 1;
    }
    v := json[from..from + len];
    assert v == json[from..close][..len];
  }

  /** `[` followed by the quoted args separated by ',' and then `]`. */
  function ArgsText(args: seq<string>): string
  {
    "[" + JoinComma(QuoteAll(args)) + "]"
  }

  // ------------------------------------------------------- command packets

  /** The fields parseCommand fills in. */
  datatype CommandPacket = CommandPacket(
    cmd: string, args: seq<string>, nodeId: string, timestamp: nat, crc: string)

  /** The JSON a command's CRC covers: keys a < cmd < n < t < ts, no "c". */
  function CommandBody(p: CommandPacket): string
  {
    "{\"a\":" + ArgsText(p.args) + ",\"cmd\":\"" + p.cmd + "\",\"n\":\"" + p.nodeId
      + "\",\"t\":\"cmd\",\"ts\":" + Decimal(p.timestamp) + "}"
  }

  /** The marker every command packet must contain. */
  const TYPE_CMD: string := "\"t\":\"cmd\""

  /** The fields parseCommand reads from the text, before the CRC check. */
  function CommandFields(json: string): (r: Option<CommandPacket>)
    ensures r.Some? ==>
      |r.value.cmd| < CMD_MAX_NAME_LEN && |r.value.crc| < CRC_TEXT_CAP &&
      |r.value.nodeId| < NODE_ID_MAX_LEN && IsU32(r.value.timestamp) &&
      |r.value.args| <= CMD_MAX_ARGS &&
      forall k :: 0 <= k < |r.value.args| ==> |r.value.args[k]| < CMD_MAX_ARG_LEN
  {
    if IndexOf(json, TYPE_CMD).None? then None
    else match ExtractString(json, "cmd", CMD_MAX_NAME_LEN)
      case None => None
      case Some(cmd) =>
        match ExtractString(json, "c", CRC_TEXT_CAP)
        case None => None
        case Some(crc) =>
          var n := ExtractString(json, "n", NODE_ID_MAX_LEN);
          match ExtractInt(json, "ts")
          case None => None
          case Some(ts) =>
            var args := ExtractArray(json, "a", CMD_MAX_ARGS);
            Some(CommandPacket(cmd, if args.Some? then args.value else [],
              if n.Some? then n.value else "", U32(ts), crc))
  }

  /** parseCommand: the packet when it is accepted, None when it returns false. */
  function ParseCommandSpec(data: string): (r: Option<CommandPacket>)
  {
    if |data| == 0 || |data| > LORA_MAX_PAYLOAD then None
    else
      match CommandFields(CStr(data))
      case None => None
      case Some(p) => if CrcText(CommandBody(p)) == p.crc then Some(p) else None
  }

  /** The rendered args grow by one separator and one quoted arg. */
  lemma AppendQuoted(args: seq<string>, i: nat)
    requires i < |args|
    ensures JoinComma(QuoteAll(args[..i + 1])) ==
      if i == 0 then Quote(args[0]) else JoinComma(QuoteAll(args[..i])) + "," + Quote(args[i])
  {
    assert args[..i + 1][..i] == args[..i];
    assert QuoteAll(args[..i + 1]) == QuoteAll(args[..i]) + [Quote(args[i])];
    JoinCommaSnoc(QuoteAll(args[..i]), Quote(args[i]));
  }

  /** One more quoted arg, after a ',' unless it is the first, extends the rendering. */
  lemma ArgsStep(args: seq<string>, i: nat, text: string)
    requires i < |args| && text == "[" + JoinComma(QuoteAll(args[..i]))
    ensures text + (if i > 0 then "," else "") + Quote(args[i]) == "[" + JoinComma(QuoteAll(args[..i + 1]))
  {
    AppendQuoted(args, i);
    if i > 0 {
      assert text + "," + Quote(args[i]) == "[" + (JoinComma(QuoteAll(args[..i])) + "," + Quote(args[i]));
    }
  }

  /** Renders the args array into argsBuf one quoted element at a time. */
  method BuildArgsText(args: seq<string>) returns (text: string)
    ensures text == ArgsText(args)
  {
    text := "[";
    var i := 0;
    while i < |args|
      invariant 0 <= i <= |args|
      invariant text == "[" + JoinComma(QuoteAll(args[..i]))
    {
      ArgsStep(args, i, text);
      var sep := if i > 0 then "," else "";
      text := text + sep + Quote(args[i]);
      i := i + 1;
    }
    assert args[..|args|] == args;
    text := text + "]";
  }

  /**
   * parseCommand: checks the length, the `"t":"cmd"` marker and the fields,
   * rebuilds the canonical body and accepts only when "%08x" of its CRC is
   * exactly the received "c".
   */
  method ParseCommand(data: string) returns (ok: bool, pkt: CommandPacket)
    ensures ok == ParseCommandSpec(data).Some?
    ensures ok ==> pkt == ParseCommandSpec(data).value
  {
    pkt := CommandPacket("", [], "", 0, "");
    if |data| == 0 || |data| > LORA_MAX_PAYLOAD {
      return false, pkt;
    }
    var json := CStr(data);
    var found;
    found, pkt := ReadCommandFields(json);
    if !found {
      return false, pkt;
    }
    var body := RebuildBody(pkt);
    var computedHex := ComputeCrcText(body);
    ok := computedHex == pkt.crc;
  }

  /** crc32_compute followed by "%08x". */
  method ComputeCrcText(body: string) returns (hex: string)
    ensures hex == CrcText(body)
  {
    var computed := Crc32.Compute(body);
    hex := Hex8(computed as nat);
  }

  /** The field extraction of parseCommand, up to the CRC check. */
  method ReadCommandFields(json: string) returns (found: bool, pkt: CommandPacket)
    ensures found == CommandFields(json).Some?
    ensures found ==> pkt == CommandFields(json).value
  {
    pkt := CommandPacket("", [], "", 0, "");
    if IndexOf(json, TYPE_CMD).None? {
      return false, pkt;
    }
    var cmd := ExtractString(json, "cmd", CMD_MAX_NAME_LEN);
    if cmd.None? {
      return false, pkt;
    }
    var crc := ExtractString(json, "c", CRC_TEXT_CAP);
    if crc.None? {
      return false, pkt;
    }
    var n := ExtractString(json, "n", NODE_ID_MAX_LEN);
    var nodeId := if n.Some? then n.value else "";
    var hasTs, ts := ExtractJsonInt(json, "ts");
    if !hasTs {
      return false, pkt;
    }
    var count, args := ExtractJsonStringArray(json, "a", CMD_MAX_ARGS);
    if count < 0 {
      count := 0;
    }
    found, pkt := true, CommandPacket(cmd.value, args, nodeId, U32(ts), crc.value);
  }

  /** The canonical body, keys in order and without "c", as crcBuf receives it. */
  method RebuildBody(p: CommandPacket) returns (body: string)
    ensures body == CommandBody(p)
  {
    var argsText := BuildArgsText(p.args);
    body := "{\"a\":" + argsText + ",\"cmd\":\"" + p.cmd + "\",\"n\":\"" + p.nodeId
      + "\",\"t\":\"cmd\",\"ts\":" + Decimal(p.timestamp) + "}";
  }

  /**
   * parseCommand's rejections: an empty or over-long packet, a missing
   * `"t":"cmd"`, or an unextractable "cmd", "c" or "ts".
   */
  lemma ParseCommandRejects(data: string)
    ensures |data| == 0 || |data| > LORA_MAX_PAYLOAD ==> ParseCommandSpec(data).None?
    ensures 0 < |data| <= LORA_MAX_PAYLOAD && IndexOf(CStr(data), TYPE_CMD).None? ==>
      ParseCommandSpec(data).None?
    ensures ExtractString(CStr(data), "cmd", CMD_MAX_NAME_LEN).None? ==> ParseCommandSpec(data).None?
    ensures ExtractString(CStr(data), "c", CRC_TEXT_CAP).None? ==> ParseCommandSpec(data).None?
    ensures ExtractInt(CStr(data), "ts").None? ==> ParseCommandSpec(data).None?
  {
  }

  /**
   * An accepted packet has a node id ("" when "n" is missing), at most four
   * arguments (none when "a" is missing or malformed), and a "c" that is
   * the "%08x" CRC of its canonical body.
   */
  lemma ParseCommandAccepted(data: string)
    requires ParseCommandSpec(data).Some?
    ensures var p := ParseCommandSpec(data).value; var json := CStr(data);
      0 < |data| <= LORA_MAX_PAYLOAD &&
      |p.args| <= CMD_MAX_ARGS &&
      (ExtractString(json, "n", NODE_ID_MAX_LEN).None? ==> p.nodeId == "") &&
      (ExtractArray(json, "a", CMD_MAX_ARGS).None? ==> p.args == []) &&
      HexValue(p.crc) == Crc32.CrcValue(CommandBody(p))
  {
  }

  /** The check is exact and case-sensitive: a "c" not in lower-case hex never passes. */
  lemma ParseCommandRejectsUpperHex(data: string, k: nat)
    requires 0 < |data| <= LORA_MAX_PAYLOAD
    requires CommandFields(CStr(data)).Some?
    requires k < |CommandFields(CStr(data)).value.crc|
    requires !IsLowerHex(CommandFields(CStr(data)).value.crc[k])
    ensures ParseCommandSpec(data).None?
  {
  }

  /**
   * parseCommand accepts exactly when its fields can be read and "%08x" of
   * the CRC of the rebuilt body equals the received "c".
   */
  lemma ParseCommandIff(data: string)
    requires 0 < |data| <= LORA_MAX_PAYLOAD
    ensures ParseCommandSpec(data).Some? <==>
      CommandFields(CStr(data)).Some? &&
      Hex8(Crc32.CrcValue(CommandBody(CommandFields(CStr(data)).value))) ==
        CommandFields(CStr(data)).value.crc
  {
  }

  // ------------------------------------------------------------------- ACKs

  /** The command id "%u_%.4s": the timestamp and up to four chars of the CRC text. */
  function CommandId(ts: nat, cmdCrc: string): (r: string)
    ensures |Decimal(ts)| + 1 <= |r| <= |Decimal(ts)| + 5
    ensures r[..|Decimal(ts)| + 1] == Decimal(ts) + "_"
  {
    Decimal(ts) + "_" + Truncate(CStr(cmdCrc), 4)
  }

  /** The JSON an ACK's CRC covers: keys id < n < t (or id < n < p < t), no "c". */
  function AckBody(id: string, nodeId: string, payload: string): string
  {
    if payload == "" then "{\"id\":\"" + id + "\",\"n\":\"" + nodeId + "\",\"t\":\"ack\"}"
    else "{\"id\":\"" + id + "\",\"n\":\"" + nodeId + "\",\"p\":" + payload + ",\"t\":\"ack\"}"
  }

  /** The ACK JSON on the wire: "c" comes first, then the body's members. */
  function AckWire(id: string, nodeId: string, payload: string): string
  {
    var body := AckBody(id, nodeId, payload);
    "{\"c\":\"" + CrcText(body) + "\"," + body[1..]
  }

  /**
   * buildAckPacket: the bytes written, "" when it returns 0. It fails exactly
   * when the JSON and its four blanks do not fit below bufCap, or when
   * bufCap - 4 is too large for the (int) cast and turns negative.
   */
  function BuildAckPacket(bufCap: nat, ts: nat, cmdCrc: string, nodeId: string): (r: string)
    requires 4 <= bufCap && IsU32(bufCap)
    ensures var w := AckWire(CommandId(ts, cmdCrc), nodeId, "");
      r == "" <==> bufCap - 4 > LONG_MAX || |w| + 4 >= bufCap
    ensures r != "" ==> |r| < bufCap && r == PADDING + AckWire(CommandId(ts, cmdCrc), nodeId, "")
  {
    var w := AckWire(CommandId(ts, cmdCrc), nodeId, "");
    if |w| >= SizeAsInt(bufCap - 4) then "" else PADDING + w
  }

  /**
   * buildAckPacketWithPayload: a missing (None) or empty payload gives the
   * plain ACK; otherwise the body with "p" must stay below 250 chars and the
   * packet below bufCap.
   */
  function BuildAckPacketWithPayload(bufCap: nat, ts: nat, cmdCrc: string, nodeId: string,
                                     payload: Option<string>): (r: string)
    requires 4 <= bufCap && IsU32(bufCap)
    ensures payload.None? || payload.value == "" ==> r == BuildAckPacket(bufCap, ts, cmdCrc, nodeId)
    ensures payload.Some? && payload.value != "" ==>
      var body := AckBody(CommandId(ts, cmdCrc), nodeId, payload.value);
      var w := AckWire(CommandId(ts, cmdCrc), nodeId, payload.value);
      (r == "" <==> |body| >= LORA_MAX_PAYLOAD || bufCap - 4 > LONG_MAX || |w| + 4 >= bufCap) &&
      (r != "" ==> |r| < bufCap && r == PADDING + w)
  {
    if payload.None? || payload.value == "" then BuildAckPacket(bufCap, ts, cmdCrc, nodeId)
    else
      var id := CommandId(ts, cmdCrc);
      if |AckBody(id, nodeId, payload.value)| >= LORA_MAX_PAYLOAD then ""
      else
        var w := AckWire(id, nodeId, payload.value);
        if |w| >= SizeAsInt(bufCap - 4) then "" else PADDING + w
  }

  /**
   * An ACK is built or not; when built it is below bufCap, starts with the
   * four blanks, and "c" - first on the wire - is found by the receiver's
   * extractor and holds the CRC of the body without "c".
   */
  lemma AckPacketShape(bufCap: nat, ts: nat, cmdCrc: string, nodeId: string, payload: Option<string>)
    requires 4 <= bufCap && IsU32(bufCap)
    ensures var r := BuildAckPacketWithPayload(bufCap, ts, cmdCrc, nodeId, payload);
      var pl := if payload.None? then "" else payload.value;
      var body := AckBody(CommandId(ts, cmdCrc), nodeId, pl);
      r != "" ==>
        |r| < bufCap && r[..4] == PADDING &&
        r[4..] == AckWire(CommandId(ts, cmdCrc), nodeId, pl) &&
        ExtractString(r, "c", CRC_TEXT_CAP) == Some(CrcText(body)) &&
        (pl != "" ==> |body| < LORA_MAX_PAYLOAD)
  {
    var r := BuildAckPacketWithPayload(bufCap, ts, cmdCrc, nodeId, payload);
    var pl := if payload.None? then "" else payload.value;
    var body := AckBody(CommandId(ts, cmdCrc), nodeId, pl);
    if r != "" {
      var w := AckWire(CommandId(ts, cmdCrc), nodeId, pl);
      assert r == PADDING + w;
      AckCrcFound(CrcText(body), body[1..]);
    }
  }

  /** The receiver reads the 8 hex digits right after `{"c":"` of an ACK back. */
  lemma AckCrcFound(h: string, rest: string)
    requires |h| == 8 && forall i :: 0 <= i < |h| ==> IsLowerHex(h[i])
    ensures ExtractString(PADDING + ("{\"c\":\"" + h + "\"," + rest), "c", CRC_TEXT_CAP) == Some(h)
  {
    var lead := PADDING + "{";
    assert PADDING + ("{\"c\":\"" + h + "\"," + rest) == lead + StringPattern("c") + h + ("\"," + rest);
    assert '"' !in lead;
    assert '"' !in h by {
      forall k | 0 <= k < 8 ensures h[k] != '"' { assert IsLowerHex(h[k]); }
    }
    ExtractStringAfter(lead, "c", h, "\"," + rest, CRC_TEXT_CAP);
  }

  /** A missing or empty payload gives exactly the plain ACK. */
  lemma AckWithoutPayload(bufCap: nat, ts: nat, cmdCrc: string, nodeId: string)
    requires 4 <= bufCap && IsU32(bufCap)
    ensures BuildAckPacketWithPayload(bufCap, ts, cmdCrc, nodeId, None) ==
      BuildAckPacket(bufCap, ts, cmdCrc, nodeId)
    ensures BuildAckPacketWithPayload(bufCap, ts, cmdCrc, nodeId, Some("")) ==
      BuildAckPacket(bufCap, ts, cmdCrc, nodeId)
  {
  }
}
