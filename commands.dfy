// The command glue of data_log/commands.cpp: the sketch's parameter table,
// the handlers of the parameter and echo commands (each answers by filling
// the shared response buffer, modelled as the text it returns), the
// registration table of commandsInit and the sorted list of command names
// that getcmds reports.
//
// The sketch's globals live in one byte-addressed RAM (Memory): the NodeConfig
// record cfg and the globals the parameter table points at, at the addresses
// below (the linker's choice in the firmware; any disjoint placement will do).

module Commands {
  import opened Text
  import opened Memory
  import Config
  import Packets
  import Params
  import Registry

  /** LORA_MAX_PAYLOAD minus the 79 bytes an ACK with payload adds around it. */
  const ACK_PAYLOAD_OVERHEAD: nat := 4 + 6 + 8 + 8 + 15 + 6 + Packets.NODE_ID_MAX_LEN + 5 + 11
  const CMD_RESPONSE_BUF_SIZE: nat := Packets.LORA_MAX_PAYLOAD - ACK_PAYLOAD_OVERHEAD

  const NODE_VERSION: nat := 1

  // RAM layout of the globals.
  const CFG_ADDR: nat := 0             // NodeConfig cfg, 20 bytes
  const NODE_ID_ADDR: nat := 20        // char nodeId[16]
  const NODE_VERSION_ADDR: nat := 36   // uint16_t nodeVersion
  const LORA_BW_ADDR: nat := 38        // uint8_t loraBW
  const RX_DUTY_ADDR: nat := 39        // uint8_t rxDutyPercent
  const SF_ADDR: nat := 40             // uint8_t spreadFactor
  const TX_POWER_ADDR: nat := 41       // int8_t txPower
  const RAM_SIZE: nat := 42

  // The onSet callbacks.
  const ON_SET_TX_PWR: nat := 0
  const ON_SET_RADIO: nat := 1

  /** The parameter table, in the order the firmware declares it. */
  const PARAM_TABLE: seq<Params.ParamDef> := [
    Params.ParamDef("bw", Params.UInt8, LORA_BW_ADDR, None, 0, 2, true, Some(ON_SET_RADIO), Config.OFF_BW),
    Params.ParamDef("nodeid", Params.Str, NODE_ID_ADDR, None, 0, 0, false, None, Params.CFG_OFFSET_NONE),
    Params.ParamDef("nodev", Params.UInt16, NODE_VERSION_ADDR, None, 0, 0, false, None, Params.CFG_OFFSET_NONE),
    Params.ParamDef("rxduty", Params.UInt8, RX_DUTY_ADDR, None, 0, 100, true, None, Config.OFF_RX_DUTY),
    Params.ParamDef("sf", Params.UInt8, SF_ADDR, None, 7, 12, true, Some(ON_SET_RADIO), Config.OFF_SF),
    Params.ParamDef("txpwr", Params.Int8, TX_POWER_ADDR, None, -17, 22, true, Some(ON_SET_TX_PWR), Config.OFF_TX_POWER)
  ]

  /** Every row's storage lies in RAM and every persisted field in the record. */
  lemma TableValid()
    ensures Params.ValidTable(PARAM_TABLE, RAM_SIZE)
  {
    forall i | 0 <= i < |PARAM_TABLE|
      ensures Params.ValidDef(PARAM_TABLE[i], RAM_SIZE)
    {
    }
  }

  /** The names are strictly ascending, as the declaration's comment demands. */
  lemma TableSorted()
    ensures Params.Sorted(PARAM_TABLE)
  {
    assert StrLess("bw", "nodeid");
    assert StrLess("nodeid", "nodev") by {
      assert "nodeid"[1..] == "odeid" && "nodev"[1..] == "odev";
      assert "odeid"[1..] == "deid" && "odev"[1..] == "dev";
      assert "deid"[1..] == "eid" && "dev"[1..] == "ev";
      assert "eid"[1..] == "id" && "ev"[1..] == "v";
      assert StrLess("id", "v");
    }
    assert StrLess("nodev", "rxduty");
    assert StrLess("rxduty", "sf");
    assert StrLess("sf", "txpwr");
  }

  /** So getparam and setparam find each row by its own name. */
  lemma EveryRowFound(i: nat)
    requires i < |PARAM_TABLE|
    ensures Params.IndexOfName(PARAM_TABLE, PARAM_TABLE[i].name) == i
  {
    TableSorted();
    Params.SortedFindsEveryRow(PARAM_TABLE, i);
  }

  // ---------------------------------------------------------------------
  // Handlers
  // ---------------------------------------------------------------------

  const ECHO_EMPTY: string := "{\"r\":\"\"}"
  const MISSING_NAME: string := "{\"e\":\"missing param name\"}"
  const USAGE: string := "{\"e\":\"usage: name value\"}"
  const SAVED: string := "{\"r\":\"saved\"}"
  const UNCHANGED: string := "{\"r\":\"unchanged\"}"

  /** handleEcho's answer: {"r":""} without a (non-empty) argument, else {"r":"<args[0]>"}, cut to the buffer. */
  function EchoResponse(args: seq<string>): (r: string)
    ensures |r| < CMD_RESPONSE_BUF_SIZE
  {
    if |args| < 1 || args[0] == "" then ECHO_EMPTY
    else Truncate("{\"r\":\"" + args[0] + "\"}", CMD_RESPONSE_BUF_SIZE - 1)
  }

  /** handleEcho. */
  method Echo(args: seq<string>) returns (response: string)
    ensures response == EchoResponse(args)
  {
    if |args| < 1 || args[0] == "" {
      return ECHO_EMPTY;
    }
    response := Truncate("{\"r\":\"" + args[0] + "\"}", CMD_RESPONSE_BUF_SIZE - 1);
  }

  /**
   * An argument the command parser can deliver (shorter than
   * CMD_MAX_ARG_LEN, no quote) is echoed whole: reading "r" back out of
   * the answer gives the argument, or "" when there was none.
   */
  lemma EchoRoundTrip(args: seq<string>)
    requires |args| >= 1 ==> |args[0]| < Packets.CMD_MAX_ARG_LEN && '"' !in args[0]
    ensures var r := EchoResponse(args);
      Packets.ExtractString(r, "r", Packets.CMD_MAX_ARG_LEN) == Some(if |args| < 1 then "" else args[0])
  {
    var v := if |args| < 1 then "" else args[0];
    var r := "{" + Packets.StringPattern("r") + v + "\"}";
    assert r == "{\"r\":\"" + v + "\"}";
    assert EchoResponse(args) == r;
    Packets.ExtractStringAfter("{", "r", v, "\"}", Packets.CMD_MAX_ARG_LEN);
  }

  /** handleGetParam's answer: an error without a name, else paramGet's. */
  function GetParamResponse(m: seq<byte>, args: seq<string>): (r: string)
    requires |m| == RAM_SIZE
    ensures |args| < 1 ==> r == MISSING_NAME
  {
    TableValid();
    if |args| < 1 then MISSING_NAME else Params.Get(PARAM_TABLE, m, args[0], CMD_RESPONSE_BUF_SIZE)
  }

  /** handleGetParam. */
  method GetParam(mem: array<byte>, args: seq<string>) returns (response: string)
    requires mem.Length == RAM_SIZE
    ensures response == GetParamResponse(mem[..], args)
  {
    if |args| < 1 {
      return MISSING_NAME;
    }
    TableValid();
    response := Params.ParamGet(PARAM_TABLE, mem, args[0], CMD_RESPONSE_BUF_SIZE);
  }

  /** getparam of a row's own name answers {<name>:<value>} whenever that fits the response buffer. */
  lemma GetParamOfRow(m: seq<byte>, i: nat)
    requires |m| == RAM_SIZE && i < |PARAM_TABLE|
    ensures Params.Readable(PARAM_TABLE[i], |m|) && var kv := Params.KV(PARAM_TABLE[i], m);
      GetParamResponse(m, [PARAM_TABLE[i].name]) == (if |kv| + 3 <= CMD_RESPONSE_BUF_SIZE then "{" + kv + "}" else "")
  {
    TableValid();
    EveryRowFound(i);
    Params.GetShape(PARAM_TABLE, m, PARAM_TABLE[i].name, CMD_RESPONSE_BUF_SIZE);
  }

  /** handleSetParam's effect: a usage error that changes nothing without two arguments, else paramSet's. */
  function SetParamSpec(m: seq<byte>, args: seq<string>): (r: Params.SetResult)
    requires |m| == RAM_SIZE
    ensures |r.mem| == |m|
    ensures |args| < 2 ==> r == Params.SetResult(m, [], USAGE)
  {
    TableValid();
    if |args| < 2 then Params.SetResult(m, [], USAGE)
    else Params.SetSpec(PARAM_TABLE, m, args[0], args[1], CMD_RESPONSE_BUF_SIZE)
  }

  /** handleSetParam: the answer and the onSet callbacks it invoked. */
  method SetParam(mem: array<byte>, args: seq<string>) returns (response: string, calls: seq<nat>)
    requires mem.Length == RAM_SIZE
    modifies mem
    ensures var r := SetParamSpec(old(mem[..]), args);
      mem[..] == r.mem && calls == r.calls && response == r.response
  {
    if |args| < 2 {
      return USAGE, [];
    }
    TableValid();
    response, calls := Params.Set(PARAM_TABLE, mem, args[0], args[1], CMD_RESPONSE_BUF_SIZE);
  }

  /**
   * A setparam that stores answers exactly what a getparam of the same
   * name answers afterwards, and leaves every other byte of RAM alone.
   */
  lemma SetThenGet(m: seq<byte>, args: seq<string>)
    requires |m| == RAM_SIZE && |args| >= 2
    requires var idx := Params.IndexOfName(PARAM_TABLE, args[0]);
      idx >= 0 && PARAM_TABLE[idx].writable && PARAM_TABLE[idx].ptype != Params.Str &&
      !Params.OutOfRange(PARAM_TABLE[idx], args[1])
    ensures var r := SetParamSpec(m, args);
      r.response == GetParamResponse(r.mem, args[..1])
    ensures var r := SetParamSpec(m, args);
      var p := PARAM_TABLE[Params.IndexOfName(PARAM_TABLE, args[0])];
      forall k :: 0 <= k < |m| && !(p.ptr <= k < p.ptr + Params.Width(p.ptype)) ==> r.mem[k] == m[k]
  {
    TableValid();
    Params.SetStores(PARAM_TABLE, m, args[0], args[1], CMD_RESPONSE_BUF_SIZE);
  }

  /** atoi on the 32-bit node: strtol's value, saturated to the int range. */
  function Atoi(s: string): (x: int)
    ensures LONG_MIN <= x <= LONG_MAX
  {
    StrToLong(s).0
  }

  /** The offset of getparams and getcmds: 0 without an argument, else atoi of the first. */
  function Offset(args: seq<string>): (x: int)
    ensures LONG_MIN <= x <= LONG_MAX
    ensures |args| == 0 ==> x == 0
  {
    if |args| >= 1 then Atoi(args[0]) else 0
  }

  /** An offset sent as decimal text arrives as that number. */
  lemma OffsetOfDecimal(x: int)
    requires LONG_MIN <= x <= LONG_MAX
    ensures Offset([SignedDecimal(x)]) == x
  {
    StrToLongDecimal(x);
  }

  /** handleGetParams. */
  method GetParams(mem: array<byte>, args: seq<string>) returns (response: string)
    requires mem.Length == RAM_SIZE
    ensures Params.ValidTable(PARAM_TABLE, mem.Length) && response == Params.ListSpec(PARAM_TABLE, mem[..], Offset(args), CMD_RESPONSE_BUF_SIZE)
  {
    var offset := 0;
    if |args| >= 1 {
      offset := Atoi(args[0]);
    }
    TableValid();
    response := Params.List(PARAM_TABLE, mem, offset, CMD_RESPONSE_BUF_SIZE);
  }

  /** handleGetCmds, over the sorted name list. */
  method GetCmds(names: seq<string>, args: seq<string>) returns (response: string)
    ensures response == Params.CmdsSpec(names, Offset(args), CMD_RESPONSE_BUF_SIZE)
  {
    var offset := 0;
    if |args| >= 1 {
      offset := Atoi(args[0]);
    }
    response := Params.CmdsList(names, offset, CMD_RESPONSE_BUF_SIZE);
  }

  /** The cfg record's bytes in RAM. */
  function Record(m: seq<byte>): (c: seq<byte>)
    requires |m| == RAM_SIZE
    ensures |c| == Config.NODE_CONFIG_SIZE
  {
    m[CFG_ADDR..CFG_ADDR + Config.NODE_CONFIG_SIZE]
  }

  /** RAM, EEPROM and the answer after handleSaveCfg. */
  datatype Saved = Saved(mem: seq<byte>, eeprom: seq<byte>, response: string)

  /**
   * handleSaveCfg: the persisted parameters are synced into cfg, cfg is
   * saved, and the answer says whether the EEPROM was written.
   */
  function SaveCfgSpec(m: seq<byte>, e: seq<byte>): (r: Saved)
    requires |m| == RAM_SIZE && |e| >= Config.EEPROM_SIZE
    ensures |r.mem| == |m| && |r.eeprom| == |e|
    ensures r.response == SAVED || r.response == UNCHANGED
    ensures r.response == SAVED <==> Config.Stored(e) != Record(r.mem)
    ensures Config.Stored(r.eeprom) == Record(r.mem)
  {
    TableValid();
    var m' := Params.Applied(m, PARAM_TABLE, Params.ConfigAt(CFG_ADDR));
    var c := Record(m');
    Config.SaveStores(e, c);
    Saved(m', Config.SaveImage(e, c), if Config.Stored(e) != c then SAVED else UNCHANGED)
  }

  /** handleSaveCfg. */
  method SaveCfg(mem: array<byte>, eeprom: array<byte>) returns (response: string)
    requires mem.Length == RAM_SIZE && eeprom.Length >= Config.EEPROM_SIZE && mem != eeprom
    modifies mem, eeprom
    ensures var r := SaveCfgSpec(old(mem[..]), old(eeprom[..]));
      mem[..] == r.mem && eeprom[..] == r.eeprom && response == r.response
  {
    TableValid();
    ghost var e0 := eeprom[..];
    Params.SyncToConfig(PARAM_TABLE, mem, CFG_ADDR);
    var c := mem[CFG_ADDR..CFG_ADDR + Config.NODE_CONFIG_SIZE];
    assert c == Record(mem[..]);
    var written := Config.Save(eeprom, c);
    response := if written then SAVED else UNCHANGED;
    assert eeprom[..] == Config.SaveImage(e0, c);
  }

  /** The sync's copies from the first three rows: bw only (nodeid and nodev are not numeric). */
  lemma SyncMovesHead()
    ensures Params.Moves(PARAM_TABLE[..3], Params.ConfigAt(CFG_ADDR)) ==
      [Move(LORA_BW_ADDR, CFG_ADDR + Config.OFF_BW, 1)]
  {
    var t := Params.ConfigAt(CFG_ADDR);
    assert PARAM_TABLE[..1][..0] == [];
    assert Params.Moves(PARAM_TABLE[..1], t) == [Move(LORA_BW_ADDR, CFG_ADDR + Config.OFF_BW, 1)];
    assert PARAM_TABLE[..2][..1] == PARAM_TABLE[..1];
    assert Params.Moves(PARAM_TABLE[..2], t) == Params.Moves(PARAM_TABLE[..1], t);
    assert PARAM_TABLE[..3][..2] == PARAM_TABLE[..2];
  }

  /** The sync's copies: bw, rxduty, sf and txpwr, in table order. */
  lemma SyncMoves()
    ensures Params.Moves(PARAM_TABLE, Params.ConfigAt(CFG_ADDR)) ==
      [Move(LORA_BW_ADDR, CFG_ADDR + Config.OFF_BW, 1), Move(RX_DUTY_ADDR, CFG_ADDR + Config.OFF_RX_DUTY, 1),
       Move(SF_ADDR, CFG_ADDR + Config.OFF_SF, 1), Move(TX_POWER_ADDR, CFG_ADDR + Config.OFF_TX_POWER, 1)]
  {
    var t := Params.ConfigAt(CFG_ADDR);
    var bw := Move(LORA_BW_ADDR, CFG_ADDR + Config.OFF_BW, 1);
    var rx := Move(RX_DUTY_ADDR, CFG_ADDR + Config.OFF_RX_DUTY, 1);
    var sf := Move(SF_ADDR, CFG_ADDR + Config.OFF_SF, 1);
    SyncMovesHead();
    assert PARAM_TABLE[..4][..3] == PARAM_TABLE[..3];
    assert Params.Moves(PARAM_TABLE[..4], t) == [bw, rx];
    assert PARAM_TABLE[..5][..4] == PARAM_TABLE[..4];
    assert Params.Moves(PARAM_TABLE[..5], t) == [bw, rx, sf];
    assert PARAM_TABLE[..6][..5] == PARAM_TABLE[..5];
    assert PARAM_TABLE[..6] == PARAM_TABLE;
  }

  /** The sketch's sync copies never overlap: each field of cfg is written once, from its own global. */
  lemma SyncIndependent()
    ensures Independent(Params.Moves(PARAM_TABLE, Params.ConfigAt(CFG_ADDR)))
  {
    SyncMoves();
    var ms := Params.Moves(PARAM_TABLE, Params.ConfigAt(CFG_ADDR));
    assert |ms| == 4;
    assert ms[0].dst == 5 && ms[1].dst == 3 && ms[2].dst == 4 && ms[3].dst == 2;
    assert forall j :: 0 <= j < 4 ==> ms[j].w == 1 && ms[j].dst < 20 && ms[j].src >= 38;
  }

  /** A second savecfg with nothing changed in between writes nothing and answers unchanged. */
  lemma SaveCfgTwice(m: seq<byte>, e: seq<byte>)
    requires |m| == RAM_SIZE && |e| >= Config.EEPROM_SIZE
    ensures var first := SaveCfgSpec(m, e);
      var second := SaveCfgSpec(first.mem, first.eeprom);
      second == Saved(first.mem, first.eeprom, UNCHANGED)
  {
    TableValid();
    SyncIndependent();
    Params.AppliedTwice(m, PARAM_TABLE, Params.ConfigAt(CFG_ADDR));
    var first := SaveCfgSpec(m, e);
    Config.SaveStores(first.eeprom, Record(first.mem));
  }

  // ---------------------------------------------------------------------
  // commandsInit
  // ---------------------------------------------------------------------

  // The handlers, as callback numbers.
  const HANDLE_PING: nat := 0
  const HANDLE_BLINK: nat := 1
  const HANDLE_ECHO: nat := 2
  const HANDLE_GET_CMDS: nat := 3
  const HANDLE_GET_PARAM: nat := 4
  const HANDLE_GET_PARAMS: nat := 5
  const HANDLE_RESET: nat := 6
  const HANDLE_SAVE_CFG: nat := 7
  const HANDLE_SET_PARAM: nat := 8
  const HANDLE_TEST_LED: nat := 9

  /** The rows commandsInit registers, in its order. */
  const INIT_TABLE: seq<Registry.Handler> := [
    Registry.Handler("ping", HANDLE_PING, Registry.Any, true, false),
    Registry.Handler("discover", HANDLE_PING, Registry.Broadcast, true, true),
    Registry.Handler("blink", HANDLE_BLINK, Registry.Any, true, false),
    Registry.Handler("echo", HANDLE_ECHO, Registry.Any, false, false),
    Registry.Handler("getcmds", HANDLE_GET_CMDS, Registry.Any, false, false),
    Registry.Handler("getparam", HANDLE_GET_PARAM, Registry.Any, false, false),
    Registry.Handler("getparams", HANDLE_GET_PARAMS, Registry.Any, false, false),
    Registry.Handler("reset", HANDLE_RESET, Registry.Any, true, false),
    Registry.Handler("savecfg", HANDLE_SAVE_CFG, Registry.Private, false, false),
    Registry.Handler("setparam", HANDLE_SET_PARAM, Registry.Private, true, false),
    Registry.Handler("testled", HANDLE_TEST_LED, Registry.Any, true, false)
  ]

  /** Registering rows in order into a table that holds at most CMD_REGISTRY_MAX: the ones that fit. */
  function Appended(hs: seq<Registry.Handler>, rows: seq<Registry.Handler>): (r: seq<Registry.Handler>)
    requires |hs| <= Registry.CMD_REGISTRY_MAX
    ensures |r| <= Registry.CMD_REGISTRY_MAX
  {
    var n := if |hs| + |rows| <= Registry.CMD_REGISTRY_MAX then |hs| + |rows| else Registry.CMD_REGISTRY_MAX;
    (hs + rows)[..n]
  }

  /**
   * The registration table: only savecfg and setparam are private; discover
   * is broadcast-only, with jitter, and answered by ping's handler; the
   * early ACK is off exactly for echo, getcmds, getparam, getparams and
   * savecfg.
   */
  lemma InitTableRules(i: nat)
    requires i < |INIT_TABLE|
    ensures var h := INIT_TABLE[i];
      (h.scope == Registry.Private <==> h.cmd == "savecfg" || h.cmd == "setparam") &&
      (h.scope == Registry.Broadcast <==> h.cmd == "discover") &&
      (h.ackJitter <==> h.cmd == "discover") &&
      (!h.earlyAck <==> h.cmd in ["echo", "getcmds", "getparam", "getparams", "savecfg"]) &&
      (h.cmd == "discover" ==> h.callback == INIT_TABLE[0].callback && INIT_TABLE[0].cmd == "ping")
  {
  }

  /**
   * Dispatch over the registration table: savecfg and setparam reach their
   * handler only when addressed to this node, never by broadcast, and
   * discover reaches ping's handler only by broadcast.
   */
  lemma InitDispatch(self: string, target: string, i: nat)
    requires self != ""
    ensures i in Registry.Matching(INIT_TABLE, "savecfg", target, self) <==> target == self && i == 8
    ensures i in Registry.Matching(INIT_TABLE, "setparam", target, self) <==> target == self && i == 9
    ensures i in Registry.Matching(INIT_TABLE, "discover", target, self) <==> target == "" && i == 1
  {
    Registry.MatchingIff(INIT_TABLE, "savecfg", target, self, i);
    Registry.MatchingIff(INIT_TABLE, "setparam", target, self, i);
    Registry.MatchingIff(INIT_TABLE, "discover", target, self, i);
  }

  /** commandsInit: the rows registered in order, then the sorted name list rebuilt. */
  method CommandsInit(reg: Registry.CommandRegistry, list: NameList)
    requires reg.Valid() && list.Valid()
    modifies reg, reg.handlers, list, list.names
    ensures reg.Valid() && list.Valid()
    ensures reg.Registered() == Appended(old(reg.Registered()), INIT_TABLE)
    ensures list.Names() == Sorted(NamesOf(reg.Registered()))
  {
    ghost var start := reg.Registered();
    var i: nat := 0;
    while i < |INIT_TABLE|
      invariant i <= |INIT_TABLE| && reg.Valid() && reg.handlers == old(reg.handlers)
      invariant reg.Registered() == Appended(start, INIT_TABLE[..i])
      invariant list.Valid()
    {
      var h := INIT_TABLE[i];
      var ok := reg.Register(h.cmd, h.callback, h.scope, h.earlyAck, h.ackJitter);
      AppendedMore(start, INIT_TABLE, i);
      i := i + 1;
    }
    assert INIT_TABLE[..i] == INIT_TABLE;
    list.Build(reg);
  }

  /** One more registration: appended while there is room, otherwise refused. */
  lemma AppendedMore(hs: seq<Registry.Handler>, rows: seq<Registry.Handler>, i: nat)
    requires |hs| <= Registry.CMD_REGISTRY_MAX && i < |rows|
    ensures var before := Appended(hs, rows[..i]);
      Appended(hs, rows[..i + 1]) ==
        if |before| < Registry.CMD_REGISTRY_MAX then before + [rows[i]] else before
  {
    var before := Appended(hs, rows[..i]);
    assert (hs + rows[..i + 1])[..|hs| + i] == hs + rows[..i];
    if |before| < Registry.CMD_REGISTRY_MAX {
      assert hs + rows[..i + 1] == (hs + rows[..i]) + [rows[i]];
    } else {
      assert (hs + rows[..i + 1])[..Registry.CMD_REGISTRY_MAX] == (hs + rows[..i])[..Registry.CMD_REGISTRY_MAX];
    }
  }

  // ---------------------------------------------------------------------
  // buildCmdNameList
  // ---------------------------------------------------------------------

  /** The command names of the rows, in registration order. */
  function NamesOf(hs: seq<Registry.Handler>): (r: seq<string>)
    ensures |r| == |hs|
  {
    if |hs| == 0 then [] else NamesOf(hs[..|hs| - 1]) + [hs[|hs| - 1].cmd]
  }

  lemma {:induction false} NamesOfAt(hs: seq<Registry.Handler>, k: nat)
    requires k < |hs|
    ensures NamesOf(hs)[k] == hs[k].cmd
  {
    if k < |hs| - 1 {
      NamesOfAt(hs[..|hs| - 1], k);
    }
  }

  /** Ascending by strcmp (equal names may be adjacent). */
  predicate Ascending(s: seq<string>)
  {
    forall p :: 0 < p < |s| ==> StrLessEq(s[p - 1], s[p])
  }

  /** The names in ascending order: the first of the smallest, then the rest sorted. */
  function Sorted(s: seq<string>): (r: seq<string>)
    ensures |r| == |s|
  {
    if |s| == 0 then [] else Insert(Sorted(s[..|s| - 1]), s[|s| - 1])
  }

  /** Inserting x into a sorted list after every name not greater than it. */
  function Insert(s: seq<string>, x: string): (r: seq<string>)
    ensures |r| == |s| + 1
  {
    if |s| == 0 || !StrLess(x, s[|s| - 1]) then s + [x]
    else Insert(s[..|s| - 1], x) + [s[|s| - 1]]
  }

  /** The last place of Insert(s, x) holds the larger of x and the last name. */
  lemma InsertLast(s: seq<string>, x: string)
    requires |s| > 0
    ensures Insert(s, x)[|s|] == if StrLess(x, s[|s| - 1]) then s[|s| - 1] else x
  {
  }

  /** Inserting adds exactly x. */
  lemma {:induction false} InsertPermutes(s: seq<string>, x: string)
    ensures multiset(Insert(s, x)) == multiset(s) + multiset{x}
  {
    if |s| > 0 && StrLess(x, s[|s| - 1]) {
      InsertPermutes(s[..|s| - 1], x);
      assert s == s[..|s| - 1] + [s[|s| - 1]];
    }
  }

  /** Appending a name not smaller than the last keeps a list ascending. */
  lemma AscendingSnoc(r: seq<string>, y: string)
    requires Ascending(r) && (|r| > 0 ==> StrLessEq(r[|r| - 1], y))
    ensures Ascending(r + [y])
  {
  }

  /** Inserting keeps the list ascending. */
  lemma {:induction false} InsertSorted(s: seq<string>, x: string)
    requires Ascending(s)
    ensures Ascending(Insert(s, x))
  {
    var n := |s|;
    if n == 0 {
      AscendingSnoc(s, x);
    } else if !StrLess(x, s[n - 1]) {
      StrLessTotal(x, s[n - 1]);
      AscendingSnoc(s, x);
    } else {
      var init := s[..n - 1];
      assert Ascending(init);
      InsertSorted(init, x);
      var r := Insert(init, x);
      if |init| > 0 {
        InsertLast(init, x);
        assert StrLessEq(r[|init|], s[n - 1]) by {
          if !StrLess(x, init[|init| - 1]) {
            StrLessAsymmetric(x, s[n - 1]);
          }
        }
      } else {
        assert r == [x];
      }
      AscendingSnoc(r, s[n - 1]);
    }
  }

  /** Sorted is an ascending permutation. */
  lemma {:induction false} SortedSorts(s: seq<string>)
    ensures Ascending(Sorted(s)) && multiset(Sorted(s)) == multiset(s)
  {
    if |s| > 0 {
      SortedSorts(s[..|s| - 1]);
      InsertSorted(Sorted(s[..|s| - 1]), s[|s| - 1]);
      InsertPermutes(Sorted(s[..|s| - 1]), s[|s| - 1]);
      assert s == s[..|s| - 1] + [s[|s| - 1]];
    }
  }

  /** The sorted name list of getcmds: cmdNames[] with cmdNameCount entries in use. */
  class NameList {
    const names: array<string>
    var count: nat

    ghost predicate Valid()
      reads this
    {
      names.Length == Registry.CMD_REGISTRY_MAX && count <= Registry.CMD_REGISTRY_MAX
    }

    function Names(): seq<string>
      reads this, names
      requires Valid()
    {
      names[..count]
    }

    constructor ()
      ensures Valid() && Names() == []
    {
      names := new string[Registry.CMD_REGISTRY_MAX](_ => "");
      count := 0;
    }

    /**
     * buildCmdNameList: the first (at most CMD_REGISTRY_MAX) registered
     * names, then an insertion sort by strcmp.
     */
    method Build(reg: Registry.CommandRegistry)
      requires Valid() && reg.Valid()
      modifies this, names
      ensures Valid() && Names() == Sorted(NamesOf(reg.Registered()))
    {
      count := 0;
      var i: nat := 0;
      while i < reg.count && count < Registry.CMD_REGISTRY_MAX
        invariant i <= reg.count && count == i && Valid()
        invariant names[..count] == NamesOf(reg.handlers[..i])
      {
        names[count] := reg.handlers[i].cmd;
        assert reg.handlers[..i + 1][..i] == reg.handlers[..i];
        count := count + 1;
        i := i + 1;
      }
      assert reg.handlers[..i] == reg.Registered();
      InsertionSort(names, count);
    }
  }

  /** The insertion sort of buildCmdNameList on a[..n]. */
  method InsertionSort(a: array<string>, n: nat)
    requires n <= a.Length
    modifies a
    ensures a[..n] == Sorted(old(a[..n])) && a[n..] == old(a[n..])
  {
    if n == 0 {
      return;
    }
    ghost var s0 := a[..n];
    var i: nat := 1;
    assert s0[..1] == a[..1];
    while i < n
      invariant 1 <= i <= n
      invariant a[..i] == Sorted(s0[..i])
      invariant forall p :: i <= p < a.Length ==> a[p] == old(a[p])
    {
      SortStep(a, i, s0);
      i := i + 1;
    }
    assert s0[..n] == s0;
    assert a[n..] == old(a[n..]);
  }

  /** One turn of the outer loop: the sorted prefix grows by a[i]. */
  method SortStep(a: array<string>, i: nat, ghost s0: seq<string>)
    requires 1 <= i < |s0| <= a.Length && a[..i] == Sorted(s0[..i]) && a[i] == s0[i]
    modifies a
    ensures a[..i + 1] == Sorted(s0[..i + 1])
    ensures forall p :: i < p < a.Length ==> a[p] == old(a[p])
  {
    InsertOne(a, i);
    SortedSnoc(s0, i);
  }

  /** Sorting one more name inserts it into the sorted prefix. */
  lemma SortedSnoc(s: seq<string>, i: nat)
    requires i < |s|
    ensures Sorted(s[..i + 1]) == Insert(Sorted(s[..i]), s[i])
  {
    assert s[..i + 1][..i] == s[..i];
  }

  /** One step of the outer loop: a[i] shifted down into the ascending a[..i]. */
  method InsertOne(a: array<string>, i: nat)
    requires 1 <= i < a.Length
    modifies a
    ensures a[..i + 1] == Insert(old(a[..i]), old(a[i]))
    ensures forall p :: i < p < a.Length ==> a[p] == old(a[p])
  {
    ghost var pre := a[..i];
    var key := a[i];
    var k := ShiftUp(a, i, key);
    a[k] := key;
    InsertAt(pre, key, k);
    Placed(a[..i + 1], pre, key, k);
  }

  /**
   * The inner loop: every name of a[..i] greater than key moves up one
   * place; k is where key goes.
   */
  method ShiftUp(a: array<string>, i: nat, key: string) returns (k: nat)
    requires i < a.Length
    modifies a
    ensures k <= i
    ensures forall p :: 0 <= p < k ==> a[p] == old(a[p])
    ensures forall p :: k < p <= i ==> a[p] == old(a[p - 1])
    ensures forall p :: i < p < a.Length ==> a[p] == old(a[p])
    ensures k == 0 || !StrLess(key, a[k - 1])
    ensures forall p :: k <= p < i ==> StrLess(key, old(a[p]))
  {
    k := i;
    while k > 0 && StrLess(key, a[k - 1])
      invariant k <= i
      invariant forall p :: 0 <= p < k ==> a[p] == old(a[p])
      invariant forall p :: k < p <= i ==> a[p] == old(a[p - 1])
      invariant forall p :: i < p < a.Length ==> a[p] == old(a[p])
      invariant forall p :: k <= p < i ==> StrLess(key, old(a[p]))
    {
      a[k] := a[k - 1];
      k := k - 1;
    }
  }

  /** A list that agrees with pre before k, holds key at k and pre shifted up after it. */
  lemma Placed(s: seq<string>, pre: seq<string>, key: string, k: nat)
    requires |s| == |pre| + 1 && k <= |pre| && s[k] == key
    requires forall p :: 0 <= p < k ==> s[p] == pre[p]
    requires forall p :: k < p < |s| ==> s[p] == pre[p - 1]
    ensures s == pre[..k] + [key] + pre[k..]
  {
  }

  /**
   * Insert(pre, key) puts key at k when the name before k is not greater
   * than key and every name from k on is.
   */
  lemma {:induction false} InsertAt(pre: seq<string>, key: string, k: nat)
    requires k <= |pre| && (k == 0 || !StrLess(key, pre[k - 1]))
    requires forall p :: k <= p < |pre| ==> StrLess(key, pre[p])
    ensures Insert(pre, key) == pre[..k] + [key] + pre[k..]
  {
    var n := |pre|;
    if k < n {
      var init := pre[..n - 1];
      assert init[..k] == pre[..k];
      InsertAt(init, key, k);
      assert pre[k..] == init[k..] + [pre[n - 1]];
    }
  }
}
