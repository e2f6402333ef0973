// The EEPROM-backed configuration of shared/config.h.  The EEPROM is a byte
// array: bytes [0, 17) hold the node identity (a magic byte and a 16-byte
// NUL-terminated id), bytes [17, 37) the versioned NodeConfig record.  A
// NodeConfig is handled as its 20 packed bytes, as memcpy, EEPROM.get/put and
// memcmp see it.

module Config {
  import opened Text
  import opened Memory

  const NODE_ID_MAGIC: byte := 0x4E
  const NODE_ID_BYTES: nat := 16
  const NODEID_REGION_SIZE: nat := 1 + NODE_ID_BYTES
  const CFG_EEPROM_OFFSET: nat := NODEID_REGION_SIZE

  const CFG_MAGIC: byte := 0xCF
  const CFG_VERSION: byte := 2

  // The packed NodeConfig layout: offset of each field (widths in the comments).
  const OFF_MAGIC: nat := 0            // uint8_t
  const OFF_VERSION: nat := 1          // uint8_t
  const OFF_TX_POWER: nat := 2         // int8_t
  const OFF_RX_DUTY: nat := 3          // uint8_t
  const OFF_SF: nat := 4               // uint8_t
  const OFF_BW: nat := 5               // uint8_t
  const OFF_N2G_FREQ: nat := 6         // uint32_t
  const OFF_G2N_FREQ: nat := 10        // uint32_t
  const OFF_BME280_RATE: nat := 14     // uint16_t
  const OFF_BATT_RATE: nat := 16       // uint16_t
  const OFF_ACK_JITTER: nat := 18      // uint16_t
  const NODE_CONFIG_SIZE: nat := 20

  /** The bytes EEPROM.begin reserves: identity and config. */
  const EEPROM_SIZE: nat := CFG_EEPROM_OFFSET + NODE_CONFIG_SIZE

  // Compile-time defaults.
  const DEFAULT_NODE_ID: string := "empty"
  const TX_OUTPUT_POWER: int := 14
  const RX_DUTY_PERCENT_DEFAULT: nat := 90
  const SPREADING_FACTOR_DEFAULT: nat := 7
  const BANDWIDTH_DEFAULT: nat := 0
  const N2G_FREQUENCY_DEFAULT: nat := 915000000
  const G2N_FREQUENCY_DEFAULT: nat := 915500000
  const BME280_RATE_SEC_DEFAULT: nat := 30
  const BATT_RATE_SEC_DEFAULT: nat := 60
  const BROADCAST_ACK_JITTER_DEFAULT: nat := 1000

  /** The unsigned field of width w at offset off of a record. */
  function Field(c: seq<byte>, off: nat, w: nat): nat
    requires off + w <= |c|
  {
    Unsigned(Read(c, off, w))
  }

  /** A record the loader accepts: both magic and version match. */
  predicate IsCurrent(c: seq<byte>)
    requires |c| == NODE_CONFIG_SIZE
  {
    c[OFF_MAGIC] == CFG_MAGIC && c[OFF_VERSION] == CFG_VERSION
  }

  /** cfgDefaults: magic and version current, every field at its compile-time default. */
  function Defaults(): (c: seq<byte>)
    ensures |c| == NODE_CONFIG_SIZE && IsCurrent(c)
  {
    [CFG_MAGIC, CFG_VERSION] +
    LittleEndian(TX_OUTPUT_POWER, 1) + LittleEndian(RX_DUTY_PERCENT_DEFAULT, 1) +
    LittleEndian(SPREADING_FACTOR_DEFAULT, 1) + LittleEndian(BANDWIDTH_DEFAULT, 1) +
    LittleEndian(N2G_FREQUENCY_DEFAULT, 4) + LittleEndian(G2N_FREQUENCY_DEFAULT, 4) +
    LittleEndian(BME280_RATE_SEC_DEFAULT, 2) + LittleEndian(BATT_RATE_SEC_DEFAULT, 2) +
    LittleEndian(BROADCAST_ACK_JITTER_DEFAULT, 2)
  }

  /** Each one-byte field of the defaults reads back as its compile-time value. */
  lemma DefaultsRadioFields()
    ensures Signed(Read(Defaults(), OFF_TX_POWER, 1)) == TX_OUTPUT_POWER
    ensures Field(Defaults(), OFF_RX_DUTY, 1) == RX_DUTY_PERCENT_DEFAULT
    ensures Field(Defaults(), OFF_SF, 1) == SPREADING_FACTOR_DEFAULT
    ensures Field(Defaults(), OFF_BW, 1) == BANDWIDTH_DEFAULT
  {
    var c := Defaults();
    SignedLittleEndian(TX_OUTPUT_POWER, 1);
    UnsignedLittleEndian(RX_DUTY_PERCENT_DEFAULT, 1);
    UnsignedLittleEndian(SPREADING_FACTOR_DEFAULT, 1);
    UnsignedLittleEndian(BANDWIDTH_DEFAULT, 1);
    assert Read(c, OFF_TX_POWER, 1) == LittleEndian(TX_OUTPUT_POWER, 1);
    assert Read(c, OFF_RX_DUTY, 1) == LittleEndian(RX_DUTY_PERCENT_DEFAULT, 1);
    assert Read(c, OFF_SF, 1) == LittleEndian(SPREADING_FACTOR_DEFAULT, 1);
    assert Read(c, OFF_BW, 1) == LittleEndian(BANDWIDTH_DEFAULT, 1);
  }

  /** The two frequency fields of the defaults read back as their compile-time values. */
  lemma DefaultsFrequencies()
    ensures Field(Defaults(), OFF_N2G_FREQ, 4) == N2G_FREQUENCY_DEFAULT
    ensures Field(Defaults(), OFF_G2N_FREQ, 4) == G2N_FREQUENCY_DEFAULT
  {
    var c := Defaults();
    UnsignedLittleEndian(N2G_FREQUENCY_DEFAULT, 4);
    UnsignedLittleEndian(G2N_FREQUENCY_DEFAULT, 4);
    assert Read(c, OFF_N2G_FREQ, 4) == LittleEndian(N2G_FREQUENCY_DEFAULT, 4);
    assert Read(c, OFF_G2N_FREQ, 4) == LittleEndian(G2N_FREQUENCY_DEFAULT, 4);
  }

  /** The three two-byte fields of the defaults read back as their compile-time values. */
  lemma DefaultsRates()
    ensures Field(Defaults(), OFF_BME280_RATE, 2) == BME280_RATE_SEC_DEFAULT
    ensures Field(Defaults(), OFF_BATT_RATE, 2) == BATT_RATE_SEC_DEFAULT
    ensures Field(Defaults(), OFF_ACK_JITTER, 2) == BROADCAST_ACK_JITTER_DEFAULT
  {
    var c := Defaults();
    UnsignedLittleEndian(BME280_RATE_SEC_DEFAULT, 2);
    UnsignedLittleEndian(BATT_RATE_SEC_DEFAULT, 2);
    UnsignedLittleEndian(BROADCAST_ACK_JITTER_DEFAULT, 2);
    assert Read(c, OFF_BME280_RATE, 2) == LittleEndian(BME280_RATE_SEC_DEFAULT, 2);
    assert Read(c, OFF_BATT_RATE, 2) == LittleEndian(BATT_RATE_SEC_DEFAULT, 2);
    assert Read(c, OFF_ACK_JITTER, 2) == LittleEndian(BROADCAST_ACK_JITTER_DEFAULT, 2);
  }

  /** The record stored in an EEPROM image. */
  function Stored(e: seq<byte>): (c: seq<byte>)
    requires |e| >= EEPROM_SIZE
    ensures |c| == NODE_CONFIG_SIZE
  {
    e[CFG_EEPROM_OFFSET..EEPROM_SIZE]
  }

  /** What cfgLoad leaves in *c: the stored record when it is current, else the defaults. */
  function Loaded(e: seq<byte>): (c: seq<byte>)
    requires |e| >= EEPROM_SIZE
    ensures |c| == NODE_CONFIG_SIZE && IsCurrent(c)
    ensures IsCurrent(Stored(e)) ==> c == Stored(e)
    ensures !IsCurrent(Stored(e)) ==> c == Defaults()
  {
    if IsCurrent(Stored(e)) then Stored(e) else Defaults()
  }

  /** The EEPROM after cfgSave(c): written only when the stored bytes differ. */
  function SaveImage(e: seq<byte>, c: seq<byte>): (r: seq<byte>)
    requires |e| >= EEPROM_SIZE && |c| == NODE_CONFIG_SIZE
    ensures |r| == |e|
  {
    if Stored(e) == c then e else Write(e, CFG_EEPROM_OFFSET, c)
  }

  /** After a save the record is stored, so saving it again writes nothing. */
  lemma SaveStores(e: seq<byte>, c: seq<byte>)
    requires |e| >= EEPROM_SIZE && |c| == NODE_CONFIG_SIZE
    ensures Stored(SaveImage(e, c)) == c
    ensures SaveImage(SaveImage(e, c), c) == SaveImage(e, c)
  {
  }

  /** A save touches only the config region: the identity region [0, 17) is kept. */
  lemma SaveKeepsIdentity(e: seq<byte>, c: seq<byte>)
    requires |e| >= EEPROM_SIZE && |c| == NODE_CONFIG_SIZE
    ensures SaveImage(e, c)[..NODEID_REGION_SIZE] == e[..NODEID_REGION_SIZE]
    ensures SaveImage(e, c)[EEPROM_SIZE..] == e[EEPROM_SIZE..]
  {
  }

  /** A current record that was saved is what the next load returns. */
  lemma LoadAfterSave(e: seq<byte>, c: seq<byte>)
    requires |e| >= EEPROM_SIZE && |c| == NODE_CONFIG_SIZE && IsCurrent(c)
    ensures Loaded(SaveImage(e, c)) == c
  {
    SaveStores(e, c);
  }

  /** The defaults are a current record, so once saved they load back unchanged. */
  lemma DefaultsLoadBack(e: seq<byte>)
    requires |e| >= EEPROM_SIZE
    ensures IsCurrent(Defaults())
    ensures Loaded(SaveImage(e, Defaults())) == Defaults()
  {
    LoadAfterSave(e, Defaults());
  }

  /** cfgSave: compares with the stored record and writes only when they differ. */
  method Save(eeprom: array<byte>, c: seq<byte>) returns (written: bool)
    requires eeprom.Length >= EEPROM_SIZE && |c| == NODE_CONFIG_SIZE
    modifies eeprom
    ensures written == (Stored(old(eeprom[..])) != c)
    ensures eeprom[..] == SaveImage(old(eeprom[..]), c)
  {
    var existing := eeprom[CFG_EEPROM_OFFSET..EEPROM_SIZE];
    if existing == c {
      return false;
    }
    Store(eeprom, CFG_EEPROM_OFFSET, c);
    written := true;
  }

  /**
   * cfgLoad: reports whether the stored record was current.  Without
   * updateCfg (UPDATE_CFG == 0) it never writes and yields the stored
   * record or the defaults; with it, it forces and saves the defaults.
   */
  method Load(eeprom: array<byte>, updateCfg: bool) returns (valid: bool, c: seq<byte>)
    requires eeprom.Length >= EEPROM_SIZE
    modifies eeprom
    ensures valid == IsCurrent(Stored(old(eeprom[..])))
    ensures !updateCfg ==> c == Loaded(old(eeprom[..])) && eeprom[..] == old(eeprom[..])
    ensures updateCfg ==> c == Defaults() && eeprom[..] == SaveImage(old(eeprom[..]), Defaults())
  {
    c := eeprom[CFG_EEPROM_OFFSET..EEPROM_SIZE];
    valid := c[OFF_MAGIC] == CFG_MAGIC && c[OFF_VERSION] == CFG_VERSION;
    if !valid {
      c := Defaults();
    }
    if updateCfg {
      c := Defaults();
      var _ := Save(eeprom, c);
    }
  }

  // ------------------------------------------------------------ node identity

  /** A byte read as a character of a C string. */
  function CharOf(b: byte): char
  {
    (b as int) as char
  }

  /** Characters that fit in one byte each. */
  predicate IsByteString(s: string)
  {
    forall k :: 0 <= k < |s| ==> s[k] as int < 256
  }

  /** The C string held in bytes: the characters before the first zero byte. */
  function CStringOf(bs: seq<byte>): (s: string)
    ensures |s| <= |bs| && NUL !in s
  {
    if |bs| == 0 || bs[0] == 0 then "" else [CharOf(bs[0])] + CStringOf(bs[1..])
  }

  /** A string's characters as bytes. */
  function BytesOf(s: string): (bs: seq<byte>)
    requires IsByteString(s)
    ensures |bs| == |s|
  {
    if |s| == 0 then [] else [s[0] as int as byte] + BytesOf(s[1..])
  }

  /**
   * cfgLoadNodeId: the stored id (at most 15 chars, byte 15 forced to NUL)
   * when the identity magic is present and the id non-empty, else
   * DEFAULT_NODE_ID truncated to 15 chars.
   */
  function LoadedNodeId(e: seq<byte>): (id: string)
    requires |e| >= NODEID_REGION_SIZE
    ensures |id| < NODE_ID_BYTES
  {
    if e[0] == NODE_ID_MAGIC && e[1] != 0 then CStringOf(e[1..NODE_ID_BYTES])
    else Truncate(DEFAULT_NODE_ID, NODE_ID_BYTES - 1)
  }

  /** The identity cfgSaveNodeId builds: magic, then id truncated to 15 and zero-padded to 16. */
  function IdentityOf(id: string): (nid: seq<byte>)
    requires IsByteString(id)
    ensures |nid| == NODEID_REGION_SIZE && nid[0] == NODE_ID_MAGIC
  {
    var name := Truncate(CStr(id), NODE_ID_BYTES - 1);
    [NODE_ID_MAGIC] + BytesOf(name) + seq(NODE_ID_BYTES - |name|, _ => 0 as byte)
  }

  /** The EEPROM after cfgSaveNodeId(id): written only when the identity differs. */
  function SaveIdImage(e: seq<byte>, id: string): (r: seq<byte>)
    requires |e| >= EEPROM_SIZE && IsByteString(id)
    ensures |r| == |e|
  {
    if e[..NODEID_REGION_SIZE] == IdentityOf(id) then e else Write(e, 0, IdentityOf(id))
  }

  /** cfgSaveNodeId: writes the identity only when it differs, and says whether it did. */
  method SaveNodeId(eeprom: array<byte>, id: string) returns (written: bool)
    requires eeprom.Length >= EEPROM_SIZE && IsByteString(id)
    modifies eeprom
    ensures written == (old(eeprom[..NODEID_REGION_SIZE]) != IdentityOf(id))
    ensures eeprom[..] == SaveIdImage(old(eeprom[..]), id)
  {
    var nid := IdentityOf(id);
    var existing := eeprom[..NODEID_REGION_SIZE];
    if existing == nid {
      return false;
    }
    Store(eeprom, 0, nid);
    written := true;
  }

  /** After cfgSaveNodeId the identity region holds the identity, whether or not it was written. */
  lemma SaveIdWrites(e: seq<byte>, id: string)
    requires |e| >= EEPROM_SIZE && IsByteString(id)
    ensures SaveIdImage(e, id)[..NODEID_REGION_SIZE] == IdentityOf(id)
  {
    var nid := IdentityOf(id);
    if e[..NODEID_REGION_SIZE] != nid {
      assert Write(e, 0, nid)[0..0 + |nid|] == nid;
    }
  }

  /** Writing the identity leaves the config region (and the rest) as it was. */
  lemma SaveIdKeepsConfig(e: seq<byte>, id: string)
    requires |e| >= EEPROM_SIZE && IsByteString(id)
    ensures SaveIdImage(e, id)[NODEID_REGION_SIZE..] == e[NODEID_REGION_SIZE..]
    ensures Stored(SaveIdImage(e, id)) == Stored(e)
  {
    var nid := IdentityOf(id);
    if e[..NODEID_REGION_SIZE] != nid {
      WriteKeepsTail(e, nid);
    }
    StoredOfTail(SaveIdImage(e, id), e);
  }

  /** Bytes at and after the config region that agree give the same stored record. */
  lemma StoredOfTail(a: seq<byte>, b: seq<byte>)
    requires |a| == |b| >= EEPROM_SIZE && a[CFG_EEPROM_OFFSET..] == b[CFG_EEPROM_OFFSET..]
    ensures Stored(a) == Stored(b)
  {
    assert Stored(a) == a[CFG_EEPROM_OFFSET..][..NODE_CONFIG_SIZE];
    assert Stored(b) == b[CFG_EEPROM_OFFSET..][..NODE_CONFIG_SIZE];
  }

  /** Reading back the bytes of a NUL-free string, then a zero byte, gives the string. */
  lemma {:induction false} CStringOfBytes(s: string, rest: seq<byte>)
    requires IsByteString(s) && NUL !in s
    requires rest == [] || rest[0] == 0
    ensures CStringOf(BytesOf(s) + rest) == s
    decreases |s|
  {
    if |s| == 0 {
      assert BytesOf(s) + rest == rest;
    } else {
      assert (BytesOf(s) + rest)[1..] == BytesOf(s[1..]) + rest;
      assert s[0] != NUL;
      CStringOfBytes(s[1..], rest);
    }
  }

  /** The C string read from bytes is their prefix up to the first zero byte (or the end). */
  lemma {:induction false} CStringOfPrefix(bs: seq<byte>)
    ensures var s := CStringOf(bs);
      IsByteString(s) && BytesOf(s) == bs[..|s|] && (|s| == |bs| || bs[|s|] == 0)
    decreases |bs|
  {
    if |bs| > 0 && bs[0] != 0 {
      CStringOfPrefix(bs[1..]);
      var t := CStringOf(bs[1..]);
      var s := [CharOf(bs[0])] + t;
      assert s[1..] == t;
      assert BytesOf(s) == [bs[0]] + BytesOf(t);
      assert bs[..|s|] == [bs[0]] + bs[1..][..|t|];
    }
  }

  /**
   * cfgLoadNodeId with the identity magic and a non-empty id yields the
   * stored name bytes up to the first zero byte, at most 15 of them;
   * otherwise the default id.
   */
  lemma LoadedNodeIdCases(e: seq<byte>)
    requires |e| >= NODEID_REGION_SIZE
    ensures var id := LoadedNodeId(e);
      if e[0] == NODE_ID_MAGIC && e[1] != 0 then
        1 <= |id| < NODE_ID_BYTES && IsByteString(id) && BytesOf(id) == e[1..1 + |id|] &&
        (|id| == NODE_ID_BYTES - 1 || e[1 + |id|] == 0)
      else
        id == Truncate(DEFAULT_NODE_ID, NODE_ID_BYTES - 1)
  {
    if e[0] == NODE_ID_MAGIC && e[1] != 0 {
      var bs := e[1..NODE_ID_BYTES];
      CStringOfPrefix(bs);
      assert bs[0] != 0;
      assert bs[..|CStringOf(bs)|] == e[1..1 + |CStringOf(bs)|];
    }
  }

  /**
   * The identity's name bytes read back as the name, truncated to 15 chars;
   * its first name byte is zero exactly when that name is empty.
   */
  lemma IdentityName(id: string)
    requires IsByteString(id)
    ensures var name := Truncate(CStr(id), NODE_ID_BYTES - 1);
      CStringOf(IdentityOf(id)[1..NODE_ID_BYTES]) == name && (IdentityOf(id)[1] == 0 <==> name == "")
  {
    var name := Truncate(CStr(id), NODE_ID_BYTES - 1);
    var nid := IdentityOf(id);
    var pad := seq(NODE_ID_BYTES - |name|, _ => 0 as byte);
    assert nid == [NODE_ID_MAGIC] + (BytesOf(name) + pad);
    assert nid[1..NODE_ID_BYTES] == BytesOf(name) + pad[..NODE_ID_BYTES - 1 - |name|];
    assert NUL !in name;
    CStringOfBytes(name, pad[..NODE_ID_BYTES - 1 - |name|]);
    if name != "" {
      assert nid[1] == name[0] as int as byte;
    }
  }

  /**
   * A saved non-empty id loads back truncated to 15 chars; an empty one
   * loads back as the default.
   */
  lemma NodeIdRoundTrip(e: seq<byte>, id: string)
    requires |e| >= EEPROM_SIZE && IsByteString(id)
    ensures var name := Truncate(CStr(id), NODE_ID_BYTES - 1);
      LoadedNodeId(SaveIdImage(e, id)) ==
        if name == "" then Truncate(DEFAULT_NODE_ID, NODE_ID_BYTES - 1) else name
  {
    var nid := IdentityOf(id);
    var r := SaveIdImage(e, id);
    SaveIdWrites(e, id);
    IdentityName(id);
    assert r[1..NODE_ID_BYTES] == nid[1..NODE_ID_BYTES];
    assert r[0] == nid[0] && r[1] == nid[1];
  }
}
