# LoRa sensor node firmware — a Dafny model of its protocol core

The node firmware (the `data_log` sketch and the `shared` headers it uses)
reads its sensors on per-sensor intervals. It packs the readings into JSON
sensor packets protected by a CRC-32 and sends them over LoRa. It also
accepts JSON commands carrying a CRC-32 and dispatches them to registered
handlers. Those handlers read and write a table of typed parameters and can
persist a configuration record in EEPROM.

The model covers the table-driven, byte-level logic of the node:

- **Packet codec** (`Packets`, `Crc32`, `Crc32Table`):
  - the table-driven CRC-32, proved equal to the bitwise CRC-32 of ISO 3309;
  - the trailing-zero stripping of `fmtVal`;
  - the sensor packet builder and the JSON key extractors;
  - the command parser, which accepts a command only when the CRC text matches the rebuilt canonical body;
  - the two ACK builders.
- **Command registry** (`Registry`): registration into a fixed table of 16, lookup, and scoped dispatch to every matching handler.
- **Parameter registry** (`Params`):
  - get and set, with typed and range-checked writes;
  - the paginated parameter and command listings;
  - the staged-to-runtime copy and the sync into the configuration record.
- **Sensors**:
  - greedy packing of readings into packets (`SensorPack`);
  - the driver slot registry with its interval, liveness and last-transmission state machine (`SensorPoll`).
- **Command glue** (`Commands`):
  - the parameter table and the registration table;
  - the echo, get/set and list handlers and the save-config handler;
  - the insertion sort of the command name list.
- **Persisted configuration** (`Config`): defaults, versioned load, write-only-when-different save, and the separate node identity slot.
- **Small extras**:
  - colour names and channels (`Led`);
  - the debounced button and the plain RGB LED (`Buttons`);
  - the watchdog-safe delay (`Wdt`).

Memory is modelled as one byte array. `Memory` holds little-endian reads and
writes and the memcpy sequences. `Text` holds the C string and number
routines the firmware uses: strtol, strtoul, `%08x`, strcmp, strcasecmp and
the comma joins.

## Model

| member | source | states |
|---|---|---|
| Crc32.Compute | shared/packets.h:94-100 | The register starts at 0xFFFFFFFF, takes one table step per byte and ends XORed with 0xFFFFFFFF. The loop's result equals the bitwise CRC-32 (reflected polynomial 0xEDB88320) of the data. |
| Crc32.Feed | shared/packets.h:97-98 | One loop step turns the register of a prefix into the register of the prefix extended by the next byte. |
| Crc32.TableUpdate | shared/packets.h:98 | `table[(crc ^ b) & 0xFF] ^ (crc >> 8)` equals eight reflected shift/XOR rounds of `crc ^ b`. |
| Crc32.RegisterNext | shared/packets.h:94-100 | The bitwise register of a one-byte-longer prefix is eight rounds of the previous register XOR the byte. |
| Crc32.CrcValue | shared/packets.h:94-100 | The CRC as an unsigned 32-bit number. |
| Crc32Table.TableEntryIsRounds | shared/packets.h:27-92 | Every entry i of CRC32_TABLE equals eight reflected rounds of i with 0xEDB88320. |
| Crc32Table.TableStep | shared/packets.h:27-92 | A table lookup and shift computes the same next register as eight bitwise rounds, for every register and byte. |
| Packets.CrcText | shared/packets.h:180 | `%08x` of the CRC gives exactly 8 lowercase hex digits whose hex value is the CRC. |
| Text.Hex8RoundTrip | shared/packets.h:397 | Reading back the `%08x` text of a 32-bit value gives the value. |
| Text.Hex8Injective | shared/packets.h:397-402 | Different 32-bit values give different `%08x` texts, so comparing the texts compares the CRCs. |
| Packets.FmtVal | shared/packets.h:118-129 | The returned length is that of the stripped text, which is a prefix of the printed text. |
| Packets.DropZeros | shared/packets.h:124-125 | The backwards loop stops at the last character after the dot that is not a trailing '0' (or at the dot). |
| Packets.ZerosDropped | shared/packets.h:124-125 | A position after the dot, followed only by '0's and either the dot itself or a non-'0', is where the stripping ends. |
| Packets.DropZerosAfter | shared/packets.h:124-125 | Only '0's are dropped after the dot: the result is a prefix that ends at the dot or in a non-'0'. |
| Packets.StrippedWithoutDot | shared/packets.h:122-123 | Text without a '.' is returned unchanged. |
| Packets.StrippedShape | shared/packets.h:122-127 | With a dot, the result is a prefix that never ends in the dot. Everything removed after the dot is '0'. The result either stops just before the dot or ends in a non-'0' digit after it. |
| Packets.StrippedIdempotent | shared/packets.h:118-129 | Stripping an already stripped text changes nothing. |
| Packets.FmtValStripsExponent | shared/packets.h:118-129 | As written, `"1.5e+10"` becomes `"1.5e+1"` (see Findings). |
| Packets.FmtValFixedKeepsExponent | shared/packets.h:118-129 | The corrected formatting strips only the mantissa and keeps the exponent unchanged after it. |
| Packets.FmtValFixedWithoutExponent | shared/packets.h:118-129 | Without an exponent, the corrected formatting is fmtVal's stripping. |
| Packets.FmtValFixedExample | shared/packets.h:118-129 | `"1.5e+10"` survives the corrected formatting. |
| Packets.SerialiseReadings | shared/packets.h:145-165 | Step 1 succeeds exactly when the readings array stays under 255 characters. It then yields `[` + the readings' JSON objects joined by commas + `]`. Each object's `v` is fmtVal's text as written, exponent stripping included (see Findings). |
| Packets.FillArrayBuffer | shared/packets.h:145-165 | The loop that appends comma-separated items to `rBuf` builds `"[" + JoinComma(items) + "]"` and fails exactly when the buffer limit is reached. |
| Packets.BuildSensorPacket | shared/packets.h:141-184 | The builder returns the packet of the sensor-packet function and its length. That packet carries every value as fmtVal writes it. |
| Packets.SensorPacketShape | shared/packets.h:167-183 | A successful packet is shorter than bufCap and starts with four spaces. Then comes the sorted-key body `{"n":..,"r":[..],"t":..` with `"c":"<crc>"}` last, where `<crc>` is the 8-hex-digit CRC of the body without `"c"`. The readings in the body carry fmtVal's text as written. |
| Packets.SensorPacketFails | shared/packets.h:157-183 | The builder returns 0 exactly when the readings array reaches 255 characters or the final packet does not fit in bufCap-4. |
| Packets.ExtractString | shared/packets.h:208-226 | A string is extracted only if the `"key":"` pattern occurs. It is shorter than the output capacity and holds no quote. |
| Packets.ExtractStringFinds | shared/packets.h:208-226 | When the first occurrence of the pattern is followed by a quote-free value and a closing quote, the result is that value truncated to outCap-1. |
| Packets.ExtractStringAfter | shared/packets.h:208-226 | In a quote-free prefix, key + value + closing quote extracts the value, truncated. |
| Packets.ExtractJsonInt | shared/packets.h:232-251 | The scanning method finds an integer exactly when the integer specification does, with the same value. |
| Packets.SkipBlankRun | shared/packets.h:242-243 | The blank-skipping loop stops at the first non-blank character. |
| Packets.ExtractInt | shared/packets.h:232-251 | A found value is within the range of a 32-bit long, and nothing is found without the `"key":` pattern. |
| Packets.NumberAt | shared/packets.h:241-250 | The number after the key is in long range (strtol saturates). |
| Packets.ExtractIntFinds | shared/packets.h:232-251 | The decimal text of any long after the first `"key":` (followed by a non-digit) extracts as that long. |
| Packets.ExtractJsonStringArray | shared/packets.h:258-307 | It returns -1 (and no elements) when the key is absent. Otherwise the count equals the number of elements and the elements are the specified ones. |
| Packets.ExtractArray | shared/packets.h:258-307 | The array is absent exactly when `"key":[` does not occur. There are never more than maxCount elements, and each is at most 162 characters. |
| Packets.ReadQuoted | shared/packets.h:277-303 | A quoted, quote-free element of at most 162 characters followed by `,` or `]` is read back unchanged, with the position after it and the right continuation flag. |
| Packets.JoinedBody | shared/packets.h:271-303 | The rendering `JoinComma(QuoteAll(args)) + "]"` of an argument list is a well-formed array body for those arguments, `]` alone for none. |
| Packets.ElementsOf | shared/packets.h:275-303 | A well-formed body of at least one quote-free element of at most 162 characters is read back element for element. |
| Packets.ExtractArrayOf | shared/packets.h:258-307 | Round trip: after the first `"key":[`, a well-formed body of at most maxCount such arguments extracts as exactly those arguments, and `[]` as no arguments. |
| Packets.CollectElements | shared/packets.h:275-307 | The element loop collects exactly the specified elements, at most `room` of them. |
| Packets.ReadElementAt | shared/packets.h:277-303 | One element read: found exactly when the specification finds one, with the same text, next position and continuation flag. |
| Packets.ReadElement | shared/packets.h:277-303 | A read element moves the position forward, is at most 162 characters and holds no quote. |
| Packets.Elements | shared/packets.h:275-307 | At most `room` elements, each at most 162 characters and quote-free. |
| Packets.CopyArg | shared/packets.h:286-290 | The copied element is the quoted text truncated to CMD_MAX_ARG_LEN-1. |
| Packets.CommandFields | shared/packets.h:322-367 | The extracted fields respect every buffer bound: cmd, crc and node id shorter than their buffers, a 32-bit timestamp, at most 4 arguments each shorter than 163. |
| Packets.ReadCommandFields | shared/packets.h:322-367 | Field extraction succeeds exactly when the field specification does, with the same fields. |
| Packets.BuildArgsText | shared/packets.h:380-388 | The loop renders the arguments as `[` + quoted arguments joined by commas + `]`. |
| Packets.RebuildBody | shared/packets.h:372-393 | The canonical body `{"a":[..],"cmd":..,"n":..,"t":"cmd","ts":..}` is rebuilt from the parsed fields. |
| Packets.ComputeCrcText | shared/packets.h:395-397 | The computed hex is the 8-digit lowercase CRC text of the body. |
| Packets.ParseCommand | shared/packets.h:322-408 | It accepts exactly when the specification does, with the same packet. |
| Packets.ParseCommandRejects | shared/packets.h:322-367 | Commands are rejected when empty, longer than 250, missing `"t":"cmd"`, or when `cmd`, `c` or `ts` cannot be extracted. |
| Packets.ParseCommandAccepted | shared/packets.h:340-407 | An accepted packet has length 1..250 and at most 4 arguments. A missing `n` gives an empty node id and a missing `a` gives no arguments. The received CRC text's value is the CRC of the canonical body. |
| Packets.ParseCommandIff | shared/packets.h:372-407 | For lengths 1..250, acceptance holds exactly when the fields extract and `%08x` of the rebuilt body's CRC equals the received `c` text. |
| Packets.ParseCommandRejectsUpperHex | shared/packets.h:397-405 | The comparison is case-sensitive: a `c` text with any uppercase (or non-hex) character is rejected. |
| Packets.BuildAckPacket | shared/packets.h:425-449 | It returns 0 exactly when the JSON and its four blanks do not fit below bufCap, or when `(int)(bufCap - 4)` is negative. Otherwise the packet is shorter than bufCap and is four blanks followed by the ACK JSON with `c` first. |
| Packets.BuildAckPacketWithPayload | shared/packets.h:464-495 | A NULL or empty payload gives the plain ACK. With a payload it returns 0 exactly when the CRC body reaches 250 characters, the cast size is negative, or the packet does not fit. Otherwise it is four blanks followed by the ACK JSON with `p`. |
| Packets.CommandId | shared/packets.h:429-431 | The ACK id is the decimal timestamp, `_`, and at most 4 characters of the command's CRC. |
| Packets.AckPacketShape | shared/packets.h:425-495 | A non-empty ACK is shorter than bufCap and starts with four spaces. Its `c` comes first on the wire and is the CRC text of the sorted body `{"id":..,"n":..,("p":..,)"t":"ack"}` without `c`. With a payload, the body is under 250 bytes. |
| Packets.AckCrcFound | shared/packets.h:442-445 | The `c` field placed first on the wire is what a receiver extracts as `c`. |
| Packets.AckWithoutPayload | shared/packets.h:464-471 | A NULL or empty payload yields exactly the plain ACK. |
| Registry.MatchingUpToIff | shared/packets.h:624-662 | Index i is dispatched exactly when it is a registered handler answering the command. Indices come in registration order. |
| Registry.MatchingIff | shared/packets.h:624-662 | A handler is invoked exactly when the packet is addressed to the node and the handler's name and scope admit it. A node id that is not empty and not the node's own invokes nothing. |
| Registry.Matching | shared/packets.h:624-631 | A packet for another node matches no handler. |
| Registry.MatchingUpToPrefix | shared/packets.h:586-618 | Matches over a prefix of the table are a prefix of the matches over the whole table, so lookup's first match is dispatch's first handler. |
| Registry.CommandRegistry.constructor | shared/packets.h:524-528 | cmdRegistryInit: no handlers, and the node's id stored. |
| Registry.CommandRegistry.Register | shared/packets.h:536-553 | A full registry (16) returns false and changes nothing. Otherwise the entry is appended at index count and earlier entries are unchanged. |
| Registry.CommandRegistry.Lookup | shared/packets.h:586-618 | It returns the first matching handler, and none exactly when no handler matches. |
| Registry.CommandRegistry.Dispatch | shared/packets.h:624-662 | It invokes exactly the matching handlers in registration order and returns true exactly when at least one ran. |
| Params.FmtKV | shared/params.h:68-107 | Empty exactly when `"name":value` does not fit in the buffer; otherwise the pair, shorter than the buffer. |
| Params.KV | shared/params.h:68-107 | The pair starts with the quoted name. |
| Params.ValueTextReadsBack | shared/params.h:68-107 | A numeric value printed at its typed width reads back with strtol (signed) or strtoul (unsigned) as the stored value. |
| Params.Fits | shared/params.h:127-145 | A response is kept exactly when it is shorter than the buffer. |
| Params.Find | shared/params.h:110-117 | The scan returns the first index with an equal name, or -1. |
| Params.IndexOfName | shared/params.h:110-117 | -1 exactly when no row has the name; otherwise the first row with it. |
| Params.IndexOfNameFrom | shared/params.h:110-117 | The first match at or after i, or -1 when none. |
| Params.SortedStrict | data_log/commands.cpp:72-89 | In a table sorted by adjacent pairs, every earlier name is strictly less than every later one. |
| Params.SortedFindsEveryRow | shared/params.h:110-117 | In a sorted table, the lookup of each row's name finds that row. |
| Params.ParamGet | shared/params.h:127-145 | paramGet's response is the get specification over the current memory. |
| Params.GetShape | shared/params.h:127-145 | An unknown name gives `{"e":"unknown param"}`. A found row gives `{` + its typed pair + `}`, or nothing when that does not fit. Responses are shorter than the buffer. |
| Params.Callbacks | shared/params.h:206-210 | onSet is called once when present and never otherwise. |
| Params.Set | shared/params.h:157-211 | paramSet's memory, callbacks and response are those of the set specification. |
| Params.SetRejects | shared/params.h:161-178 | An unknown name gives `unknown param`. A read-only or string row gives `read-only: <name>`. In both cases memory is unchanged and no callback runs. |
| Params.SetOutOfRange | shared/params.h:186-195 | A non-UINT32 value outside [minVal,maxVal] gives `range: min..max`, leaves memory unchanged and calls nothing. |
| Params.SetStores | shared/params.h:180-210 | An accepted value is stored at the row's typed width, cast to that width. UINT32 uses strtoul without a range check. No other byte changes, onSet is called once if present, and the response equals paramGet of the new value. |
| Params.SetAcceptsEndpoints | shared/params.h:186-204 | Both range endpoints are accepted and stored. |
| Params.PackStops | shared/params.h:224-310 | The greedy listing stops only at an entry that does not fit (the more flag), never past the end, and never truncates that entry. |
| Params.PackItems | shared/params.h:224-310 | The listed entries are exactly the non-empty candidates from the start to where listing stopped, in order. |
| Params.PackFits | shared/params.h:224-310 | The listed entries always fit in the buffer. |
| Params.ListShape | shared/params.h:224-263 | The result is empty exactly when bufSize < 16; otherwise it is shorter than bufSize. Entries come in table order from max(offset,0). m=1 exactly when listing stopped before the end, at an entry that does not fit. |
| Params.ListPastEnd | shared/params.h:224-263 | An offset at or past the table's end gives `{"m":0,"p":{}}`. |
| Params.List | shared/params.h:224-263 | paramsList's buffer is the listing specification, including the patched more flag. |
| Params.ListItems | shared/params.h:236-255 | The append loop collects the greedy page and its more flag. |
| Params.ListTurn | shared/params.h:238-255 | One loop turn keeps the page being built and the write position in step with the greedy specification. |
| Params.CmdsShape | shared/params.h:275-310 | The result is empty exactly when bufSize < 15; otherwise it is `{"c":[..],"m":X}` shorter than bufSize. It holds the quoted names in input order from the offset, and m=1 exactly when listing stopped before cmdCount. |
| Params.CmdsList | shared/params.h:275-310 | cmdsList's buffer is the command-list specification. |
| Params.CmdsItems | shared/params.h:286-306 | The append loop collects the greedy page of quoted names and where it stopped. |
| Params.CmdsTurn | shared/params.h:288-303 | One loop turn keeps the page and the write position in step with the greedy specification. |
| Params.MovesIff | shared/params.h:319-359 | A copy is performed exactly for the rows that have a destination: a non-NULL runtimePtr, or a config offset other than 0xFF, and a numeric type. |
| Params.CopyAll | shared/params.h:319-359 | The loop over the table performs the rows' copies in table order. |
| Params.CopyRow | shared/params.h:321-358 | One loop turn extends the copies done so far by this row's copy. |
| Params.ApplyStaged | shared/params.h:319-332 | paramsApplyStaged copies each non-string value with a runtime pointer into it, in table order. |
| Params.SyncToConfig | shared/params.h:341-359 | paramsSyncToConfig writes each numeric value with a config offset into the record at that offset and type width. |
| Params.CopiedRow | shared/params.h:319-359 | When the copies do not overlap, each row's destination ends up holding that row's source value. |
| Params.UntouchedByte | shared/params.h:319-359 | A byte outside every destination is unchanged. |
| Params.SyncKeepsHeader | shared/params.h:341-359 | The record's magic and cfgVersion bytes are never written by the sync. |
| Params.AppliedTwice | shared/params.h:319-359 | Applying independent copies twice is the same as once. |
| Commands.TableValid | data_log/commands.cpp:72-89 | Every parameter row's storage lies within memory and fits its type. |
| Commands.TableSorted | data_log/commands.cpp:72-89 | The parameter names are strictly ascending, as the table's comment requires. |
| Commands.EveryRowFound | data_log/commands.cpp:72-89 | Looking up each row's name finds that row. |
| Commands.EchoResponse | data_log/commands.cpp:138-147 | The echo response always fits the response buffer. |
| Commands.Echo | data_log/commands.cpp:138-147 | handleEcho writes the echo response. |
| Commands.EchoRoundTrip | data_log/commands.cpp:138-147 | The `r` value read back from the response is "" without an argument, else args[0]. |
| Commands.GetParamResponse | data_log/commands.cpp:190-198 | Without arguments the response is `{"e":"missing param name"}`. |
| Commands.GetParam | data_log/commands.cpp:190-198 | handleGetParam writes paramGet of args[0] into the response buffer. |
| Commands.GetParamOfRow | data_log/commands.cpp:190-198 | Getting a row's name renders that row's typed pair, or nothing when it does not fit. |
| Commands.SetParamSpec | data_log/commands.cpp:200-208 | Fewer than 2 arguments give `{"e":"usage: name value"}`, with memory unchanged and no callback. |
| Commands.SetParam | data_log/commands.cpp:200-208 | handleSetParam's memory, callbacks and response are those of the specification. |
| Commands.SetThenGet | data_log/commands.cpp:190-208 | After an accepted set, the set response equals a get of the same name, and only the row's bytes changed. |
| Commands.Offset | data_log/commands.cpp:210-216 | The offset is 0 without an argument, else atoi(args[0]), a 32-bit value. |
| Commands.OffsetOfDecimal | data_log/commands.cpp:210-216 | A decimal offset argument is read as its value. |
| Commands.GetParams | data_log/commands.cpp:210-216 | handleGetParams writes paramsList from the argument's offset into the response buffer. |
| Commands.GetCmds | data_log/commands.cpp:241-247 | handleGetCmds writes cmdsList of the sorted names from the argument's offset. |
| Commands.SaveCfgSpec | data_log/commands.cpp:176-186 | After the sync, the stored record equals the synced record. The response is `saved` exactly when the stored bytes differed, else `unchanged`. |
| Commands.SaveCfg | data_log/commands.cpp:176-186 | handleSaveCfg syncs then saves, with the memory, EEPROM and response of the specification. |
| Commands.SaveCfgTwice | data_log/commands.cpp:176-186 | A second savecfg right after the first writes nothing and answers `unchanged`. |
| Commands.SyncMoves | data_log/commands.cpp:72-89 | The table's sync copies are exactly bandwidth, rx duty, spreading factor and tx power, one byte each, into their record offsets. |
| Commands.SyncIndependent | data_log/commands.cpp:72-89 | Those copies do not overlap one another. |
| Commands.InitTableRules | data_log/commands.cpp:251-265 | Only savecfg and setparam are PRIVATE, and only discover is BROADCAST with jitter. discover shares ping's handler. earlyAck is false exactly for echo, getcmds, getparam, getparams and savecfg. |
| Commands.InitDispatch | data_log/commands.cpp:251-265 | savecfg and setparam run only for the node's own id, and discover only for broadcasts. |
| Commands.CommandsInit | data_log/commands.cpp:251-265 | The 11 handlers are appended in table order, as far as the registry has room. The name list then holds the registered names, sorted. |
| Commands.Appended | data_log/commands.cpp:251-265 | Registration never exceeds the 16-entry table. |
| Commands.NameList.constructor | data_log/commands.cpp:220-221 | The name list starts empty. |
| Commands.NameList.Build | data_log/commands.cpp:223-239 | buildCmdNameList leaves the registered names sorted ascending. |
| Commands.InsertionSort | data_log/commands.cpp:230-238 | The in-place sort leaves the first n names sorted (Sorted) and the rest unchanged. |
| Commands.SortStep | data_log/commands.cpp:230-238 | Each outer step extends the sorted prefix by one name. |
| Commands.InsertOne | data_log/commands.cpp:231-237 | One insertion places a[i] into the sorted prefix. |
| Commands.ShiftUp | data_log/commands.cpp:233-236 | The inner loop shifts up exactly the names greater than the key, stopping at one not greater. |
| Commands.InsertAt | data_log/commands.cpp:233-237 | Placing the key after the names not greater than it is the insertion. |
| Commands.InsertPermutes | data_log/commands.cpp:230-238 | Insertion adds the key to the multiset and loses nothing. |
| Commands.InsertSorted | data_log/commands.cpp:230-238 | Insertion into an ascending list keeps it ascending. |
| Commands.SortedSorts | data_log/commands.cpp:223-239 | The sorted list is ascending by strcmp and a permutation of the input. |
| Text.StrLessTransitive | data_log/commands.cpp:233 | strcmp ordering is transitive. |
| Text.StrLessTotal | data_log/commands.cpp:233 | Any two names are equal or ordered one way. |
| Config.Defaults | shared/config.h:133-146 | The defaults record is a current record (magic 0xCF and CFG_VERSION). |
| Config.DefaultsRadioFields | shared/config.h:133-146 | The defaults hold the compile-time tx power, rx duty, spreading factor and bandwidth. |
| Config.DefaultsFrequencies | shared/config.h:133-146 | The defaults hold the compile-time node-to-gateway and gateway-to-node frequencies. |
| Config.DefaultsRates | shared/config.h:133-146 | The defaults hold the BME280 and battery rates and the ACK jitter. |
| Config.Loaded | shared/config.h:180-203 | The stored record if its magic and version are current, else the defaults. |
| Config.Load | shared/config.h:180-212 | cfgLoad returns true exactly when the stored magic and version match. Without UPDATE_CFG it yields the stored record or the defaults and writes nothing. With UPDATE_CFG it yields and saves the defaults, but still returns the original validity. |
| Config.Save | shared/config.h:154-168 | cfgSave returns false and writes nothing when the stored bytes equal the record. Otherwise it stores the record at offset 17 and returns true. |
| Config.SaveStores | shared/config.h:154-168 | After a save the stored record is the saved one, and saving it again changes nothing. |
| Config.SaveKeepsIdentity | shared/config.h:154-168 | A save leaves the node identity slot [0,17) and the bytes past the record unchanged. |
| Config.LoadAfterSave | shared/config.h:154-203 | Loading after saving a current record yields that record. |
| Config.DefaultsLoadBack | shared/config.h:133-203 | Saved defaults load back as the defaults. |
| Config.LoadedNodeIdCases | shared/config.h:88-103 | With the identity magic and a non-empty id, the stored name bytes up to the first zero, at most 15 (byte 15 forced to NUL). Otherwise the default id truncated to 15. |
| Config.LoadedNodeId | shared/config.h:88-103 | The loaded id is at most 15 characters. |
| Config.CStringOfPrefix | shared/config.h:93-95 | A C string read from bytes is their prefix up to the first zero byte. |
| Config.SaveNodeId | shared/config.h:110-128 | cfgSaveNodeId writes the identity (magic plus id truncated to 15 and zero-padded) only when it differs from what is stored, and returns whether it wrote. |
| Config.SaveIdWrites | shared/config.h:110-128 | Afterwards the identity slot holds the identity. |
| Config.SaveIdKeepsConfig | shared/config.h:110-128 | Saving the id never touches the config region, so the stored record is unchanged. |
| Config.IdentityName | shared/config.h:110-118 | The identity's name bytes read back as the id truncated to 15. The first name byte is zero exactly when that name is empty. |
| Config.NodeIdRoundTrip | shared/config.h:88-128 | Loading after saving an id yields the id truncated to 15 characters, or the default id when that is empty. |
| Led.ParseColor | shared/led.h:134-153 | Every string maps to one of the enum's colours. |
| Led.ParseColorIff | shared/led.h:134-153 | A string maps to one of the seven colours exactly when it names that colour, in full or by letter, case-insensitively. It maps to LED_OFF exactly when it names none of them. |
| Led.ParseColorNames | shared/led.h:134-152 | Each colour's full name, its letter and its upper-case name parse to it (off/o to LED_OFF). |
| Led.NamedParses | shared/led.h:134-152 | Any string naming a colour parses to that colour. |
| Led.NamesExclusive | shared/led.h:134-152 | No string names two colours, so the order of the comparisons does not matter. |
| Led.ColorBrightness | shared/led.h:88-119 | Each channel in the colour's mix is set to the brightness and every other channel to 0. LED_OFF and unknown values turn the LED off. |
| Led.SetColor | shared/led.h:124-127 | ledSetColor uses LED_BRIGHTNESS, 128. |
| Led.BlinksShape | shared/led.h:159-168 | count blinks are count on/off phases with count-1 inter-blink delays, 2·count-1 delays in all. |
| Led.Blink | shared/led.h:159-168 | ledBlink's loop emits the blink events of the colour at the brightness. |
| Buttons.Debounce | examples/buttons_and_lights.cpp:85-111 | The timer restarts whenever the reading changes. The state changes only after more than 50 ms (unsigned difference), and only to the reading. A press is reported exactly on a debounced change to LOW. The reading is always remembered. |
| Buttons.SteadyReadingTaken | examples/buttons_and_lights.cpp:96-101 | A reading steady for more than 50 ms becomes the state, and it is a press exactly on a HIGH-to-LOW change. |
| Buttons.BounceIgnored | examples/buttons_and_lights.cpp:88-101 | A changed reading checked within 50 ms only restarts the timer. |
| Buttons.HoldPressesOnce | examples/buttons_and_lights.cpp:85-111 | Holding the button down reports one press. |
| Buttons.Button.constructor | examples/buttons_and_lights.cpp:12-15 | The statics start released with the timer at 0. |
| Buttons.Button.Init | examples/buttons_and_lights.cpp:71-77 | buttonInit resets both states to HIGH and the timer to 0. |
| Buttons.Button.Pressed | examples/buttons_and_lights.cpp:85-111 | buttonPressed updates the statics and returns as the debounce function says. |
| Buttons.LampsOf | examples/buttons_and_lights.cpp:34-62 | The enum values drive exactly their mix's channels: OFF none, WHITE all, the mixed colours two. Values outside the enum have no case. |
| Buttons.RgbLed.constructor | examples/buttons_and_lights.cpp:19-25 | ledInit: all pins off. |
| Buttons.RgbLed.SetRgb | examples/buttons_and_lights.cpp:27-32 | The three pins take the given levels. |
| Buttons.RgbLed.Off | examples/buttons_and_lights.cpp:64-67 | All pins off. |
| Buttons.RgbLed.SetColor | examples/buttons_and_lights.cpp:34-62 | The pins show the colour's channels. A value outside the enum leaves them unchanged. |
| Wdt.SleepWdt | shared/wdt.h:26-50 | The chunks add up to totalMs exactly, and each is 1..2000 ms. All but the last are full. There are ceil(totalMs/2000) chunks (one feed each), and none for 0. |
| SensorPack.Pack | data_log/sensors.h:42-78 | sensorPack (in sensors.h and, identically, at data_log/sensor_drv.h:68-104) returns the length, packet and next offset of the greedy packing specification, over packets that carry fmtVal's text as written. The timestamp is always 0, so equal inputs give identical packets. |
| SensorPack.Search | data_log/sensor_drv.h:85-100 | The decrementing loop stops at the largest end whose packet fits, and holds that packet. |
| SensorPack.BuildAt | data_log/sensor_drv.h:85-91 | Each try builds the packet of the readings in range with timestamp 0. |
| SensorPack.LargestFitIsLargest | data_log/sensor_drv.h:85-94 | The end found fits, and no larger end up to the count fits. |
| SensorPack.PackPastEnd | data_log/sensor_drv.h:72-75 | An offset at or past the count returns 0 with nextOffset = count. |
| SensorPack.PackSucceeds | data_log/sensor_drv.h:85-103 | On success the length is 1..250 and offset < nextOffset <= count. The packet holds exactly readings[offset..nextOffset), and no larger end fits. |
| SensorPack.PackSkipsOversized | data_log/sensor_drv.h:96-100 | 0 is returned exactly when no end fits, and then nextOffset = offset+1. |
| SensorPack.BatchesTile | data_log/sensor_drv.h:68-104 | Iterating offset := nextOffset from any offset terminates. The batches are non-empty and contiguous, and reach the count. |
| SensorPack.TiledOnce | data_log/sensor_drv.h:68-104 | In contiguous non-empty batches, every index lies in exactly one batch. |
| SensorPack.CoversEveryReading | data_log/sensor_drv.h:68-104 | Packing from 0 covers every reading exactly once. |
| SensorPack.Ascending | data_log/sensor_drv.h:68-104 | The batches come in increasing order. |
| SensorPoll.IntervalMs | data_log/sensor_drv.cpp:55-58 | The interval is 5 s without a pointer, 0 is read as 1 s, and the result is a whole number of seconds. |
| SensorPoll.IntervalFromPointer | data_log/sensor_drv.cpp:55-58 | With a pointer, the uint16 at it gives the interval in seconds (1 if 0). |
| SensorPoll.Elapsed | data_log/sensor_drv.cpp:60-61 | `now - last_tx_time` is computed modulo 2^32: correct across a millis() wrap. |
| SensorPoll.SlotStep | data_log/sensor_drv.cpp:55-82 | A slot is serviced exactly when it is due: last_tx_time is 0, or the elapsed time reaches the interval. A slot that is not due is untouched. |
| SensorPoll.Service | data_log/sensor_drv.cpp:64-82 | A dead or not-alive driver is re-initialised, and stays dead (timestamp unchanged) when init fails. Readings are taken only when alive and the read returns a positive count. last_tx_time becomes now only then. |
| SensorPoll.PollStep | data_log/sensor_drv.cpp:51-84 | One loop turn: the slot is replaced by its step and its readings are appended. |
| SensorPoll.PollDone | data_log/sensor_drv.cpp:51-53 | The loop ends after the last slot or once total reaches maxReadings. |
| SensorPoll.PollAppends | data_log/sensor_drv.cpp:76-82 | Readings are only ever appended, contiguously in slot order. Once any are taken, the total stays at most maxReadings. |
| SensorPoll.PollBounded | data_log/sensor_drv.cpp:51-86 | A poll returns at most maxReadings readings. |
| SensorPoll.PollSlots | data_log/sensor_drv.cpp:51-86 | Each slot ends in its liveness outcome. A slot that is not due, or not reached, is unchanged. |
| SensorPoll.RegisterKeeps | data_log/sensor_drv.cpp:28-38 | A full registry (4 slots) is unchanged. Otherwise one slot is appended and the existing ones are kept. |
| SensorPoll.InitialisedAt | data_log/sensor_drv.cpp:40-47 | Each slot's alive becomes init's answer, and its driver and timestamp are kept. |
| SensorPoll.StoreReadings | data_log/sensor_drv.cpp:76-82 | The driver's readings land at out[total..] and nothing else in out changes. |
| SensorPoll.Registry.constructor | data_log/sensor_drv.cpp:18-24 | No slots. |
| SensorPoll.Registry.Register | data_log/sensor_drv.cpp:28-38 | sensorRegister appends the driver with last_tx_time 0 and alive false, unless four slots are full. |
| SensorPoll.Registry.InitAll | data_log/sensor_drv.cpp:40-47 | sensorInitAll sets each slot's alive to init's answer. |
| SensorPoll.Registry.Visit | data_log/sensor_drv.cpp:55-83 | One slot's visit updates that slot and appends its readings at out[total..]. |
| SensorPoll.Registry.Poll | data_log/sensor_drv.cpp:49-86 | sensorPoll leaves the slots and out[..total] as the poll specification says and returns its count. out past total is unchanged. |
| SensorPoll.Registry.PollTurn | data_log/sensor_drv.cpp:51-84 | One loop turn keeps the slots and the readings so far in step with the specification. |
| Memory.CopiesDisjoint | shared/params.h:319-359 | With non-overlapping destinations and sources, each copy's destination ends up holding its source bytes. |
| Memory.CopiesTwice | shared/params.h:319-359 | Repeating independent copies changes nothing more. |
| Memory.UnsignedLittleEndian | shared/params.h:341-359 | Bytes written little-endian read back as the value modulo the width. |
| Memory.SignedLittleEndian | shared/params.h:180-204 | Signed values read back as the value wrapped to the width. |
| Memory.Store | shared/config.h:154-168 | A byte store writes exactly the given bytes at the address and nothing else. |

## Left out

- The sensor drivers (BME280 over I2C, the battery ADC) and their float conversions are left out. A driver's init(), is_alive() and read() answers are inputs of the model, a `Probe` per slot and poll. SensorPoll.Service assumes, as both drivers do, that read() stores all of its readings when they fit in the room it is given and returns 0 otherwise.
- The `%.8g` rendering of a double is floating-point formatting. A reading carries printf's text as an input, and only the zero-stripping of fmtVal is modelled. The packet carries fmtVal's result as written.
- Values are not escaped anywhere in the firmware; the model assumes names, units, ids and arguments hold no `"`.
- Packets.ParseCommand: the model hashes the whole rebuilt body. The C code prints that body into crcBuf[250] and hashes `pos` bytes, the untruncated length. A rebuilt body of 250 characters or more is cut to 249 in the buffer, and crc32_compute then reads past its end. The rebuilt body can be longer than the packet, because a missing `n` or `a` is added and a negative `ts` prints as a large unsigned number. That overlong case is not modelled.
- Packets.BuildAckPacket: the model hashes the whole plain ACK body. The C code prints it into crcBuf[128] and hashes `cLen` bytes, so a body of 128 characters or more, which a long node id gives, makes crc32_compute read past the buffer. That case is not modelled.
- Packets.ExtractArrayOf: the round trip is stated for bodies without blanks, over arguments that hold no quote and have at most 162 characters. Longer arguments are truncated, as Packets.ExtractArray states.
- C `snprintf` truncation mechanics are not modelled. Each builder's capacity check is explicit, and a builder that returns 0 is modelled as the empty string.
- Handler callbacks are handler numbers. Invoking one is recorded as a call in the dispatch result rather than run.
- The post-set callbacks (onSetTxPwr, onSetRadio and applyTxConfig/applyRxConfig) drive the radio and are recorded as calls only. handleBlink, handleReset, handleTestLed and ledTest drive hardware, delays and resets and are not modelled. handlePing only prints a debug line, so only its registration is modelled.
- The shared response buffer `cmdResponseBuf` is the handler's returned string.
- The RAM addresses of the parameter globals and of the configuration record are chosen by the model. Storage pointers are addresses into one byte array.
- Commands.SaveCfg: the model requires the RAM and the EEPROM to be different arrays, as they are on the device.
- EEPROM.begin/commit are not modelled; EEPROM is a byte array written with EEPROM.put semantics.
- The 8-field paramTable rows in data_log/commands.cpp predate the runtimePtr field of shared/params.h. The model follows params.h, with runtimePtr NULL for every row of that table.
- The NodeConfig layout of shared/config_types.h lacks bme280RateSec/battRateSec, which shared/config.h sets. The model's record holds the fields config.h touches.
- paramsTableIsSorted is not defined in the shown shared/params.h. Params.Sorted (adjacent names strictly ascending) stands in for it.
- memcpy between overlapping regions is undefined in C. Memory.CopyBytes takes a snapshot of the source first.
- millis() and the pin readings are parameters of the calls that read them. delay() and feedInnerWdt() are observed as the chunk list of Wdt.SleepWdt.
- Led: ledSetRGB and the NeoPixel calls are represented by the channel levels set. The colour order macro (GRB vs RGB) is not modelled. ledBlink's events are its output.
- The ACK jitter is randomness and the ACK timing loop is not in this code; only the jitter flag of a registration is modelled.
- Text.StrToLong/StrToULong model strtol/strtoul on a 32-bit target, saturating at their limits, for the decimal forms the firmware reads.

## Findings

| source | as written | input that shows it | evidently intended | confidence | as-written member | corrected member |
|---|---|---|---|---|---|---|
| shared/packets.h:118-129 | fmtVal strips every trailing '0' after the first '.', including the digits of an exponent | 1.5e10, printed by `%.8g` as "1.5e+10", becomes "1.5e+1" in the sensor packet | strip only the mantissa's trailing zeros and keep the exponent; the packet builder keeps the as-written text | not executed | Packets.FmtValStripsExponent | Packets.FmtValFixedKeepsExponent |
