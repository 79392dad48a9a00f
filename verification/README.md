# CellMgr: a verified model of the daemon's text machinery, buffers, subprocess capture and persistent state

CellMgr is a C daemon that drives a cellular modem through oFono and AT commands and serves a small HTTP API. This
project models, in Dafny 4.11, the parts the daemon writes by hand: its JSON printer and its textual JSON lookup, the
parsers for modem responses, template substitution, growable buffers and in-place trimming, the capture of a child
process, the scheduled reboot, base64, modem selection, the configuration file, and the state that requests change and
a restart rebuilds. `dafny verify dfyconfig.toml` checks everything.

## How the model is built

- Text is `string`, one `char` per byte. C strings contain no NUL. A pointer into a text is an index or the rest of
  the text from it.
- Loops over text, buffers and fixed arrays are methods with loops. `Buffer.Buf` is `cellmgr_buf` with its real fields
  and a ghost copy of its contents; `Config.AppConfig` has one field per field of `app_config`; `AppState.AppState`
  holds the configuration and the tables of the database; `Capture.Child` is the child process with its two pipes.
  Every such method is tied to a function, and the properties are lemmas about the functions.
- `%d`, `atoi`, `strstr`, `strtok_r`, `strncat`, `fgets` and the `sscanf` patterns in use are specified in `CStrings`,
  `CharArrays`, `Template` and `Config`. `atoi` saturates to the range of `long` and then wraps to 32 bits.
- The environment is an argument: the reply of the modem, the clock, the files at start, and, for the capture loop, a
  schedule of everything the child does.
- `Json` holds a JSON reader written from RFC 8259 (sections 2 to 7, bytes from 0x80 on opaque). It shares nothing
  with the daemon's own code and is the judge of what the daemon prints.

| files | component |
|---|---|
| `CStrings`, `CharArrays`, `Buffer` | C string functions, strings in fixed arrays and `trim_in_place`, `cellmgr_buf` |
| `Json`, `JsonUtil` | JSON documents, reader and printer; `json_escape`, `json_prop_*`, `json_get_*` |
| `Profile`, `PrintedBlocks`, `ProfileLookup`, `ProfileBlocks` | the brace scanner, the textual lookups against tree lookups, and which object a lookup takes |
| `Payload`, `Bands`, `Sms`, `SmsListing`, `AtParsers`, `AtResponse` | AT responses: payload, bands, messages, every parser |
| `AtReceived`, `ListsReceived`, `SmsReceived` | rendered AT responses, parsed and then read back: which part of a response comes out under which name |
| `DbusMessages`, `DbusReply`, `DbusContainers` | the message list of a D-Bus reply, the round trip from its printed form, and when the output is JSON |
| `Template`, `Chains`, `LockCommands`, `LockRequests` | `replace_token`, simultaneous substitution, chains of replacements, the lock requests and the JSON values they take |
| `ConfigKeys`, `Config`, `ConfigFile` | the configuration, `config_load`, and printing followed by loading |
| `AppModel`, `AppRuns`, `RequestResults`, `ProfileRuns`, `AppState` | requests, restart and cache as functions, properties of all runs, what a request with a JSON body does, how profiles get lost, the handlers |
| `Capture`, `Scheduler`, `Base64`, `Ofono`, `ModemList` | `run_capture`, the scheduled reboot, `base64_encode`, modem selection and the printed list it reads |

## What the proofs found

- **Over-long profile ids.** Activation stores the whole id in the table but only 127 bytes in memory. The active id
  then names a stored profile exactly when its first 127 bytes do (`AppRuns.ActiveStaysIff`); `ProfileRuns.ActiveLost`
  is a run that loses it.
- **Restart re-imports the profile file**, so an edited profile with the id of that file is lost
  (`ProfileRuns.EditLost`); `ProfileRuns.RestartReimports` says exactly when a restart leaves the profiles alone.
- **Final wait without a timeout.** A child that closes both streams and lives on ends the loop at once; the wait that
  follows is not covered by the timeout (`Capture.CloseLeavesWait`). It is covered exactly when the run was killed or
  the child exited up to the last poll (`Capture.WaitCoveredIff`).
- **A capability that is no object.** The scanner then takes the object that begins next, which can belong to another
  capability, and the lookup returns that one's command (`ProfileBlocks.BlockInDoc`, `ProfileBlocks.NextCommandTaken`).
  `ProfileBlocks.BlockAgreesIff` and `ProfileBlocks.CommandInDocIff` say exactly when text and tree agree. If the next
  brace is that of a placeholder such as `{mode}` in a string, the placeholder is the block (`ProfileBlocks.BlockInText`).
- **Day of the year.** The scheduler remembers `tm_yday` only. After a year with the schedule off it skips the same
  day of the next year (`Scheduler.DueFiresIff`, `Scheduler.MissedAfterAYear`, `Scheduler.YearIsMissed`). The first
  firing reboots the device, so the process lives to see the next year only if that reboot fails.
- **Two reboots on one day.** The next process remembers nothing: a boot that ends within the scheduled minute is
  followed by a second reboot (`Scheduler.TwoFiringsIff`, `Scheduler.BootWithinMinute`).
- **Band lock values.** Values of the band lock request come as text and can complete a later token: they can
  continue one that begins before them in the template, or begin one themselves; even an empty value joins what stands
  around it. Some template exposes every such clash (`LockCommands.BandIsSubstIff`), and values that contain a later
  token are changed by the plainest one (`LockCommands.BandNotSubst`).
- **D-Bus containers.** Of an array or struct variant only the opening bracket is copied to the output, which is then
  not JSON; the same goes for variants within variants, file descriptors, `nan` and `inf`
  (`DbusContainers.ReplyIsJsonIff`).
- **Empty CMGL fields** and long bodies are not received as sent; the exact condition is
  `SmsListing.ReceivedIsOriginalIff`.
- **A read message without text** has the text `OK`: the scan for the body skips all line breaks and with them the
  empty line (`SmsReceived.ReadReceived`).
- **Quotes in a D-Bus reply.** `dbus-send` does not escape them, so the payload ends at the first one; of an operator or
  message response only the part before its first quoted field is left (`Payload.PayloadReceived`).
- **Empty columns of a cell line** are skipped by `strtok_r`: what stands behind one is reported under the name of an
  earlier column (`ListsReceived.CellsReceived`, `ListsReceived.Filled`).
- **Empty quoted fields** end a conversion: behind an empty operator the access technology is -1, and behind an empty
  area both cell and technology are lost (`AtReceived.CopsReceived`, `AtReceived.RegistrationReceived`).
- **Modem selection.** A modem that only registers and sends messages loses to one that cannot send messages but has
  all the rest (`ModemList.BareIsNotChosen`).
- **Control bytes** other than newline, return and tab do not survive `json_escape` followed by `json_get_string`
  (`JsonUtil.DecodeEscapedIff`).
- The NR band code is `5000 + band` in the code, while `DESIGN.md:278` says that 501 means n1. The model follows the code.

## Model

| member | source | states |
|---|---|---|
| `Buffer.Buf.constructor` | src/common.c:59-72 | a new buffer is empty, NUL-terminated, and has the requested capacity or the default one |
| `Buffer.Buf.Reserve` | src/common.c:41-57 | doubling keeps the contents, reaches the need but less than twice it, counts the bytes copied, and stays below 2^64 for needs up to 2^63 |
| `Buffer.Buf.AppendN` | src/common.c:80-89 | the first n bytes are appended after the old contents, the NUL stays in place, and growth stays below twice the need |
| `Buffer.AppendAll` | src/common.c:41-94 | after any run of appends the contents are the concatenation of the pieces, and all reallocations together copied less than the final capacity, which is below twice the need once the buffer has grown |
| `CStrings.AtoiDec` | src/http.c:820-827 | `atoi` reads back every `int` printed with `%d`, whatever non-digit follows |
| `CStrings.TrimPadded` | src/common.c:175-195 | blanks around a trimmed text are exactly what trimming removes |
| `CharArrays.TrimInPlace` | src/common.c:175-195 | the array ends up holding the trimmed text at the same place, and nothing outside the old string changes |
| `CharArrays.MoveDown` | src/common.c:183-185 | moving bytes to a lower address copies them faithfully although the ranges overlap, and changes nothing else |
| `JsonUtil.JsonEscape` | src/json_util.c:5-43 | appends the JSON string literal of the text, as the reader of RFC 8259 understands it |
| `JsonUtil.PropString` | src/json_util.c:45-51 | appends a member to an object under construction, with a comma exactly when it is not the first |
| `JsonUtil.PropInt` | src/json_util.c:53-58 | the same for a decimal integer |
| `JsonUtil.JsonGetString` | src/json_util.c:60-107 | returns the decoded string after the first occurrence of the quoted key and a colon, and nothing in all other cases |
| `JsonUtil.JsonGetInt` | src/json_util.c:60-79 | returns the integer there, the fallback only if the key is not found, and always an `int` |
| `JsonUtil.DecodeEscapedIff` | src/json_util.c:5-43 | decoding an escaped text gives it back if and only if it has no byte below 0x20 other than newline, return and tab |
| `JsonUtil.ReadObject` | src/json_util.c:45-58 | an object built member by member reads back as exactly those members, in order |
| `Json.ReadPrint` | src/json_util.c:5-43 | every document, in every layout, reads back as its value; escaping is the only part of it that the daemon chooses |
| `Payload.ExtractQuotedAfter` | src/parsers.c:21-56 | the flag-based loop returns the decoded text after the first double quote |
| `Payload.DecodersAgreeIff` | src/parsers.c:21-56 | the flag-based decoder and the lookahead decoder of `json_get_string` agree exactly when the text is not unterminated with a dangling backslash; otherwise they differ by that backslash |
| `Payload.NormalizedAtPayload` | src/parsers.c:58-69 | the payload is the quoted text of a D-Bus reply, or the raw text itself |
| `Payload.PayloadReceived` | src/parsers.c:58-69 | the payload of a D-Bus reply is the text of its first string up to the first double quote, if that holds no backslash |
| `Payload.FindLinePrefix` | src/parsers.c:6-19 | for every prefix, finds the first line of the text that starts with it, and returns the text behind it |
| `Profile.FindCapabilityBlock` | src/profile.c:4-55 | returns the block from the first brace after the quoted capability, as characterised by `Profile.BlockUnique` |
| `Profile.BlockUnique` | src/profile.c:16-46 | a prefix whose braces outside string literals balance for the first time is the block, so the block is the unique shortest one and is missing only if there is none |
| `PrintedBlocks.BlockOfObject` | src/profile.c:16-46 | on any printed JSON object the scanner stops at that object's own closing brace, whatever text follows |
| `ProfileLookup.GetCapabilityCommand` | src/profile.c:120-137 | the capability's field, or for `discovery.command` the command of the nested discovery block |
| `ProfileLookup.GetCapabilityTtl` | src/profile.c:139-153 | the time to live of the discovery block, or the fallback when a block or the key is missing |
| `ProfileLookup.SearchPrinted` | src/json_util.c:60-79 | searching the printed text for a quoted key finds the first string token equal to the key in the tree |
| `ProfileLookup.StringInDoc` | src/json_util.c:60-107 | on any layout of any tree the textual lookup of a string equals the lookup in the tree |
| `ProfileLookup.IntegerInDoc` | src/json_util.c:109-116 | the same for integers, including values that are no numbers |
| `ProfileBlocks.BlockInDoc` | src/profile.c:4-55 | the block is the printed object that begins next after the first token equal to the key; if a string holds the next brace the scan starts inside that string, and without a further brace or without the token there is none |
| `ProfileBlocks.BlockAgreesIff` | src/profile.c:4-55 | when no string holds the next brace, the text has a block exactly when the tree has an object for the key, if and only if the key is absent, bound to an object, or no object begins behind it; an object of the tree is the one in the block |
| `ProfileBlocks.BlockInText` | src/profile.c:4-55 | when a string holds the next brace and braces balance in the plain part of it, that part is the block although the tree has no object |
| `ProfileBlocks.NextObjectTaken` | src/profile.c:4-55 | a capability bound to a number, `true`, `false` or `null` gets the object of the member after it, although the tree has no object for it |
| `ProfileBlocks.NextCommandTaken` | src/profile.c:120-137 | and with it that member's command, although the tree has none |
| `ProfileBlocks.CommandInNext` | src/profile.c:120-137 | for any tree and layout the command found in the text is the one bound in the next object, or in the discovery object that begins next in that |
| `ProfileBlocks.CommandInDocIff` | src/profile.c:120-137 | it is the command that the tree has, if and only if the lookup does not stray to an object that has one |
| `ProfileBlocks.CommandInDoc` | src/profile.c:120-137 | in particular for a capability that is an object or absent, with the discovery fallback; of all strings only the returned one has to be decodable |
| `ProfileBlocks.TtlInDocIff` | src/profile.c:139-153 | the time to live found in the text is that of the tree, if and only if the lookup does not stray to an object with another one than the fallback |
| `ProfileBlocks.TtlInDoc` | src/profile.c:139-153 | in particular for a capability and a discovery block that are objects or absent |
| `Bands.AppendFibocomBandItems` | src/parsers.c:159-229 | appends one object for each symbolic band and then each numeric one, with the bounded table of seen codes |
| `Bands.BandCodesAreUnion` | src/parsers.c:159-229 | the emitted codes are exactly the codes of the complete `BAND_` names anywhere in the text together with the maximal digit runs of value 100 or more, even when the table is full |
| `Bands.RunValue` | src/parsers.c:199-226 | the value read for a maximal digit run is its decimal value when that fits an `int` |
| `Bands.BandsConsistent` | src/parsers.c:159-229 | every item has code 5000 + band for NR and 100 + band otherwise |
| `Bands.NumericCodeMeans` | src/parsers.c:199-226 | a numeric code of 5000 or more is the NR band code - 5000 with label n, and a smaller one the LTE band code - 100 with label B |
| `Bands.NameMeans` | src/parsers.c:166-184 | a printed name `BAND_<rat>_<band>` gives that technology and band, the code 5000 + band for NR and 100 + band otherwise, and the label of its technology |
| `Bands.BandsInOrder` | src/parsers.c:159-229 | the bands of the names come first and in the order of the names, then those of the numeric codes in the order of the runs of digits |
| `ListsReceived.BandsReceived` | src/parsers.c:159-243 | a JSON reader gets every band with its technology, code, band and label under the names `rat`, `code`, `band` and `label` |
| `Bands.NumericPartDistinct` | src/parsers.c:199-226 | while the table holds all codes, numeric codes are pairwise distinct and differ from the symbolic ones |
| `Sms.AppendMessages` | src/parsers.c:363-395 | the two nested loops over one `strtok_r` cursor emit the message list of the lines |
| `Sms.OneMessagePerHeader` | src/parsers.c:363-395 | there are as many messages as `+CMGL:` lines |
| `Sms.MessageAtHeader` | src/parsers.c:363-395 | a header with k headers before it gives message k, made of that header and the lines up to the next header or `OK` |
| `SmsListing.ListingReceived` | src/parsers.c:363-395 | rendering any list of messages as a CMGL response and parsing it gives one received message for each, in order, with its fields and body |
| `SmsListing.ReceivedIsOriginalIff` | src/parsers.c:363-395 | a received message equals the one sent exactly when no field before a filled one is empty and the body fits 511 bytes |
| `SmsReceived.ListingRead` | src/parsers.c:361-395 | for every sendable list of messages the reader of the output gets parser, one item for each message with index, status, sender, timestamp and body of that message under their names, and the listing as `raw` |
| `SmsReceived.ReadReceived` | src/parsers.c:397-436 | a rendered `+CMGR` response reads back as the message with its fields under their names, both as the only item and as `message`; a message without text has the body `OK` |
| `AtResponse.ParseAtResponseJson` | src/parsers.c:438-457 | every parser prints the object that its specification lists for the payload |
| `AtResponse.ParseGtact` | src/parsers.c:231-243 | prints the band list and the payload |
| `AtResponse.ParseGtccinfo` | src/parsers.c:293-353 | prints one item for each line with cell data, and the payload |
| `AtResponse.ParseCgeqos` | src/parsers.c:267-291 | prints one item for each `+CGEQOS:` line, and the payload |
| `AtResponse.ParseSmsList` | src/parsers.c:355-395 | prints the grouped messages and the payload |
| `AtResponse.ParseSmsRead` | src/parsers.c:397-436 | prints the one message that was read and the payload |
| `AtReceived.NamesSelect` | src/parsers.c:438-457 | each parser name selects its parser, and the four registration names their line prefixes |
| `AtReceived.RawReceived` | src/parsers.c:71-82 | every other name gives back the name and the payload |
| `AtReceived.FirstLine` | src/parsers.c:6-19 | a line that stands first after any line breaks is found by its prefix, for every such prefix and line |
| `AtReceived.CsqReceived` | src/parsers.c:84-108 | a rendered `+CSQ` line reads back as its two numbers, with -113 + 2 rssi as the level for 0 to 31 and null otherwise |
| `AtReceived.CopsReceived` | src/parsers.c:110-130 | a rendered `+COPS` line reads back as mode, format, operator and technology; behind an empty operator the technology is -1 |
| `AtReceived.RegistrationReceived` | src/parsers.c:132-157 | a rendered registration line of any prefix and with any status reads back as its five values, up to the first empty one of area and cell |
| `AtReceived.CellLockReceived` | src/parsers.c:245-265 | a rendered `+GTCELLLOCK` line reads back as its five numbers under their names |
| `ListsReceived.QosReceived` | src/parsers.c:267-291 | rendered `+CGEQOS` lines read back as one item each, in order, with `cid` and `qci` |
| `ListsReceived.CellsReceived` | src/parsers.c:293-353 | rendered cell lines among headings and group names read back as one item each, in order; the filled columns go by their number under the twelve names, and the line itself under `raw` |
| `AtParsers.ResponseSound` | src/parsers.c:71-436 | whatever the `sscanf` calls extract, every value is a JSON value and only the last member is named `raw` |
| `AtParsers.ResponseIsJson` | src/parsers.c:438-457 | every parser's output for every response is one JSON object, whose `raw` member reads back as the payload |
| `DbusMessages.AppendDbusVariantJson` | src/parsers.c:516-564 | appends the value of a variant line: decoded text, `true` or `false`, or the first 127 bytes of the token |
| `DbusMessages.ReadToken` | src/parsers.c:541-547 | the token is the longest run without white space and `)`, cut to 127 bytes |
| `DbusMessages.ParseDbusMessagesJson` | src/parsers.c:566-650 | the flags, the pending key and the two buffers compute the message list that a fold over the trimmed lines describes, numbered from 1, and the raw reply |
| `DbusReply.VariantLine` | src/parsers.c:516-564 | a string, object path, boolean or number printed by `dbus-send` is recognised as that value; of anything else the second word of its first line is left |
| `DbusReply.MessageSteps` | src/parsers.c:581-632 | the lines of one message close the message before it and leave it open with all its properties |
| `DbusReply.ItemsReceived` | src/parsers.c:566-650 | every message of a printed reply with such values only is recognised, in order, with its properties in order, whatever the indentation |
| `DbusReply.MessagesReceived` | src/parsers.c:566-650 | a JSON reader then gets exactly the same messages back, indexed 1 to n, and the raw reply |
| `DbusContainers.ReplyIsJson` | src/parsers.c:566-650 | for any reply at all the output is one JSON object with the raw reply, if each value printed for a variant is one JSON value |
| `DbusContainers.BrokenIsNotJson` | src/parsers.c:566-650 | for any reply at all the output is no JSON text, if the first printed value that is not JSON is an opening bracket or a bare word |
| `DbusContainers.StepsGrow` | src/parsers.c:581-632 | no later line takes back an item or a property that is recorded |
| `DbusContainers.ReplyIsJsonIff` | src/parsers.c:566-650 | the output for a printed reply is JSON if and only if no property is an array, a struct, a byte array, a file descriptor, a variant within a variant or a double that is no number, whatever lines stand inside the containers |
| `DbusReply.ContainerToken` | src/parsers.c:539-563 | of a container or file descriptor the parser takes `[`, `{`, `of` or `descriptor` as the value |
| `DbusReply.NestedToken` | src/parsers.c:539-563 | of a variant within a variant it takes the name of the inner type |
| `Template.ReplaceToken` | src/http.c:1021-1037 | the buffer holds the first `dst_sz - 1` bytes of the text with all leftmost occurrences replaced, NUL-terminated, for every source, value and size |
| `Template.StrNCat` | src/http.c:1028-1034 | appends at most n bytes to the string in the array and a NUL |
| `Template.ReplaceIsSubst` | src/http.c:1021-1037 | replacing all leftmost occurrences of a token is a single pass from left to right |
| `Chains.OneMore` | src/http.c:1099-1108 | replacing a further token in the result of a pass is the pass with that token added, if no earlier value clashes with the token within the buffer |
| `Chains.ChainIsSubst` | src/http.c:1099-1108 | a chain of replacements through bounded buffers is one simultaneous substitution, cut to the last buffer, if no value clashes with a later token |
| `Chains.ChainIsSubstIff` | src/http.c:1099-1108 | and only then: when in some weighing of the characters all values but the first are lighter than their tokens, the chain is the substitution for every template that fits exactly when no value clashes with a later token |
| `Chains.HarmlessClash` | src/http.c:1099-1108 | otherwise a clash can be harmless: a token that is replaced by itself |
| `Template.SubstOrder` | src/http.c:1099-1108 | the order of the tokens does not matter for a substitution |
| `Chains.ChainOrder` | src/http.c:1099-1108 | nor for a chain whose values clash with none of its tokens |
| `LockCommands.LockCell` | src/http.c:1080-1122 | rejects the request in the three cases the code rejects, and otherwise sends the chain over five tokens |
| `LockCommands.LockFrequency` | src/http.c:1124-1160 | the same over three tokens, with the built-in template when the profile has none |
| `LockCommands.LockBand` | src/http.c:1044-1078 | the same over four tokens whose values are texts of the request |
| `LockCommands.CellIsSubst` | src/http.c:1080-1108 | for every template the cell lock command is the template with all tokens replaced at once |
| `LockCommands.CellOrder` | src/http.c:1103-1108 | any other order of the five replacements builds the same command |
| `LockCommands.FrequencyIsSubst` | src/http.c:1124-1146 | for every template the frequency lock command is the simultaneous substitution |
| `LockCommands.FrequencyOrder` | src/http.c:1144-1146 | and any other order of its three replacements builds the same command |
| `LockCommands.BandIsSubst` | src/http.c:1060-1064 | the band lock command is the simultaneous substitution when no value clashes with a later token |
| `LockCommands.BandIsSubstIff` | src/http.c:1060-1064 | for every mode that is so for all templates that fit exactly when no value clashes with a later token in 511 bytes, if the other values hold no opening brace, or no closing brace, or are shorter than their tokens |
| `LockCommands.BandNotSubst` | src/http.c:1060-1064 | any mode that contains a later token is changed itself, already by the template `{mode}`, if the other values are as above |
| `LockRequests.CellFromJson` | src/http.c:1080-1108 | for any layout of the body, an accepted cell lock sends the template with `{mode}`, `{rat}`, `{type}`, `{earfcn}` and `{pci}` replaced by the numbers that the tree has under these names, with their defaults |
| `LockRequests.CellRejected` | src/http.c:1082-1101 | which tree gets which refusal, and that all others send |
| `LockRequests.FrequencyFromJson` | src/http.c:1124-1146 | the same for the frequency lock, with the built-in template when the profile has none |
| `LockRequests.FrequencyRejected` | src/http.c:1126-1140 | its refusals |
| `LockRequests.BandFromJson` | src/http.c:1044-1064 | the same for the four texts of the band lock |
| `LockRequests.BandRejected` | src/http.c:1046-1059 | its refusals |
| `ConfigKeys.SettingOfName` | src/config.c:38-97 | each key names one field only |
| `Config.AppConfig.SetDefaults` | src/config.c:11-36 | every field has its default, and those not listed are empty or zero |
| `Config.AppConfig.SetKey` | src/config.c:38-97 | the field named by the key takes the value, cut to its array or read with `atoi`; no other field changes, and an unknown key changes nothing |
| `Config.FGets` | src/config.c:108-109 | the line buffer holds the next bytes of the file up to a newline, at most 511 |
| `Config.HandleLine` | src/config.c:110-123 | cutting and trimming the line in place has the effect of the trimmed line: comments and lines without `=` have none, otherwise key and value are what stands around the first `=` |
| `Config.ConfigLoad` | src/config.c:99-134 | the configuration is the defaults changed by the lines in order, with port and timeout repaired; defaults and -1 if there is no file |
| `ConfigFile.LastLineWins` | src/config.c:108-124 | for any file and any field the last line that assigns to the field decides, and without one the default stays |
| `ConfigFile.FieldLoaded` | src/config.c:99-134 | every field of a loaded file holds what its last line assigns or its default, except that a port outside 1 to 65535 becomes 4242 and a timeout that is not positive 3000 |
| `ConfigFile.ConnectionWithoutFile` | src/config.c:11-24 | without a file the daemon listens on port 4242 of all addresses and talks to oFono at /ril_0 through dbus-send |
| `ConfigFile.AccessWithoutFile` | src/config.c:25-30 | asks for no login, with admin as user and password, and refuses dangerous commands |
| `ConfigFile.JobsWithoutFile` | src/config.c:31-35 | schedules no reboot, with 3:30 as its time, and forwards no messages |
| `ConfigFile.MailWithoutFile` | src/config.c:13-35 | and has no mail or webhook addresses |
| `ConfigFile.LineAssigns` | src/config.c:109-123 | the line of an assignment assigns the trimmed value, which may contain `=` |
| `ConfigFile.LoadedNoBreaks` | src/config.c:99-134 | no file makes the daemon hold a text with a newline |
| `ConfigFile.PrintLoadIff` | src/config.c:99-134 | printing a configuration and loading it gives it back if and only if port and timeout are in range and all texts are trimmed and without newlines |
| `AppState.AppState.ApiSystemSettingsSave` | src/http.c:847-894 | the thirteen fields take the values the request names, truncated, and the table stores what memory then holds |
| `AppState.AppState.ApiSystemScheduledReboot` | src/http.c:810-838 | hour and minute out of range change nothing; otherwise memory and table take the schedule |
| `AppState.AppState.ApiSystemPassword` | src/http.c:896-911 | both values must be given and not empty; memory and table take what fits |
| `AppState.AppState.ApiProfilesActivate` | src/http.c:610-633 | only a stored profile is activated; the table keeps the whole id, memory what fits |
| `AppState.AppState.ApiProfilesDelete` | src/http.c:635-662 | deletes a stored profile that is not active, together with its cache rows, and refuses in all other cases |
| `AppState.AppState.ApiProfilesSave` | src/http.c:590-608 | a body with id and name becomes the row of that id |
| `AppState.AppState.ApiNetworkBands` | src/http.c:962-998 | answers from an unexpired cache row unless a refresh is asked for; otherwise probes, parses and caches under the active profile and modem path |
| `AppState.AppState.PutCache` | src/db.c:376-400 | the row is inserted or replaces the row with its key, and counts as the latest probe |
| `AppState.AppState.ProfileImportFile` | src/profile.c:57-81 | the text of a readable file becomes the row of its id, or of the fallback id |
| `AppState.AppState.StartUp` | src/main.c:24-134 | a start builds the configuration from the file with the stored settings laid over it, imports the profile file, and follows a modem found at another path |
| `AppModel.LoadedComplete` | src/config.c:99-134 | a loaded configuration has a value that fits in every field |
| `AppRuns.StepSynced` | src/http.c:610-911 | every request and every restart keeps memory equal to the file with the stored settings laid over it |
| `AppRuns.RestartIsIdentityIff` | src/main.c:54-131 | in every reachable state a restart gives back the configuration and the settings table exactly when discovery finds no other path, and otherwise the path is the only field of the configuration that changes |
| `AppRuns.SettingFromJson` | src/http.c:847-871 | a saved field takes the value that the JSON tree of the body has for its key, whatever the layout of the body |
| `RequestResults.SavedFields` | src/http.c:847-871 | which thirteen fields a request can save |
| `RequestResults.OtherFieldsStay` | src/http.c:847-894 | saving settings changes no other field and no other row of the table |
| `RequestResults.ScheduleFromJson` | src/http.c:810-838 | with hour and minute of the tree in range, memory and table hold them and whether `enabled` is not zero; out of range nothing changes |
| `RequestResults.KeptByRestart` | src/main.c:54-131 | in every reachable state a restart with the same configuration files keeps every field but the modem path |
| `RequestResults.ScheduleSurvivesRestart` | src/main.c:62-86 | in every reachable state the daemon has the requested schedule after the next restart |
| `RequestResults.PasswordFromJson` | src/http.c:896-911 | user and password of the tree, if both are given and not empty, are those in memory and table |
| `RequestResults.ActivateFromJson` | src/http.c:610-633 | the id of the tree becomes the active one if it is stored |
| `RequestResults.DeleteFromJson` | src/http.c:635-662 | a stored profile with the id of the tree that is not active goes, with its cache rows and nothing else |
| `RequestResults.SaveProfileFromJson` | src/http.c:590-608 | a body whose tree has id and name becomes the row of that id, with that name |
| `RequestResults.ImportFromJson` | src/profile.c:57-81 | the imported file becomes the row of the id of its tree, or of the configured one |
| `RequestResults.FileOfProfile` | src/main.c:49-53 | the file is the configured one, or `./fm650.json` if that is missing and the configured path is the default |
| `RequestResults.FirstStart` | src/main.c:31-131 | a first start runs with the configuration file, or with the local one if that is missing, and stores only the active profile; a modem found at another path is followed and stored |
| `AppRuns.SavedSurvivesRestart` | src/main.c:62-103 | in every reachable state, what a request saves is what the daemon runs with after the next restart |
| `AppRuns.AnsweringModemStays` | src/ofono.c:69-74 | a modem that answers at the configured path does not move |
| `AppRuns.ActiveStaysIff` | src/http.c:610-662 | the active id keeps naming a stored profile through every request and restart, except exactly when an id is activated whose first 127 bytes are not stored |
| `AppRuns.ActiveStays` | src/http.c:610-662 | so it does over every run that activates ids of at most 127 bytes |
| `ProfileRuns.ActiveLost` | src/http.c:590-633 | whatever the files, four requests after the first start lose the active profile: a stored id of 128 bytes is activated |
| `AppRuns.DeleteSparesActive` | src/http.c:635-662 | a deletion removes at most the named profile and never the active one |
| `ProfileRuns.RestartReimports` | src/profile.c:57-81 | a restart overwrites the row of the file's id, or of the fallback id, and keeps all others; the table stays as it was exactly when there is no file or that row holds it already |
| `ProfileRuns.EditLost` | src/main.c:49-53 | in every reachable state, whatever a request saves under the id of the profile file, the next restart puts the text of the file back into that row |
| `AppRuns.StepCacheSound` | src/http.c:962-998 | every request keeps this: a cache row belongs to a stored profile and is the parsed answer of the last probe with its key |
| `AppRuns.ServedIsLatest` | src/db.c:376-423 | in every state reached from an empty database an answer from the cache is the latest probe for the active profile and modem path, parsed, and at most its time to live old |
| `RequestResults.ServedIff` | src/http.c:962-974 | the answer comes from the cache exactly when the query has no `refresh=1` and the table has a row for the active profile and modem path that has not expired; it is the text of that row |
| `RequestResults.ProbeRecorded` | src/http.c:975-998 | otherwise, with a stored active profile that has a discovery command, the modem is probed, and row and history take response, parsed text and time |
| `RequestResults.ProbeFromJson` | src/http.c:975-998 | the time to live of that row is the one that the tree of the profile has for `network.band`, or 86400 |
| `Capture.RunCapture` | src/dbus_cmd.c:68-128 | against every schedule the loop over the real buffers gives the captured texts, exit code and kill that the state machine describes |
| `Capture.Keep` | src/dbus_cmd.c:92-95 | a read adds what still fits under the limit and drops the rest |
| `Capture.CapturedIsPrefix` | src/dbus_cmd.c:68-128 | at any time each captured text is the first `max_output` bytes of what has been read of its stream |
| `Capture.CapturedAtEnd` | src/dbus_cmd.c:68-128 | when the loop ends at the end of both streams it is the first `max_output` bytes of the whole stream |
| `Capture.StatusIsChilds` | src/dbus_cmd.c:109-125 | the reported code is the child's, also when a poll reaped it earlier; a killed run reports 137 unless the child had exited before |
| `Capture.ResultIsStreams` | src/dbus_cmd.c:118-128 | of every run, output and error text of the result are the first `max_output` bytes of what was read of the child's output and error stream, of the whole streams unless it was killed |
| `Capture.KillInTime` | src/dbus_cmd.c:109-112 | with a timeout T the loop ends; a kill comes after more than floor(T/1000) seconds and within one second and one poll period after them |
| `Capture.NeverKilled` | src/dbus_cmd.c:109-112 | without a timeout nothing is killed |
| `Capture.RunExits` | src/dbus_cmd.c:72-117 | the loop ends with an exited child exactly when one of the events up to its last poll is the exit |
| `Capture.WaitCoveredIff` | src/dbus_cmd.c:109-120 | the final wait returns at once, whatever comes later, exactly when the run was killed or the child exited up to the last poll |
| `Capture.CloseLeavesWait` | src/dbus_cmd.c:71-120 | a child that closes its streams and lives on makes the final wait last as long as the child, whatever the timeout |
| `Scheduler.SchedulerMain` | src/scheduler.c:19-41 | a poll fires exactly when the schedule is enabled, its minute is reached and the day of the year differs from the last firing's |
| `Scheduler.NextDayDiffers` | src/scheduler.c:33-34 | consecutive days of the Gregorian calendar differ in `tm_yday` |
| `Scheduler.OncePerDay` | src/scheduler.c:19-41 | within one life of the process, whatever edits are made to the schedule, no calendar day has two firings |
| `Scheduler.FiresOnIff` | src/scheduler.c:19-41 | a process fires on exactly the days on which a poll falls into the scheduled minute, except where its last firing was on an earlier day of the same number |
| `Scheduler.TwoFiringsIff` | src/scheduler.c:19-41 | over any lives of the process shorter than a year, a day has firings in two of them exactly when both poll in a scheduled minute of that day |
| `Scheduler.BootWithinMinute` | src/scheduler.c:22-37 | a boot that ends within the scheduled minute reboots the device a second time on that day |
| `Scheduler.ExactlyOnce` | src/scheduler.c:19-41 | within one life, with an unchanged schedule and gaps of at most 60 seconds, every scheduled minute that begins after the first poll contains exactly one firing |
| `Scheduler.DueFiresIff` | src/scheduler.c:31-34 | a due poll after a firing fires exactly when its day of the year differs from that of the last firing |
| `Scheduler.MissedAfterAYear` | src/scheduler.c:31-34 | in every run, a schedule that fired and was then off until a due poll on a day of the same number does not fire on that day |
| `Scheduler.YearIsMissed` | src/scheduler.c:24-34 | a year of polls, one a minute, shows it |
| `Base64.Base64Encode` | src/smtp.c:12-30 | the output is the encoding of the text, fills its allocation exactly and ends with a NUL |
| `Base64.EncodeIsRfc4648` | src/smtp.c:12-30 | the encoding by three bytes is the one section 4 of RFC 4648 describes on bits |
| `Base64.EncodeLength` | src/smtp.c:14-15 | its length is four times the number of three-byte groups begun |
| `Base64.PaddingAtEnd` | src/smtp.c:25-26 | `=` stands exactly in the last place when the length is no multiple of three, and in the last but one when one byte is left over |
| `Base64.DecodeEncode` | src/smtp.c:12-30 | a decoder inverts the encoding of every byte string |
| `Base64.EncodeInjective` | src/smtp.c:12-30 | different texts have different encodings |
| `Ofono.ScanModems` | src/ofono.c:86-109 | the result is the path of the first block with the highest score, and nothing if no block has a path |
| `Ofono.StartsAll` | src/ofono.c:89-108 | stepping over eleven bytes after each mark, the scan finds every mark of the text |
| `ModemList.ListRead` | src/ofono.c:86-109 | of a printed list every modem is scored, in order, with its path and the first 2047 bytes of its text |
| `ModemList.ScoreOf` | src/ofono.c:3-12 | registration and messages count four, SIM and modem control two, radio settings one |
| `ModemList.UsableIsChosen` | src/ofono.c:86-109 | a modem that registers, sends messages, and has a SIM or can be controlled is chosen if no other one both registers and sends messages |
| `ModemList.BareIsNotChosen` | src/ofono.c:3-12 | one that only registers and sends messages loses to one that registers and has all the rest |
| `Ofono.BestIsUnique` | src/ofono.c:102-106 | the list determines the choice |
| `Ofono.ResolveModemPath` | src/ofono.c:61-127 | a configured path that answers is kept; otherwise the list decides, and the path fits its buffer |

## Left out

- Sockets, HTTP parsing, routing and login, the embedded web pages, history and event listings, `src/sysinfo.c`, SMTP and webhook dialogues and the D-Bus monitor: network and process glue.
- SQLite: each table is a map with the stated upsert, delete and select; a row of the settings table is keyed by the field whose name is its key.
- Allocation failure, failing SQL statements, `fork`, `exec` and `pipe` failures, data races between the threads, daylight saving time and clock jumps.
- `parse_dbus_properties_json` (src/parsers.c:459-514): the same quoting and scanning as the message list, without its state machine.
- The loop of `scheduler_main` never ends; the model takes any finite sequence of its polls.
- AtReceived.RegistrationReceived: lines as a modem prints them for a query, with a status; for lines without one `AtParsers.RegistrationOf` says what the second pattern reads.
- ListsReceived.CellsReceived: lines of at most 511 bytes with at least eight filled columns; other lines with a comma are covered by `AtParsers.CellOfLine` only.
- SmsReceived.ReadReceived: a body that begins with line breaks loses them; one with a line after the first that starts with OK is cut there.
- ModemList.ListRead: lists in which the words before an object path occur nowhere else; other texts are covered by `Ofono.ScanModems`.
- Bands.AppendFibocomBandItems: `100 + band` and `5000 + band` are computed on unbounded integers; overflow of a band number near `INT_MAX` is not modelled.
- ProfileBlocks.CommandInDoc: assumes that no string of the profile ends in a double quote followed by the searched key, and that keys consist of letters, digits, dots and underscores; other keys could be escaped in the text.
- ProfileBlocks.CommandInDocIff: the same assumptions, and that no string holds the next brace after a token the lookup stops at; what a scan that starts inside a string returns is stated by `ProfileBlocks.BlockInText` where braces balance in the string.
- ProfileBlocks.TtlInDocIff: the same assumptions.
- DbusContainers.ReplyIsJson: the condition on the printed values is sufficient for arbitrary text; a copied token may contain punctuation and be part of valid JSON by accident. For replies as `dbus-send` prints them `DbusContainers.ReplyIsJsonIff` is exact.
- DbusContainers.ReplyIsJsonIff: signatures are not among the printed values; one with a closing parenthesis is cut there, and its open quote runs into the text behind it.
- Chains.ChainIsSubstIff: values after the first that no weighing finds lighter than their tokens can undo a clash (`Chains.HarmlessClash`); for them the condition is only sufficient.
- LockCommands.CellIsSubst: assumes that every stage before the last fits 511 bytes, since a stage that is cut loses text for good.
- Config.ConfigLoad: files with NUL bytes are not modelled.
- AppState.AppState.ApiNetworkBands: what the modem answers is an argument, and the AT history written by `at_send` is left out.
- AppState.AppState.StartUp: command line parsing is left out; the file loaded when the default one is missing is an argument.
- Capture.RunCapture: schedules are finite, and a kill ends the child at once; the final wait has no clock of its own, its length is `Capture.WaitTime`.
