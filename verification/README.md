# Verified model of the diagnostics tools

This project models the parts of the Power diagnostics tools (ppc64-diag) that carry state from one
call to the next, or that write something another part has to read back, and proves what those
parts are for. `dafny verify dfyconfig.toml` checks all of it.

| module | what it models |
|---|---|
| `LocationCode`, `LightPath` | location codes, and what one service or repair event does to the fault indicators |
| `LightPathRuns` | any number of events and repairs, with notifications that come late, in any order, or twice |
| `Reformat` | wrapping of log messages at 80 columns, in the message buffer |
| `Catalog` | the catalog lexer's quoted strings, comments and text blocks, and the printer of quoted strings |
| `Uint128`, `Decimal`, `SmartLog`, `SmartFile` | the NVMe SMART page: its 128-bit counters, and the text file it is dumped to and loaded from |
| `RawData` | the tagged items and sections attached to an NVMe event |
| `PciVpd` | the parser of vital product data (PCI Local Bus Specification 3.0, Appendix I) |
| `RtasIndices` | the retrieval of indicator indices from firmware, with continuation and restart |
| `Config`, `ConfigTokens`, `ConfigGrammar`, `ConfigSettings` | the tokenizer and parser of the daemon's configuration file, how parsing ends for every file, and the settings it leaves |
| `Enclosure` | which enclosure faults are reported, run after run |
| `Ses` | the lines one program prints about enclosure indicators and another one parses |
| `DumpRetention`, `LogRotation` | how many dumps and error logs are kept, and which |
| `Drc` | looking up a connector's index by its name and its name by its index |
| `Bytes`, `CString`, `Wrappers` | bytes, C strings in buffers, and options |

The functions say what a piece of code computes; the methods are the code itself, on buffers
(`array`) and on objects with fields, and are proved to compute what the functions say; the
lemmas are what follows for all inputs or all runs.

Main results:

- **Indicators follow the open events** (`LightPathRuns.IndicatorsFollowOpenEvents`). Service and repair
  steps each change indicators from what they read in the log at that moment. Over every run, once
  all notifications are delivered, each indicator is on exactly when an open event asks for it or a
  late notification does: one that told of the event after its repair, with no repair told since that
  turns the indicator off. Without late notifications only the open events count
  (`InOrderRunsFollowOpenEvents`). The assumptions are those of `HarmlessBlanks`, which is exactly when both
  steps resolve a callout alike (`CalloutTargetsAgree`); `LitWhenCovered` for the open events, which every event
  with handled priorities meets (`LitIsCovered`) and a platform event exactly when its ignored callouts ask for
  nothing more (`PlatformEventMatches`); and, for the attention indicator alone, `AttentionIsSeparate`. Beside
  each stands a lemma that shows what happens without it.
  Guiding Light mode has its own theorem (`GuidingLightRun`). What a step lights or turns off is told from the
  sources, callouts and codes themselves (`LightPath.ServiceStepLights`, `RepairStepDarkens`), and so is the
  theorem (`InOrderRunsFollowCallouts`).
- **Round trips.** Quoted strings (`Catalog.QuotedStringRoundTrip`), counters
  (`Uint128.CounterRoundTrip`), SMART files (`SmartFile.SmartFileRoundTrip`), raw data
  (`RawData.RawDataRoundTrip`), product data (`PciVpd.WellFormedImageIsRead`), work areas
  (`RtasIndices.AreaDecodes`), configuration files (`Config.ConfigurationRoundTrip`), indicator listings
  (`Ses.ListingIsRead`, `Ses.StateIsRead`) and connector lookups (`Drc.LookupsAreInverse`). Where one does
  not hold for every input, the lemma says for exactly which inputs it does.
- **Files people write.** A file of settings and remarks for the NVMe program gives exactly its settings, and any
  other line makes it a bad one (`SmartFile.FileOfSettingsIsRead`, `OtherLineIsRejected`); of a page each field
  has the last value in range (`SmartFile.DictionaryIsAssigned`). The daemon's configuration file has the tokens
  its characters spell (`ConfigTokens.FileTokens`) and leaves each setting at the last value of its name
  (`ConfigSettings.SettingsAreLastValues`). Strings in a catalog, with every kind of escape, are read as what they
  spell (`Catalog.WrittenStringIsRead`).
- **Wrapping** keeps every line within 80 characters and loses no text, and a message fits a buffer
  of a given size exactly when `WorstLength` does (`Reformat`).
- **Parsing of configuration files** ends in one of four ways, and the list of a file's tokens tells which, for
  every file (`ConfigGrammar.HowParsingEnds`); for a last line without a newline the test is on that line alone
  (`LastLineWithoutNewline`).
- **Retrieval** of indices succeeds exactly when firmware's answers allow it, and then returns the batches since
  the last change (`RtasIndices.RetrievalSucceedsExactly`, `SuccessReturnsBatches`); when it fails, the code tells
  why (`RetrievalFailsExactly`).
- **Faults are reported once per rise** in severity, over any number of runs: one event for each part that rises,
  in the order of the parts, and no other (`Enclosure.RunReportsRises`, `OneEventPerRise`).
- **Retention** bounds hold over whole runs, and what is kept is the newest (`DumpRetention`,
  `LogRotation`).

Where the code differs from its comments or from what it is evidently for, the model follows the code:

- The guard of `reformat_msg` is described as the worst case target size (lpd/files.c:74-79). For every buffer
  below 4147 bytes it lets through a length that can overrun, and for no other (`Reformat.GuardIsTooGenerous`);
  for the log buffer these lengths are 4045 and
  4046 (`GuardOfTheLogBuffer`). `ReformatMsg` therefore asks that the buffer has room.
- A configuration file that is cut off inside an entry is not an error: the parser goes on with a token it
  never read, asks for tokens forever, or takes the equals sign for the value
  (`ConfigGrammar.HowParsingEnds`, `Config.UnfinishedNumberIsLost`).
- An index retrieval whose first batch is empty ends with the code for lack of memory
  (`RtasIndices.RetrievalFailsExactly`).
- The raw data item of the fourth temperature sensor shows the third sensor
  (`RawData.SensorItemsShowSensors`).
- Trailing white space of a location code is removed when an event lights an indicator and not when its
  repair turns it off (`LightPathRuns.TrailingBlankLeavesIndicatorOn`).
- The lexer takes up to four octal digits of an escape, and the value of three of them; the printer writes as
  few as it can, so a digit after an octal escape is lost (`Catalog.DigitAfterOctalIsLost`).

## Model

| member | source | states |
|---|---|---|
| LocationCode.TruncateLocCode | lpd/indicator.c:109-121 | Cuts the code in the buffer just before its last hyphen and says so, or leaves it alone when it has no hyphen. |
| LocationCode.GetIndicatorForLocCode | lpd/indicator.c:134-143 | Returns the first indicator that has exactly this code, and none exactly when no indicator has it. |
| LocationCode.GetFruIndicator | lpd/lp_diag.c:221-235 | The retry loop ends; it returns the nearest indicator, leaves its code in the buffer, and tells whether the code was cut. |
| LocationCode.NearestIsLongestPrefix | lpd/lp_diag.c:221-235 | The nearest indicator is the first one whose code is the longest prefix cut at a hyphen (or the whole code) that the list has; there is none exactly when no such prefix is in the list. |
| LightPath.TrimInPlace | common/utils.c:31-53 | Removes all white space at the end of the string in the buffer, and nothing else. |
| LightPath.Panel.SetFaultIndicator | lpd/lp_diag.c:123-142 | The indicator ends up as asked, and no other changes. |
| LightPath.Panel.ServiceLocation | lpd/lp_diag.c:342-354 | The service step finds the indicator the callout resolves to without its trailing white space, and none exactly when it resolves to the check log. |
| LightPath.Panel.EventFruCallout | lpd/lp_diag.c:328-374 | Over the callouts of one priority: exactly the indicators they resolve to are added to those on; the attention request is raised exactly when one has no, an empty or an unresolvable location. |
| LightPath.Panel.ParseServiceEvent | lpd/lp_diag.c:413-495 | A service event adds to the indicators on exactly those it asks for; in Guiding Light mode, the attention indicator for any supported event. |
| LightPath.Panel.RepairLocation | lpd/lp_diag.c:265-278 | The code the repair step works with names the same indicator the callout resolves to, trailing white space included. |
| LightPath.Panel.BuildCalloutLocCode | lpd/lp_diag.c:249-313 | The list of parts stays free of duplicates and grows by exactly the indicators of the event's callouts. |
| LightPath.Panel.RepairFruCallout | lpd/lp_diag.c:387-402 | Turns off the part's indicator, or asks for the attention indicator when there is none. |
| LightPath.Panel.ParseRepairEvent | lpd/lp_diag.c:507-617 | A repair turns off exactly the indicators asked for by a repaired event and by no event still open, judging check log and indicators apart. |
| LightPath.BlanksMatter | lpd/lp_diag.c:221-235 | Trailing white space changes which indicator a code leads to exactly when the list has the code with it or without it. |
| LightPath.HandledSources | lpd/lp_util.c:44-63 | Events are acted upon exactly when they come from one of five enclosure models, from one of two network drivers, or from the platform. |
| LightPath.ServiceStepLights | lpd/lp_diag.c:413-495 | A service step lights exactly what was on, the entry each callout of a handled priority leads to (the longest listed part, cut at a hyphen, of up to 79 characters without white space at the end), and the first entry when such a callout leads nowhere or there are no callouts; in Guiding Light mode the first entry alone. |
| LightPath.RepairStepDarkens | lpd/lp_diag.c:507-617 | A repair step turns off exactly what a repaired event leads to and no open one does, and the first entry also when a repaired event has no callouts or one that leads nowhere and no open event does; white space at the end of a location counts here. |
| LightPathRuns.CalloutTargetsAgree | lpd/lp_diag.c:265-278 | The service and the repair step resolve a callout to the same target exactly when the white space after its code is harmless. |
| LightPathRuns.LitIsCovered | lpd/lp_diag.c:327-374 | With harmless blanks, what a service step lights is covered by what a repair step counts; both are the same set when all priorities are handled, and then every indicator counted is lit. |
| LightPathRuns.StepKeeps | lpd/lp_diag.c:507-617 | No step, in whatever order, turns off an indicator that an open and known event asks for. |
| LightPathRuns.StepLeavesNeeded | lpd/lp_diag.c:413-617 | After every step that is not late, an indicator left on is still needed by an event that is open, or closed by a repair not heard of yet. |
| LightPathRuns.RunKeeps | lpd/lp_diag.c:413-617 | After every run from dark, an indicator is on that an open and known event lights. |
| LightPathRuns.RunExplains | lpd/lp_diag.c:413-617 | After every run from dark, an indicator that is on is needed, or was lit late. |
| LightPathRuns.LateStaysOn | lpd/lp_diag.c:413-617 | What a late notification lights stays on until a repair is told that turns it off. |
| LightPathRuns.IndicatorsFollowOpenEvents | lpd/lp_diag.c:413-617 | Over any run whose notifications are all delivered, an indicator is on exactly when some open event asks for it or a late notification with no covering repair told since, provided each open event lights the indicator when a repair counts the event for it; without that proviso it is on only if one of these asks. |
| LightPathRuns.InOrderRunsFollowOpenEvents | lpd/lp_diag.c:413-617 | When no notification is late, and with the same proviso, an indicator is on exactly when some open event asks for it. |
| LightPathRuns.InOrderRunsFollowCallouts | lpd/lp_diag.c:413-617 | The same in terms of callouts: an indicator is on exactly when a callout of an open event leads to it, or, for the first, leads nowhere. |
| LightPathRuns.IndicatorsAreExplainedThroughout | lpd/lp_diag.c:413-617 | At every moment of a run, an indicator that is on is needed by an event not yet known to be repaired, or was lit late. |
| LightPathRuns.GuidingLightRun | lpd/lp_diag.c:473-478 | In Guiding Light mode only the attention indicator is ever on; in a settled run it is on while a supported event is open, and off when nothing is open and nothing was told late. |
| LightPathRuns.RepairMissesIndicator | lpd/lp_diag.c:265-278 | An event with one callout, opened and repaired, leaves indicator i > 0 on exactly when i is nearest to the code without its trailing white space, there is such white space, and the list has the code with it or without it. |
| LightPathRuns.CycleReturnsToDark | lpd/lp_diag.c:507-617 | An event with harmless blanks, opened and repaired, leaves every indicator off. |
| LightPathRuns.TrailingBlankLeavesIndicatorOn | lpd/lp_diag.c:271-278 | A location with a trailing blank leaves an indicator on with nothing open. |
| LightPathRuns.AttentionAfterRepair | lpd/lp_diag.c:556-597 | After a repair the attention indicator is right exactly when the repair does not settle one of its two causes (check log, a callout naming the entry) while the other is still open. |
| LightPathRuns.SharedAttentionGoesOff | lpd/lp_diag.c:570-597 | A callout that names the attention entry, once repaired, turns it off although an open event needs it. |
| LightPathRuns.PlatformEventMatches | lpd/lp_diag.c:452-466 | For a platform event, of whose callouts only the first priority is acted upon, an indicator matches its callouts exactly when the ignored ones ask for nothing more, which is the proviso of `IndicatorsFollowOpenEvents`. |
| LightPathRuns.LateNotificationLeavesIndicatorOn | lpd/lp_diag.c:413-617 | Any event heard of only after its repair leaves on what it lights, with nothing open, and telling the repair once more turns it off. |
| Reformat.EveryLineFits | lpd/files.c:65-128 | No line of a reformatted message has more than 80 characters. |
| Reformat.FirstLineIs | lpd/files.c:91-121 | A long text is broken at its last blank or newline from column 1 to 80, and after 79 characters when there is none. |
| Reformat.ReformattedConserves | lpd/files.c:65-128 | The message is kept but for blanks turned into newlines and k newlines inserted; the new length is the old plus k + 1, with 79k < length - 1 from 80 characters on. |
| Reformat.ForcedBreaksAreFew | lpd/files.c:106-117 | Every newline forced inside a word uses up 79 characters. |
| Reformat.ShortWordsAreNotCut | lpd/files.c:95-117 | A message with a place to break in every stretch of 80 characters has no word cut. |
| Reformat.FitsExactlyWhenWorstFits | lpd/files.c:74-79 | A buffer has room for all messages of a length exactly when it has room for `WorstLength`. |
| Reformat.GuardIsTooGenerous | lpd/files.c:74-79 | The guard lets through a length that can overrun at exactly the buffer sizes below 4147, what the longest possible message needs. |
| Reformat.GuardOfTheLogBuffer | lpd/files.c:74-79 | For 4096 bytes the guard admits 4046 characters; 4044 are safe. |
| Reformat.FindBreak | lpd/files.c:95-103 | Finds the last blank or newline up to column 80, turns it into a newline, and changes nothing else. |
| Reformat.WrapLine | lpd/files.c:91-121 | One round moves one line of the message to the output and leaves the rest of the working buffer as it was, forced breaks included. |
| Reformat.ReformatMsg | lpd/files.c:65-128 | Returns the length of the reformatted message, which the buffer then holds, or leaves a message the guard rejects untouched. The loop ends. |
| Catalog.PrintEscapes | ela/catalogs.cpp:156-188 | The loop prints every character as its escape, in order. |
| Catalog.PrintedForms | ela/catalogs.cpp:156-188 | Ten characters are printed as a backslash and a letter or themselves, the other printable ones as themselves, and all others as a backslash and their octal digits without leading zeros. |
| Catalog.GetOctalEscape | ela/catalogs.cpp:114-130 | Gives the octal value of the digits. |
| Catalog.Parser.CollectOctalDigits | ela/catalogs.cpp:190-212 | Takes the longest run of up to three further octal digits and pushes back the character after it. |
| Catalog.Parser.GetString | ela/catalogs.cpp:218-270 | Reads exactly the string the input starts with, consumes it and its quote, counts its newlines, and fails exactly when it is too long or the input ends first. |
| Catalog.OctalIsExact | ela/catalogs.cpp:114-130 | The octal form of a byte has that byte as its value. |
| Catalog.ReadAsIsExact | ela/catalogs.cpp:190-270 | Reading a printed string yields it when no digit follows an octal escape, and otherwise something shorter. |
| Catalog.QuotedStringRoundTrip | ela/catalogs.cpp:156-270 | A printed and quoted string is read back exactly when it has at most MAXSTRLEN characters, no NUL, and no octal digit after a character printed in octal; then just it and the quote are consumed and no line is counted. |
| Catalog.DigitAfterOctalIsLost | ela/catalogs.cpp:190-212 | A string with an octal digit after a character printed in octal, at any place, is not read back. |
| Catalog.WrittenStringIsRead | ela/catalogs.cpp:190-270 | A string written with letters, octal codes of up to four digits and escaped newlines is read as the values of its elements, of a code those of the first three digits, unless there are more than MAXSTRLEN. |
| Catalog.StringCountsNewlines | ela/catalogs.cpp:218-270 | Whatever the input, the lines counted in reading a string are the newlines taken from it. |
| Catalog.UnclosedStringFails | ela/catalogs.cpp:218-270 | A quoted string that is not closed fails. |
| Catalog.Parser.SkipComment | ela/catalogs.cpp:275-319 | Succeeds exactly when the comment is closed, consumes through its first star and slash, and counts exactly the newlines consumed. |
| Catalog.Parser.GetTextBlock | ela/catalogs.cpp:327-367 | Returns the text before the first two closing braces without the white space around it, counting its newlines, and fails exactly when there are none or the text is too long. |
| Catalog.TextIsTrimmed | ela/catalogs.cpp:327-367 | The text of a block is the stretch from its first to its last character that is not white space. |
| Uint128.ValueOfDigits | diags/diag_nvme.c:975-982 | The digits of a number stand for it modulo the width. |
| Uint128.DigitsOfValue | diags/diag_nvme.c:1472-1481 | The number a string of bytes stands for has exactly those bytes as its digits. |
| Uint128.Fmod256 | diags/diag_nvme.c:975-982 | The remainder of an unrounded quotient has the floor of the remainder. |
| Uint128.LongDoubleToUint128 | diags/diag_nvme.c:975-982 | Dividing without rounding down still gives the base-256 digits of the floor. |
| Uint128.Uint128ToLongDouble | diags/diag_nvme.c:1472-1481 | Gives exactly the number the sixteen bytes stand for. |
| Uint128.CounterRoundTrip | diags/diag_nvme.c:975-982 | Any value is kept as its floor modulo 2^128, and any sixteen bytes are kept. |
| Decimal.NumeralReadsBack | diags/diag_nvme.c:1483-1544 | A printed number has the value it was printed for. |
| Decimal.ParseNumeral | diags/diag_nvme.c:1202-1229 | A printed number is read as itself, alone or before a character a number cannot go on with. |
| Decimal.ParseDecimal | diags/diag_nvme.c:1202-1229 | A decimal is read as its sign says, with the digits before and after its point. |
| Decimal.DecimalIsScaled | diags/diag_nvme.c:1202-1229 | The value of a decimal is that of all its digits, divided by ten for each one after the point. |
| Decimal.NumbersStart | diags/diag_nvme.c:1202-1229 | A number is read exactly where a digit, or a point and a digit, comes after a sign or none. |
| SmartLog.SmartFieldsAreGood | diags/diag_nvme.c:1288-1414 | The thirty keys are distinct, and each is a plain word short enough for the key buffer. |
| SmartFile.WriteSmartFile | diags/diag_nvme.c:1483-1544 | Writes one line per field, in order. |
| SmartFile.ReadFileDict | diags/diag_nvme.c:1202-1229 | Returns the entries of the lines that are not blank or remarks, as many as there is room for, and -1 when a line before that is malformed. |
| SmartFile.LineForms | diags/diag_nvme.c:1202-1229 | Every line is a remark (nothing but white space, or a sharp or a slash first), a setting (a key of up to 127 characters, an equals sign, a number) or something else, and is read accordingly. |
| SmartFile.FileOfSettingsIsRead | diags/diag_nvme.c:1202-1229 | A file of settings, empty lines and remarks is read as exactly its settings, in order, up to the room. |
| SmartFile.OtherLineIsRejected | diags/diag_nvme.c:1202-1229 | A line of any other form makes the file a bad one exactly when it comes before the room is used up. |
| SmartFile.SmartPage.SetSmartLogField | diags/diag_nvme.c:1288-1414 | Assigns every known key's value in order, ignores unknown keys, and stops with -1 at the first value out of the field's range, keeping what was assigned before it. |
| SmartFile.DictionaryIsAssigned | diags/diag_nvme.c:1288-1414 | A dictionary is assigned exactly when every entry that names a field is in its range (0 to 255, 65535 or 4294967295, or not negative); each field then has the value of the last entry with its name, a counter modulo 2^128, and a field without one stays. |
| SmartFile.RejectedDictionary | diags/diag_nvme.c:1288-1414 | When an entry is out of range, what comes before it is assigned, and nothing after. |
| SmartFile.SmartPage.GetSmartFile | diags/diag_nvme.c:754-764 | The page is the one the file describes; or the call fails with -1 or -2, and the page is as it was or has the values before the first one out of range. |
| SmartFile.FileIsLoaded | diags/diag_nvme.c:754-764 | A page loaded from a file has the first 64 settings of the file assigned. |
| SmartFile.LineReadsBack | diags/diag_nvme.c:1202-1229 | A written line is read as its key and number. |
| SmartFile.NumberConvertsBack | diags/diag_nvme.c:787-800 | The number of a field is in its range and converts back to its contents. |
| SmartFile.PageRoundTrip | diags/diag_nvme.c:1202-1229 | A dumped page is restored, whatever was there before. |
| SmartFile.SmartFileRoundTrip | diags/diag_nvme.c:1483-1544 | Dumping any SMART page and loading the dump restores all thirty fields. |
| RawData.Section.AppendItem | diags/diag_nvme.c:187-219 | The section grows by the item and its header length stays its byte length; an item is refused, with the section unchanged, exactly when the total would exceed 65535. |
| RawData.Section.AppendItems | diags/diag_nvme.c:1043-1190 | After any sequence of items the section holds exactly the accepted ones, in order. |
| RawData.ItemsRoundTrip | diags/diag_nvme.c:187-219 | The bytes of items decode to those items. |
| RawData.RawBuffer.AppendSection | diags/diag_nvme.c:233-265 | The raw data grows by the section; it is refused, with nothing changed, exactly when the 32-bit length would wrap. |
| RawData.SectionsRoundTrip | diags/diag_nvme.c:233-265 | The bytes of sections decode to those sections. |
| RawData.FillRawData | diags/diag_nvme.c:619-644 | The raw data is the SMART section, the product data section (each if known) and the end marker. |
| RawData.RawDataRoundTrip | diags/diag_nvme.c:619-644 | The raw data decodes to its sections and an empty end section, and each section to the items passed in. |
| RawData.AllAreTaken | diags/diag_nvme.c:1043-1190 | No item of a page is left out for lack of room. |
| RawData.SensorItemsShowSensors | diags/diag_nvme.c:1109-1117 | Every field's item shows that field, but the fourth sensor's exactly when it equals the third. |
| RawData.LayoutsAre | diags/diag_nvme.c:565-615 | Where keyword, reserved byte, length and data of an item stand, and tag, reserved byte, length and data of a section, its length low byte first. |
| RawData.FieldsAreTable | diags/diag_nvme.c:1050-1137 | Each of the thirty fields has the name, the keyword and the width of a table that lists them. |
| RawData.ProductItemsAre | diags/diag_nvme.c:1170-1179 | The items of product data are endurance, capacity, warranty and firmware level, under Z1, Z2, Z3 and RM. |
| PciVpd.FieldReadsBack | diags/diag_nvme.c:1425-1470 | Read as a string, a field is the string of the data it was given, cut to the size of the field. |
| PciVpd.FieldSizesAre | diags/diag_nvme.c:1425-1470 | Twenty-two keywords name fields, of these sizes, and no other keyword does. |
| PciVpd.PcieVpd.GetIbmVpdPcie | diags/diag_nvme.c:673-744 | Reads resources up to the end tag, assigning the field of every entry, and fails exactly when the data is short or a tag unknown, with every field read before that assigned; the model stops where an identifier overruns its buffer. |
| PciVpd.WellFormedImageIsRead | diags/diag_nvme.c:673-744 | A well-formed image is consumed exactly; each known field is the last occurrence of its keyword, the description the last identifier, and absent fields are untouched. |
| PciVpd.TruncatedImageFails | diags/diag_nvme.c:673-744 | A well-formed image cut short anywhere is rejected. |
| PciVpd.TagsAre | diags/diag_nvme.c:673-744 | The tags of an identifier, of read-only and writable product data, and of the end. |
| PciVpd.OtherTagFails | diags/diag_nvme.c:673-744 | After any resources a tag of another kind is an error, and what the resources hold is assigned. |
| PciVpd.IdentifierLimit | diags/diag_nvme.c:673-744 | An identifier of at most 256 bytes is read and its first 40 kept; of a longer one, more than 256 bytes overrun the buffer. |
| RtasIndices.ParseRtasWorkarea | lpd/indicator_rtas.c:70-124 | Appends precisely the decoded entries of the work area, in order; the list is gone when an entry is corrupt; the model stops where the area is read past its end or a code overruns its field. |
| RtasIndices.WorkAreaDecodes | lpd/indicator_rtas.c:70-124 | Entries laid out by firmware, with any padding, decode to themselves. |
| RtasIndices.AreaDecodes | lpd/indicator_rtas.c:70-124 | A work area, counter first, decodes to the entries put in it. |
| RtasIndices.LongCodeIsCorrupt | lpd/indicator_rtas.c:109-116 | A location code of more than 80 bytes with its terminator makes the whole area corrupt, wherever it stands; one of exactly 80 fills its field. |
| RtasIndices.Firmware.GetRtasIndices | lpd/indicator_rtas.c:189-253 | For every script of answers: the list or the code of the failure, and the sequence of index arguments of the calls. |
| RtasIndices.SuccessReturnsBatches | lpd/indicator_rtas.c:189-253 | A return of 0 comes with the concatenation of the batches since the last change; the first call and those after a change use index 1, all others the next index just returned. |
| RtasIndices.RetrievalSucceedsExactly | lpd/indicator_rtas.c:189-253 | The retrieval returns 0 exactly when every answer before some successful one was a change or an accepted batch; a batch that leaves the list empty ends it. |
| RtasIndices.RetrievalFailsExactly | lpd/indicator_rtas.c:203-260 | The code of a failure is that of the answer that ends the retrieval, or -99 after a batch that leaves the list empty. |
| Config.GetToken | rtas_errd/config.c:65-187 | The scanning loop returns the next token, where it ends, and the line there, for any buffer. |
| Config.GetQuoted | rtas_errd/config.c:152-174 | A quoted token runs to the next quote and keeps the opening one; a newline first is an error. |
| Config.ScanFrom | rtas_errd/config.c:65-187 | A token is not empty, and scanning that starts with no token begun has moved forward. |
| Config.ScanningEnds | rtas_errd/config.c:65-187 | In a buffer whose last line is plain, scanning from inside never meets the end of the buffer. |
| Config.ScanningCounts | rtas_errd/config.c:65-187 | There it stays inside the buffer, adds to the line counter exactly the newlines passed over, and reaches the end only with the last newline. |
| Config.DiagConfig.GetConfigString | rtas_errd/config.c:207-236 | The value is the line's tokens with single blanks between them; at the end of the file the loop goes on forever unless the last token was a newline. |
| ConfigGrammar.NumberIsTokens | rtas_errd/config.c:249-294 | The value of a number is the token after the equals sign, and reading goes on with the token after that; at the end of the file it is the equals sign. |
| ConfigGrammar.PathIsTokens | rtas_errd/config.c:207-236 | The value of a path is the first token and all further ones up to a newline, and reading goes on after that. |
| Config.Minimum | rtas_errd/config.c:249-265 | A minimum is at least 1, whatever the text, also when its number wraps around. |
| Config.Policy | rtas_errd/config.c:275-294 | A policy is 0, 1 or -1. |
| Config.Directory | rtas_errd/config.c:542-594 | A dump path ends in a slash. |
| Config.DiagConfig.ParseConfigEntries | rtas_errd/config.c:481-615 | For every file: 0 with all its assignments made in order, -1 with an error in it, or no return. |
| Config.Configuration | rtas_errd/config.c:646-701 | Every file for which parsing returns, good or bad, leaves valid settings: minima at least 1, a policy in -1, 0, 1, and paths that end in a slash. |
| Config.DiagConfig.DiagCfg | rtas_errd/config.c:646-701 | When parsing returns, either all assignments of the file hold or all the defaults do, and the settings are valid. |
| Config.PlainFileIsRead | rtas_errd/config.c:481-615 | Parsing returns for every file whose last line is plain. |
| Config.RoundEnds | rtas_errd/config.c:481-615 | In a file whose last line is plain, a round of the parser that starts with the line counter at 1 plus the newlines before it ends inside the file with the counter at 1 plus the newlines up to there. |
| Config.PlainFilesEnd | rtas_errd/config.c:481-615 | From any round with a right line counter on, parsing of such a file returns. |
| Config.UnfinishedPathNeverEnds | rtas_errd/config.c:207-236 | A path cut off by the end of the file keeps the parser asking for a token forever. |
| Config.UnfinishedNumberIsLost | rtas_errd/config.c:249-294 | A number cut off by the end of the file is accepted and lost: a minimum becomes 1, a policy is not set. |
| ConfigGrammar.EntriesAreTokens | rtas_errd/config.c:481-615 | How parsing ends, and what it assigns, depends on the list of tokens alone. |
| ConfigGrammar.HowParsingEnds | rtas_errd/config.c:481-615 | For every file: parsing does not return exactly when whole items are followed by a bare entry name or by a path without a newline, and the end of the file; it accepts exactly when nothing, a number without a value or a path with only a newline is left, and then makes exactly these assignments. |
| ConfigGrammar.LastLineWithoutNewline | rtas_errd/config.c:207-294 | For good lines and any last line without a newline: parsing does not return exactly when, after the numbers on that line, a bare name or a path and an equals sign come next; what is assigned otherwise. |
| Config.ConfigurationRoundTrip | rtas_errd/config.c:481-615 | A file written from assignments, remarks and empty lines sets exactly those assignments, in order. |
| ConfigTokens.FileTokens | rtas_errd/config.c:66-190 | A file of words, blanks, braces, equals signs, newlines, quoted strings, comments and continued lines has exactly these tokens, in order; a word at its very end is lost, and a quoted string that meets a newline ends them with an error. |
| ConfigGrammar.JoinedWords | rtas_errd/config.c:205-242 | The words of a path stand in order with one blank before each. |
| ConfigSettings.LinesAre | rtas_errd/config.c:475-612 | The five names as they are written. |
| ConfigSettings.NumberIsValue | rtas_errd/config.c:253-294 | A value that starts with a number that is r as an int is r as a minimum, or 1 when r is less; as a policy it is r when nothing follows and r is 0 or 1, and otherwise -1. |
| ConfigSettings.OtherIsNoValue | rtas_errd/config.c:253-294 | A value that starts with no number is 1 as a minimum and -1 as a policy. |
| ConfigSettings.LastSetIsLast | rtas_errd/config.c:475-612 | The last value of a name is that of the last line that assigns it, and there is none exactly when no line does. |
| ConfigSettings.SettingsAreLastValues | rtas_errd/config.c:475-660 | Each setting of a file has the value of the last line with its name, at least 1 for a minimum, 0 or 1 for a policy the system takes, with a slash at the end of a path; the others keep their defaults 1, 5, /var/log/, /var/log/dump/ and -1. |
| Enclosure.CompositeStatus | diags/encl_common.c:271-284 | The loop folds the worse status over the elements. |
| Enclosure.CompositeUnsettled | diags/encl_common.c:271-284 | With no status beyond non-critical, the composite is non-critical if any element is, else fine. |
| Enclosure.CompositeSettled | diags/encl_common.c:271-284 | Otherwise the composite is the first status beyond non-critical, for all statuses. |
| Enclosure.CompositeIsTheWorst | diags/encl_common.c:256-284 | Over fine, non-critical, critical and missing elements the composite is the maximum. |
| Enclosure.CompositeIgnoresOrder | diags/encl_common.c:271-284 | Over those statuses it does not depend on the order of the elements. |
| Enclosure.OrderMattersExactly | diags/encl_common.c:256-284 | For all statuses, every order of the elements has the same composite exactly when all statuses beyond non-critical among them are equal. |
| Enclosure.SvclogElementStatus | diags/encl_common.c:299-340 | An element is reported exactly when it is at fault and nothing is stored, or it was stored as fine, or went from non-critical to critical; always with the severity of its status. |
| Enclosure.CompositeStatusReportable | diags/encl_common.c:347-362 | A group is worth a report exactly when one of its elements is, or nothing is stored. |
| Enclosure.SvclogCompositeStatus | diags/encl_common.c:365-371 | A group is reported with the severity of its composite. |
| Enclosure.Monitor.ReportFaults | diags/bluehawk.c:194-412 | The events are those of the parts that got worse since the stored page, in order; the current page is stored. |
| Enclosure.Watch | diags/encl_common.c:287-311 | Each run compares with the page the run before it stored; in every run each part that rises has one event, in the order of the parts. |
| Enclosure.EventsAreReports | diags/bluehawk.c:224-401 | An event is among those of a run exactly when its part is to be reported with its severity. |
| Enclosure.OneEventPerRise | diags/bluehawk.c:194-412 | Over any runs, a part causes an event exactly in the runs where an element of it got worse, with the severity of its worst element. |
| Enclosure.RunReportsRises | diags/bluehawk.c:208-340 | With distinct parts, a part without missing or unknown elements has exactly one event in a run in which it rises (severity 6 when an element is critical, else 4) and none in any other, and events come in the order of the parts. |
| Enclosure.SilentFaults | diags/encl_common.c:287-311 | For all statuses, a fault is not reported exactly when the stored status was not fine and this is not a step from non-critical to critical; so a fault that follows a missing element is silent. |
| Ses.GetSesFruLocation | lpd/indicator_ses.c:176-193 | Returns where the location starts and cuts the buffer right after it, or leaves the buffer alone. |
| Ses.GetSesFruFaultState | lpd/indicator_ses.c:225-234 | Reads the first state of the line in the buffer. |
| Ses.GetSesFruIdentifyState | lpd/indicator_ses.c:202-216 | Reads the second state of the line in the buffer. |
| Ses.LineIsCut | lpd/indicator_ses.c:176-193 | A line with a location is cut at the blank after it, so that it ends with the location; any other line is left whole. |
| Ses.LongLineEnds | lpd/indicator_ses.c:246-335 | A line of more than 126 characters ends the listing. |
| Ses.StatesAreRead | diags/encl_led.h:44-53 | Both states of a printed line are read as printed, from the whole line or from what is left when its location was cut. |
| Ses.LocationIsRead | diags/encl_led.h:44-53 | The location is read as printed exactly when a blank follows it (a description, or fewer than 9 characters) and, for the enclosure, its description has no capital P. |
| Ses.HeaderIsSkipped | lpd/indicator_ses.c:176-193 | The heading of a listing is not taken for a component. |
| Ses.StoredCodeIs | lpd/indicator_ses.c:299-307 | A stored code is the enclosure's location, and after a hyphen the component's, cut to 79 characters. |
| Ses.StoredCodeNamesComponent | lpd/indicator_ses.c:299-307 | The relative location of a stored code is the component's exactly when there is room, for an enclosure location without hyphen; and, when there is room, exactly when the enclosure location has no hyphen. |
| Ses.SesIndicatorList | lpd/indicator_ses.c:246-335 | The list holds the code of every component listed, in order, up to the first line that does not fit. |
| Ses.GetSesIndicator | lpd/indicator_ses.c:393-442 | Returns the state on the first line with the component's location. |
| Ses.ListingIsRead | lpd/indicator_ses.c:246-335 | A verbose listing, heading included, is read as exactly the components it was printed for, whatever the length of their codes. |
| Ses.StateIsRead | lpd/indicator_ses.c:393-442 | Asking for the state of a stored code gives the state printed for that component, below the heading. |
| DumpRetention.Store.RemoveDumpFiles | opal_errd/extract_opal_dump.c:190-239 | Of the dump's type as many files as possible but fewer than the maximum are left, none older than one removed; its duplicate is gone and all other files are untouched. |
| DumpRetention.Store.ProcessDump | opal_errd/extract_opal_dump.c:301-332 | Room is made, then the dump is saved under its name, unless a temporary file is in the way. |
| DumpRetention.DumpsStayBounded | opal_errd/extract_opal_dump.c:190-239 | Over any run, from the first dump of a type on there are at most the maximum of files of that type. |
| DumpRetention.TypesAgree | opal_errd/extract_opal_dump.c:209-215 | Dumps are of one type exactly when their names agree in the first seven characters. |
| DumpRetention.RoomIsUsed | opal_errd/extract_opal_dump.c:190-239 | A saved dump that is not hidden leaves as many files of its type as there were others, and itself, up to the maximum. |
| DumpRetention.OtherTypesAreKept | opal_errd/extract_opal_dump.c:209-215 | A dump leaves the files of all other types as they were. |
| DumpRetention.NewestDumpsSurvive | opal_errd/extract_opal_dump.c:147-239 | A saved dump is still there as long as any older file of its type is: what is kept is the newest. |
| DumpRetention.HiddenDumpsPileUp | opal_errd/extract_opal_dump.c:209-215 | Saving a dump whose name starts with a dot removes nothing but its duplicate. |
| DumpRetention.HiddenFilesStay | opal_errd/extract_opal_dump.c:209-215 | Over any run, a file whose name starts with a dot stays as it was until its own name is processed again. |
| LogRotation.Daemon.ProcessElog | opal_errd/opal_errd.c:474-481 | A parsed log marks its kind for rotation and is saved with the kind's suffix. |
| LogRotation.Daemon.RotateLogs | opal_errd/opal_errd.c:376-424 | As many files of the kind as possible up to the maximum are left, and each one removed comes before them in the alphabet. |
| LogRotation.Daemon.Iterate | opal_errd/opal_errd.c:1074-1085 | A round rotates exactly the kinds it parsed a log of, and leaves the files of the other kind and of neither kind alone. |
| LogRotation.SuffixTellsKind | opal_errd/opal_errd.c:203-219 | The name a log is saved under tells its kind. |
| LogRotation.KindsAre | opal_errd/opal_errd.c:204-221 | A file is of a kind exactly when its name ends in the four letters of the kind. |
| LogRotation.OrderIsAlphabetical | opal_errd/opal_errd.c:314 | The order of a listing is alphabetical: a name comes before those it is the start of, and before those with a greater character at the first difference. |
| LogRotation.LogsStayBounded | opal_errd/opal_errd.c:1074-1085 | Once a log of a kind was parsed, every later round ends with at most the maximum of that kind. |
| LogRotation.LastLogsSurvive | opal_errd/opal_errd.c:376-424 | Over any rounds, a log stays as long as any file of its kind before it in the alphabet is there; once it is gone there are the maximum of files, all from it on. |
| Drc.ReadCharName | rtas_errd/convert_dt_node_props.c:136-156 | Copies up to a terminator, the end of the data or the end of the buffer, which it then terminates; counts the bytes. |
| Drc.SearchDrcnameToDrcindex | rtas_errd/convert_dt_node_props.c:347-413 | The scan ends for any data; it returns the index at the place of the first equal name; the model stops where the comparison runs past the buffer. |
| Drc.RunsOverIs | rtas_errd/convert_dt_node_props.c:347-413 | A comparison runs past the buffer exactly when no character of it differs from the name and none ends it. |
| Drc.SearchDrcindexToDrcname | rtas_errd/convert_dt_node_props.c:174-240 | The scans end for any data; the buffer holds the name at the place of the first equal index. |
| Drc.NameIsCopied | rtas_errd/convert_dt_node_props.c:136-156 | A name that fits is copied whole and terminated. |
| Drc.NameLeadsToIndex | rtas_errd/convert_dt_node_props.c:347-413 | A name leads to the index at its first place, and an absent one to none. |
| Drc.IndexLeadsToName | rtas_errd/convert_dt_node_props.c:174-240 | An index leads to the name at its first place, and an absent one to none. |
| Drc.LookupsAreInverse | rtas_errd/convert_dt_node_props.c:174-413 | With distinct names and distinct indexes, a name leads to an index exactly when that index leads to the name. |
| Drc.NamesLeadBack | rtas_errd/convert_dt_node_props.c:347-413 | With distinct indexes, every name leads to its own index exactly when the names are distinct. |

## Left out

- The curses interface, option parsing, usage texts, and the `main` functions: no property beyond what is modelled here.
- Calls into the kernel, firmware and libraries (ioctl, mmap, fork and exec, udev, sysfs, the servicelog, regular expressions): they are parameters, scripted answers or byte streams. Failures of memory allocation and of reading and writing are left out except where a member names them.
- LightPathRuns.IndicatorsFollowOpenEvents: setting an indicator is taken to succeed, the indicator list and the mode stay the same over a run, and each notification is handled as one step.
- LightPath.Panel.ParseServiceEvent: writing the log and sending the attention message to the check log of the platform are left out.
- Reformat.ReformatMsg: asks that the buffer has room for what the guard lets through, since the guard alone does not ensure it.
- Catalog.PrintEscapes: the characters of an octal escape are appended directly; the source writes them to `octal_esc[4]` first (ela/catalogs.cpp:180-182), where the terminator of a three-digit escape does not fit.
- Catalog.Parser.CollectOctalDigits: the digits are collected in a list; the source's array has room for four digits and no terminator.
- Character classes are those of the C locale.
- Uint128.CounterRoundTrip: long double is an exact real.
- SmartFile.ReadFileDict: numbers with an exponent, in hexadecimal form, infinities and NaN are not read as the source's conversion reads them; a dump has none of them. A line holds no NUL. Nothing is said of a run of remark characters that does not fit the 128 bytes of a key, to which it is read without a width (diags/diag_nvme.c:1213).
- SmartFile.SmartPage.SetSmartLogField: the page is a table of fields rather than a structure.
- RawData.Section.AppendItem: header lengths are host integers, without a byte order.
- PciVpd.PcieVpd.GetIbmVpdPcie: nothing is said of what happens after more than 256 bytes of an identifier are read to the buffer of 256.
- RtasIndices.ParseRtasWorkarea: nothing is said of what happens when a work area is read past its end or a code has exactly 80 bytes, which overruns its field.
- RtasIndices.Firmware.GetRtasIndices: after a failure nothing is said of the list: the source stores a pointer to freed memory, or leaves the caller's pointer as it was.
- Config.DiagConfig.DiagCfg: nothing is said of the settings when parsing does not return; token buffers are unbounded, the file has no NUL, and whether the system takes a restart policy is one parameter for the whole file.
- Config.PlainFileIsRead: a plain last line is enough for parsing to return and not needed; `ConfigGrammar.HowParsingEnds` says exactly when it returns.
- Config.ConfigurationRoundTrip: values of one word; for all files see `ConfigGrammar.HowParsingEnds`.
- Enclosure.Monitor.ReportFaults: the layout of the page is a parameter; the texts, locations and callouts of events are left out, and every enclosure model follows the same pattern.
- Enclosure.OneEventPerRise: missing and unknown elements are excluded; `SilentFaults` covers all statuses of one element.
- Ses.GetSesIndicator: the lines come from a listing of all components; asking the other program for one component gives the first line of the same form.
- DumpRetention.Store.ProcessDump: removals and writes succeed, and a directory listing is a parameter that is sorted by time with ties in any order.
- LogRotation.Daemon.Iterate: removals succeed, and directory listings are parameters in order of character codes.
- Drc.SearchDrcnameToDrcindex: nothing is said of a comparison that runs past the stack buffer, and names have at most 255 bytes in the lemmas about it.
- The lookups in the compressed connector property (the second format): its two directions do not compute inverse formulas.
- Expanding pastes in catalogs (ela/catalogs.cpp:1000-1034), message and part tables, and bit layouts of control pages: data, or easy finite checks.
