# uecprds in Dafny

A model of the core of uecprds. uecprds is a small RDS (Radio Data System) feeder: it turns station data into UECP frames for an RDS encoder, and runs a daemon that cycles the PS name and the RadioText on a timer. It models:

- **The frame codec, in three copies, each modelled on its own.**
  - The Python encoder class (`uecprds/__init__.py`).
  - The Go package (`pkg/uecprds/uecprds.go`).
  - The encoder half of the Go daemon program (`main.go`).
  - The three share one envelope. Its parts:
    - a four-byte header `[address hi, address lo, 0x00, length]`;
    - the message;
    - a CRC-16/CCITT over both, polynomial 0x1021, initial value 0xFFFF, final complement, sent high byte first;
    - an escape rule of their own: every 0xFE or 0xFF is followed by an inserted 0xFD;
    - the delimiters 0xFE … 0xFF.
  - On top of the envelope sit the group header (MEC, then zero bytes), the fixed-width PS (8) and RT (64) fields, and the Alternative Frequency payloads. The AF payloads use the code table of section 3.2.1.6 of EN 50067: 87.6–107.9 MHz is code 1–204.
  - Where the copies diverge, each divergence is a contract of its own:
    - the Go package writes the codes of a 4–11 AF list twice;
    - the program sends its clock message with group type 0x06 and four time fields;
    - Python masks PTY to five bits, and raises where Go truncates to a byte.
- **A receiver the source does not have.** `Frame.Parse` (check delimiters, remove escapes, check length and checksum) and `AfCodes.Decode` are the partners. The round trips are proved against them.
- **The display scheduler of both daemons (`main.go`, `rdsd.py`), without threads or timers.** It covers:
  - PS scroll-window generation;
  - index-modulo cycling of PS names and RT messages;
  - RT source selection (the Go worker's fallback texts, the Python worker's modification-time check);
  - the stop check in front of every send;
  - the DI packing.
  - Each worker becomes a loop over the rounds or ticks it runs, with what a tick observes of the file system and the clock given as input. It is proved against a function of those inputs.
- **The literal frames of the Go package's tests** (module `Vectors`), derived from the model.

Sends to the serial port are recorded in a ghost field `wire` (Go) or `sent` (Python daemon). Frequencies are whole tenths of a MHz. Waits are ticks or `Dwell` values.

## Model

| member | source | states |
|---|---|---|
| Bytes.LowByte | pkg/uecprds/uecprds.go:149 | `byte(x)` keeps the value modulo 256, negative values included |
| Rds.TpTaByte | pkg/uecprds/uecprds.go:131-140 | bit 1 is set exactly when TP is and bit 0 exactly when TA is; value below 4 |
| Rds.MsByte | pkg/uecprds/uecprds.go:153-159 | 1 exactly for music, else 0 |
| Rds.DiFlags | main.go:129-134 | bits 0–3 are set exactly when stereo, artificial head, compressed, dynamic PTY are; value below 16 |
| Rds.DiFlagsInjective | main.go:129-134 | different flag settings never give the same DI byte |
| Crc.CrcBytes | pkg/uecprds/uecprds.go:259 | the two checksum bytes, high first, put the checksum back together |
| Crc.Crc16Ccitt | uecprds/__init__.py:126-136 | the per-byte loop with eight inner shifts on a 16-bit register ends with the complemented register of the whole data (the same loop as pkg/uecprds/uecprds.go:264-278 and main.go:398-411) |
| Crc.RegisterAppend | uecprds/__init__.py:128-135 | the register over `a + b` is the register over `b` started from the register over `a` |
| Crc.CheckedMessageLeavesResidue | uecprds/__init__.py:141-142 | a message followed by its own checksum always leaves the register at 0x1D0F |
| Stuffing.Stuff | uecprds/__init__.py:143-147 | the stuffed length is the input length plus the number of 0xFE/0xFF bytes |
| Stuffing.ByteStuff | pkg/uecprds/uecprds.go:280-289 | the append loop computes `Stuff` of its input |
| Stuffing.StuffEscapesReserved | uecprds/__init__.py:146-147 | every 0xFE/0xFF of the output is immediately followed by 0xFD |
| Stuffing.UnstuffStuff | uecprds/__init__.py:143-147 | deleting the inserted escapes gives back the input |
| Stuffing.StuffUnstuff | uecprds/__init__.py:143-147 | whatever unstuffs to some data is exactly that data's stuffed form |
| Stuffing.StuffIsIdentity | pkg/uecprds/uecprds.go:280-289 | output equals input exactly when no byte is 0xFE/0xFF |
| Stuffing.StuffAppend | pkg/uecprds/uecprds.go:282-287 | stuffing a concatenation is concatenating the stuffed parts |
| Frame.Header | uecprds/__init__.py:139 | four bytes, the third 0x00 |
| Frame.Seal | uecprds/__init__.py:140-148 | starts with 0xFE, ends with 0xFF, and is four bytes plus the escapes longer than the payload |
| Frame.HeaderFields | uecprds/__init__.py:139 | the address bytes read back as the address; the length byte is the length modulo 256, equal to it exactly when it is at most 255 |
| Frame.CheckSealedBody | pkg/uecprds/uecprds.go:255-259 | the body checks accept header, message and checksum exactly when the message has at most 255 bytes |
| Frame.ParseSeal | pkg/uecprds/uecprds.go:255-262 | a frame parses back to its address and message exactly when the message fits the length byte, else it is refused |
| Frame.InteriorDelimitersEscaped | pkg/uecprds/uecprds.go:260-261 | inside a frame every 0xFE/0xFF is followed by 0xFD |
| AfCodes.EncodeAf | pkg/uecprds/uecprds.go:205-214 | a code exactly for 87.6–107.9 MHz; the code is in 1..204 and stands for that frequency |
| AfCodes.EncodeAfOnto | pkg/uecprds/uecprds.go:205-214 | every code 1..204 is the encoding of its own frequency |
| AfCodes.ValidCodes | pkg/uecprds/uecprds.go:167-174 | the codes of the in-band frequencies: no more than the frequencies, all in the table |
| AfCodes.ValidCodesInBand | pkg/uecprds/uecprds.go:167-174 | with every frequency in band nothing is skipped and each code stands for the frequency at its position |
| AfCodes.ValidCodesSkips | pkg/uecprds/uecprds.go:169-172 | an out-of-band frequency anywhere in the list contributes nothing |
| AfCodes.Layout | main.go:307-341 | the single, short and long layouts are 7, 9 and 17 bytes |
| AfCodes.Decode | main.go:307-341 | whatever a receiver reads from a payload is 1–11 codes of the table |
| AfCodes.DecodeLayout | main.go:307-341 | every list of 1–11 codes reads back from its layout |
| AfCodes.DecodeShortLayout | main.go:314-327 | two or three codes read back from the `E0 + n` layout |
| AfCodes.DecodeLongLayout | main.go:330-341 | four to eleven codes read back from the `EB` layout |
| AfCodes.LayoutDecode | main.go:307-341 | every payload that reads back is the layout of its codes, so layout and decoding are inverse |
| GoText.PadRight | main.go:661-666 | exactly `width` bytes: a longer text is cut to its prefix, a shorter one kept and filled with spaces |
| GoText.CenterString | main.go:651-659 | exactly `width` bytes: a longer text is cut; a shorter one sits after `pad/2` spaces, with `pad/2` or one more after it |
| GoText.FitIdempotent | main.go:651-666 | fitting an already fitted text changes nothing |
| GoUecprds.BuildGroup | pkg/uecprds/uecprds.go:248-253 | `3 + len(data)` bytes: `[mec>>8, mec, 0]` above 0xFF, else `[mec, 0, 0]`, then the data |
| GoUecprds.GroupMecRoundTrip | pkg/uecprds/uecprds.go:248-253 | the MEC reads back for every one-byte MEC and every two-byte MEC with a non-zero low byte |
| GoUecprds.GroupMecAmbiguous | pkg/uecprds/uecprds.go:248-253 | MEC 0x0D00 and MEC 0x0D give the same group |
| GoUecprds.BuildFrame | pkg/uecprds/uecprds.go:255-262 | delimited by 0xFE/0xFF and at least eight bytes longer than the message |
| GoUecprds.BuildFrameParses | pkg/uecprds/uecprds.go:255-262 | a receiver gets address 0 and the message exactly when it has at most 255 bytes |
| GoUecprds.PkgAfPayload | pkg/uecprds/uecprds.go:166-203 | a payload exactly for 1–11 codes |
| GoUecprds.PkgAfShortLists | pkg/uecprds/uecprds.go:175-190 | for 1–3 codes the payload is the expected layout and reads back |
| GoUecprds.PkgAfLongLists | pkg/uecprds/uecprds.go:191-199 | for 4–11 codes the payload is `n` bytes longer than the 17-byte layout, agrees with it only up to the first copy of the codes, and does not read back |
| GoUecprds.BuildAfPayload | pkg/uecprds/uecprds.go:166-174 | the encode loop skips out-of-band frequencies and yields `PkgAfPayload` of the valid codes |
| GoUecprds.LayOutCodes | pkg/uecprds/uecprds.go:175-202 | the switch on the code count, with its fill loops, yields `PkgAfPayload` |
| GoUecprds.GoRem | pkg/uecprds/uecprds.go:119 | Go's `%` truncates: the remainder lies strictly between `-b` and `b` and is the mathematical one for non-negative `a` |
| GoUecprds.PiData | pkg/uecprds/uecprds.go:144 | two bytes, high first, reading back as PI modulo 0x10000 |
| GoUecprds.RtData | pkg/uecprds/uecprds.go:104-113 | 66 bytes: 0x41 0x00, then the text cut or space-filled to 64 |
| GoUecprds.CtData | pkg/uecprds/uecprds.go:117-126 | eight bytes: year mod 100 (truncated) as a byte, month, day, hour, minute, second cut to a byte, two zeros |
| GoUecprds.Encoder.constructor | pkg/uecprds/uecprds.go:26-39 | the station fields as given, nothing sent |
| GoUecprds.Encoder.SendPS | pkg/uecprds/uecprds.go:92-101 | sends exactly one frame: group 0x02 with the text cut or space-filled to 8 bytes by the loop |
| GoUecprds.Encoder.SendRT | pkg/uecprds/uecprds.go:104-114 | sends exactly one frame: group 0x0A with `RtData` of the text |
| GoUecprds.Encoder.SendCTProfline | pkg/uecprds/uecprds.go:117-128 | sends group 0x0D19 with `CtData` |
| GoUecprds.Encoder.SendTPTA | pkg/uecprds/uecprds.go:131-140 | sends group 0x03 with the TP/TA byte |
| GoUecprds.Encoder.SendPI | pkg/uecprds/uecprds.go:143-145 | sends group 0x01 with the PI bytes |
| GoUecprds.Encoder.SendPTY | pkg/uecprds/uecprds.go:148-150 | sends group 0x07 with `byte(pty)`, unmasked |
| GoUecprds.Encoder.SendMS | pkg/uecprds/uecprds.go:153-159 | sends group 0x05 with the music flag |
| GoUecprds.Encoder.SendDI | pkg/uecprds/uecprds.go:161-164 | sends group 0x04 with the DI byte as stored |
| GoUecprds.Encoder.SendStaticInit | pkg/uecprds/uecprds.go:65-80 | sends exactly the TP/TA, PI, PTY, MS and DI frames, in that order |
| GoUecprds.Encoder.SendAF | pkg/uecprds/uecprds.go:83-89 | sends group 0x13 with the payload when there is one, else nothing |
| GoMainCodec.BuildAfMethod05 | main.go:307-312 | the single-frequency layout of the first code |
| GoMainCodec.BuildAfMethod07 | main.go:314-327 | the fill loop yields the short layout of 2–3 codes |
| GoMainCodec.BuildAfMethod0F | main.go:330-341 | the fill loop yields the 17-byte long layout, each code once |
| GoMainCodec.BuildAfPayload | main.go:268-289 | a payload exactly for 1–11 valid codes: their layout, which reads back to them; otherwise an error carrying the count |
| GoMainCodec.PiBytesAgree | main.go:245-250 | `PutUint16(uint16(pi))` gives the package's PI bytes, reading back as PI modulo 0x10000 |
| GoMainCodec.CtMessage | main.go:220-237 | nine bytes: 0x0D 0x19 0x06, day, hour, minute, second cut to a byte, two zeros |
| GoMainCodec.CtMessageIsNotAGroup | main.go:220-237 | reads as MEC 0x0D19, yet equals no group the package builds for that MEC |
| GoMainCodec.MainEncoder.constructor | main.go:128-148 | station fields as given, DI packed from the four flags, nothing sent |
| GoMainCodec.MainEncoder.SendPS | main.go:191-201 | sends group 0x02 with the text cut or space-filled to 8 bytes |
| GoMainCodec.MainEncoder.SendRT | main.go:203-214 | sends group 0x0A with 0x41 0x00 and the text fitted to 64 bytes |
| GoMainCodec.MainEncoder.SendCTProfline | main.go:220-237 | sends the clock message as is, not through the group builder |
| GoMainCodec.MainEncoder.SendTPTA | main.go:239-243 | sends group 0x03 with the TP/TA byte |
| GoMainCodec.MainEncoder.SendPI | main.go:245-250 | sends group 0x01 with PI as a big-endian `uint16` |
| GoMainCodec.MainEncoder.SendPTY | main.go:252-255 | sends group 0x07 with `byte(pty)` |
| GoMainCodec.MainEncoder.SendMS | main.go:257-260 | sends group 0x05 with the music flag |
| GoMainCodec.MainEncoder.SendDI | main.go:262-265 | sends group 0x04 with the packed DI byte |
| GoMainCodec.MainEncoder.SendStaticInit | main.go:172-179 | sends exactly TP/TA, PI, PTY, MS and DI, in that order |
| GoMainCodec.MainEncoder.SendAF | main.go:181-189 | sends group 0x13 with the layout of the valid codes when there are 1–11, else nothing |
| GoDaemon.JoinWith | main.go:451 | the names in order, each at its offset, exactly one space between neighbours and nothing before the first or after the last; no names give the empty text |
| GoDaemon.TrimSpace | main.go:452 | the slice between leading and trailing white space; it neither starts nor ends with white space, and is empty exactly when the input is all white space |
| GoDaemon.ReplaceDoubleSpaces | main.go:453 | never longer than its input |
| GoDaemon.ReplaceKeepsText | main.go:453 | only spaces are dropped; every other byte is kept in order |
| GoDaemon.ReplaceFixesSingleSpaced | main.go:453 | a text without a double space is unchanged |
| GoDaemon.TripleSpaceSurvives | main.go:453 | one pass turns three spaces into two, not one |
| GoDaemon.BiStart | main.go:466-472 | every bidirectional window lies inside the text |
| GoDaemon.GeneratePSScroll | main.go:449-475 | the loops compute the scroll frames of the normalised text |
| GoDaemon.ScrollWindows | main.go:460-474 | the window loops give the one-way windows over the text, a space and its first seven bytes, or the forward then backward windows, exactly `ScrollFrames` of the text |
| GoDaemon.ScrollFramesWidth | main.go:461-473 | every frame is exactly 8 bytes |
| GoDaemon.ScrollFramesCount | main.go:456-473 | no frames when scrolling is off or the text fits, `len + 1` one way, `2 len - 15` both ways, no duplicates removed |
| GoDaemon.UniFramesWrap | main.go:461-465 | one way, byte `m` of frame `k` is byte `(k + m) mod (len + 1)` of the text followed by a space |
| GoDaemon.BiFramesReturn | main.go:466-472 | both ways, the last frame is the first one again |
| GoDaemon.Fit | main.go:502-506 | a fitted text has exactly the width |
| GoDaemon.FitAll | main.go:515-521 | one fitted text per PS name |
| GoDaemon.PsWorker | main.go:489-533 | with frames, round `j` sends frame `j mod count`; without, every round sends every name in order |
| GoDaemon.SelectRt | main.go:544-571 | the text is never empty; the index advances only when the list is used; the list gives `msgs[idx mod len]` and the file its trimmed content when not blank; a failed read or a blank file gives `msgs[0]` when there is one and it is not empty; an empty choice becomes "NO RT FILE OR MESSAGES" exactly when a file is configured and is gone at the check, else "RADIO TEXT" |
| GoDaemon.RunRt | main.go:538-588 | one text per round |
| GoDaemon.RunRtNeverEmpty | main.go:565-571 | no round ever sends an empty RT |
| GoDaemon.RunRtCycles | main.go:558-562 | without the file the rounds walk the message list in order and wrap around |
| GoDaemon.RtWorker | main.go:535-589 | round `j` sends the `j`-th selected text fitted to 64 bytes |
| PyText.Strip | rdsd.py:160 | the slice between leading and trailing white space; it neither starts nor ends with white space, and is empty exactly when the input is all white space |
| PyText.Split | rdsd.py:161 | every item is a non-empty word without white space, and the items put back together are the non-white-space characters of the input, in order |
| PyText.SplitJoinSpace | rdsd.py:161 | splitting words joined by single spaces gives the same words back |
| PyText.JoinSpace | rdsd.py:160 | the items in order, each at its offset, exactly one space between neighbours and nothing before the first or after the last; no items give the empty string |
| PyText.JoinWordsCollapsed | rdsd.py:161 | words joined by single spaces form a text whose only white space is single spaces between words |
| PyText.CollapseIsCollapsed | rdsd.py:161 | `" ".join(s.split())` is always collapsed, splits into the same words as the input, and keeps its non-white-space characters in order |
| PyText.Ljust | uecprds/__init__.py:159 | never cuts; a shorter text is kept and filled up to the width |
| PyText.Center | rdsd.py:249 | never cuts; a shorter text sits between spaces, the odd space on the left when the width is odd |
| PyText.CenterOddLeansLeft | rdsd.py:249 | `"ab".center(5)` is `"  ab "` |
| PyText.Latin1Replace | uecprds/__init__.py:157 | one byte per character: its code up to 0xFF, else `?` |
| PyText.AsciiIgnore | uecprds/__init__.py:160 | every byte is ASCII and there is at most one per character; an ASCII text gives exactly its own codes |
| PyText.AsciiIgnoreAppend | uecprds/__init__.py:160 | encoding a concatenation encodes each part |
| PyText.AsciiIgnoreAt | uecprds/__init__.py:160 | each character contributes its code at its own place when ASCII and nothing otherwise, so the result is the ASCII characters in order |
| PyText.AsciiIgnoreKeepsAll | uecprds/__init__.py:160 | nothing is dropped exactly when every character is ASCII |
| PyUecprds.MaskPty | uecprds/__init__.py:93 | `pty & 0x1F` is in 0..31 and is `pty` modulo 32 |
| PyUecprds.Prefix | uecprds/__init__.py:157-159 | slicing `[:n]` keeps the first `min(len, n)` items |
| PyUecprds.UecpFrame | uecprds/__init__.py:138-148 | a frame exactly when the address fits two bytes and the message 255; else `OverflowError` for the address (checked first) or `ValueError` for the length |
| PyUecprds.UecpFrameParses | uecprds/__init__.py:138-148 | every frame the Python encoder makes reads back to its address and message |
| PyUecprds.PythonMatchesGoAtAddressZero | tests/test_uecprds.py:12-54 | at address 0 the Python frame is the Go frame for every message that fits, so the shared test vectors hold for both; a longer message raises in Python and is unreadable from Go |
| PyUecprds.RtBytes | uecprds/__init__.py:157 | always 64 bytes |
| PyUecprds.RtBytesContent | uecprds/__init__.py:157 | byte `i` is the Latin-1 code of character `i` (or `?`), and a space after the text |
| PyUecprds.PsBytes | uecprds/__init__.py:159-160 | at most 8 bytes; when the first eight characters are ASCII, exactly 8: byte `i` is the code of character `i`, and a space after the end of the name |
| PyUecprds.PsBytesWidth | uecprds/__init__.py:159-160 | exactly 8 bytes when the first eight characters are ASCII, fewer otherwise |
| PyUecprds.PiBytes | uecprds/__init__.py:154 | two bytes, high first, reading back as PI |
| PyUecprds.Msg | uecprds/__init__.py:153-160 | the MEC, two zero bytes, then the data |
| PyUecprds.RdsMessages | uecprds/__init__.py:150-161 | messages exactly when PI fits two bytes and PTY one; else `OverflowError` for PI, which is converted first, or `ValueError` for PTY |
| PyUecprds.MessagesHeaders | uecprds/__init__.py:150-161 | six messages in the order 0x03, 0x01, 0x07, 0x05, 0x0A, 0x02, each opening with MEC 0x00 0x00 |
| PyUecprds.MessagesFields | uecprds/__init__.py:152-156 | the TP/TA byte, PI high byte first, the PTY value and the music flag |
| PyUecprds.MessagesTexts | uecprds/__init__.py:157-160 | RT is 0x41 0x00 then its data, and PS is its data |
| PyUecprds.MessagesFit | uecprds/__init__.py:150-161 | with 64 bytes of RT and at most 8 of PS, every message has at most 69 bytes |
| PyUecprds.Uecprds.constructor | uecprds/__init__.py:72-96 | every field as given or defaulted as the source defaults it, PTY masked to five bits, so the object is valid |
| PyUecprds.Uecprds.SetPi | uecprds/__init__.py:98-99 | changes PI only, so a valid object stays valid |
| PyUecprds.Uecprds.SetPs | uecprds/__init__.py:101-102 | changes PS only, so a valid object stays valid |
| PyUecprds.Uecprds.SetRt | uecprds/__init__.py:104-105 | changes RT only, so a valid object stays valid |
| PyUecprds.Uecprds.SetPty | uecprds/__init__.py:107-108 | changes PTY only, masked to five bits, so the object is valid |
| PyUecprds.Uecprds.SetMs | uecprds/__init__.py:110-111 | changes MS only, so a valid object stays valid |
| PyUecprds.Uecprds.SetTp | uecprds/__init__.py:113-114 | changes TP only, so a valid object stays valid |
| PyUecprds.Uecprds.SetTa | uecprds/__init__.py:116-117 | changes TA only, so a valid object stays valid |
| PyUecprds.Uecprds.SetSerial | uecprds/__init__.py:119-123 | replaces port and speed; the delay only when one is given; a valid object stays valid |
| PyUecprds.Uecprds.BuildUecpFrame | uecprds/__init__.py:138-148 | the header, checksum loop and stuffing loop give `UecpFrame` of the encoder address |
| PyUecprds.Uecprds.BuildRdsMessages | uecprds/__init__.py:150-161 | the appends give `RdsMessages` of the fields, or its error; on a valid object the only error is `OverflowError` and the PTY byte is the field, below 32 |
| PyUecprds.MaskedPtyMessages | uecprds/__init__.py:150-155 | with PTY below 32 the messages fail only on PI, and the PTY message carries the value |
| PyUecprds.Uecprds.BuildFrames | uecprds/__init__.py:163-164 | the first error of the messages or of the address; else six frames, each reading back to the encoder address and its message; on a valid object the only error is `OverflowError` |
| PyUecprds.SealAll | uecprds/__init__.py:164 | one frame per message, each the encoder's frame of it and reading back to it |
| PyUecprds.FramesParse | uecprds/__init__.py:164 | every message of at most 255 bytes frames without error and reads back |
| PyDaemon.BiStart | rdsd.py:169-173 | every two-way window lies inside the text, and only the first one starts at 0 |
| PyDaemon.RawFrames | rdsd.py:166-173 | `len + 1` windows one way, `2 len - 16` both ways, each 8 characters |
| PyDaemon.Dedup | rdsd.py:174 | keeps the first and the last item, never grows |
| PyDaemon.GenerateScrollFrames | rdsd.py:158-174 | the comprehension, the two loops and the filter give the scroll frames of the collapsed text |
| PyDaemon.BiWindows | rdsd.py:169-173 | the two loops give the forward then backward windows, down to index 1 |
| PyDaemon.DedupNoAdjacent | rdsd.py:174 | no two neighbours of the result are equal |
| PyDaemon.DedupSubsequence | rdsd.py:174 | the result is the input with some items left out, in order |
| PyDaemon.DedupIdentity | rdsd.py:174 | a list without equal neighbours is kept as is |
| PyDaemon.DedupIdempotent | rdsd.py:174 | filtering twice is filtering once |
| PyDaemon.DedupKeepsEveryItem | rdsd.py:174 | every value of the input is still present |
| PyDaemon.ScrollFramesShape | rdsd.py:158-174 | no frames exactly when scrolling is off or the text fits; else 8-character frames, no equal neighbours, the first window first, a subsequence of the raw windows |
| PyDaemon.UniFramesWrap | rdsd.py:166-168 | one way, windows read the text as a loop with one space between its end and its start |
| PyDaemon.BiFramesEnd | rdsd.py:169-173 | both ways the raw list starts at the first window and ends at the second |
| PyDaemon.FitPs | rdsd.py:249 | a shorter text is fitted to 8 characters, a longer one passed whole |
| PyDaemon.PsWorker | rdsd.py:243-262 | tick `j` sends item `j mod count` of the frames, else of the names, else nothing; each tick waits the scroll speed, the display delay (several names), 60 s (one name) or 1 s (none) |
| PyDaemon.ScrollFramesSentAsIs | rdsd.py:246-250 | a scroll frame is sent unchanged |
| PyDaemon.FitRt | rdsd.py:211 | a shorter text is fitted to 64 characters, a longer one passed whole |
| PyDaemon.RtTick | rdsd.py:214-240 | file branch: sends the stripped content exactly when the mtime is new and the read succeeds, records a new mtime even if the read fails, never moves the list; list branch: sends `msgs[idx mod len]` exactly when the interval has passed, advancing `idx` by one, else changes nothing; every send, from the file or the list, records the tick's time as the last list change, and a tick without a send keeps it |
| PyDaemon.RtStart | rdsd.py:195-212 | the worker ends exactly when the file is used and `stat` or the read fails; else it sends the file text or the first message only when not empty, and what it sends is that text fitted to 64 characters |
| PyDaemon.RunRt | rdsd.py:214-241 | at most one send per tick |
| PyDaemon.RtInitialSend | rdsd.py:195-212 | the initial block computes `RtStart` |
| PyDaemon.RtPoll | rdsd.py:214-240 | one pass of the loop body computes `RtTick` |
| PyDaemon.RtWorker | rdsd.py:188-241 | sends the initial text, then what each tick sends |
| PyDaemon.RtLoop | rdsd.py:214-241 | the polling loop sends what the ticks send, in order |
| PyDaemon.RunRtMtimeMonotone | rdsd.py:219-220 | the remembered modification time never goes back |
| PyDaemon.RunRtSilentWhileUnchanged | rdsd.py:216-220 | while the file is there and its time is not newer, nothing is sent and nothing changes |
| PyDaemon.RunRtCycles | rdsd.py:229-240 | without the file every send is the next message of the list, wrapping, and the index grows by one per send |
| PyDaemon.BlankFileSendsSpaces | rdsd.py:221-225 | a new but blank file sends 64 spaces |
| PyDaemon.Transmitter.constructor | rdsd.py:131 | not stopped, nothing sent |
| PyDaemon.Transmitter.SafeSend | rdsd.py:176-186 | nothing once stop is requested; else one PS send for kind `"ps"`, one RT send otherwise |
| PyDaemon.Transmitter.Stop | rdsd.py:282-286 | the stop request is set |
| PyDaemon.PyDi | rdsd.py:146-151 | the DI value is below 16 and equals the encoders' DI byte of the same flags |
| Vectors.DemoPadded | pkg/uecprds/uecprds_test.go:11 | `"DEMO"` padded to 8 is `"DEMO    "` |
| Vectors.AfOfDemo | pkg/uecprds/uecprds_test.go:77 | 92.4 MHz is code 0x31, sent in the single-frequency layout |
| Vectors.PiOfDemo | pkg/uecprds/uecprds_test.go:33 | PI 0x1337 is sent as 0x13 0x37 |
| Vectors.CtOfDemo | pkg/uecprds/uecprds_test.go:92-93 | 2023-08-25 12:34:56 is the clock data 17 08 19 0C 22 38 00 00 |
| Vectors.PsVector | pkg/uecprds/uecprds_test.go:9-18 | the PS frame is `fe0000000b02000044454d4f202020209180ff` |
| Vectors.TpVector | pkg/uecprds/uecprds_test.go:20-29 | the TP/TA frame is `fe0000000403000002fc59ff` |
| Vectors.PiVector | pkg/uecprds/uecprds_test.go:31-40 | the PI frame is `fe0000000501000013371e49ff` |
| Vectors.PtyVector | pkg/uecprds/uecprds_test.go:42-51 | the PTY frame is `fe000000040700000fe705ff` |
| Vectors.MsVector | pkg/uecprds/uecprds_test.go:53-62 | the MS frame is `fe0000000405000001eba3ff` |
| Vectors.DiVector | pkg/uecprds/uecprds_test.go:64-73 | the DI frame is `fe00000004040000008d36ff` |
| Vectors.AfVector | pkg/uecprds/uecprds_test.go:75-88 | the AF frame of 92.4 MHz is `fe0000000a130000050000e1310060643bff` |
| Vectors.CtVector | pkg/uecprds/uecprds_test.go:90-101 | the clock frame is `fe0000000b0d19001708190c22380000337dff` |

## Left out

- Serial I/O. Opening, writing, flushing and closing the port are not modelled: `Open`/`Close`/`sendGroup`, `openSerialPort`/`closeSerialPort`/`sendMessage`, `send_all`/`send_single`, and the delay slept after each frame. A send appends the frame to the ghost `wire`.
- GoUecprds.Encoder.SendStaticInit: the port never fails in the model, so the early return on a write error and the error results of the `Send*` methods are not modelled.
- Threads, goroutines, the lock, waiting on the stop channel or event, signal handling, the CT worker and the join logic of `Run`/`run` are not modelled. Each worker is a loop over a given number of rounds or ticks, and the ticks running out is the stop request.
- Floating point. Frequencies are whole tenths of a MHz, so `round` and the float range tests become integer tests. Delays and intervals are ticks, or the `Dwell` a PS tick waits.
- YAML configuration, command-line handling, logging and the debug hex dump are not modelled.
- `time.Now`, `time.time` and the calendar fields are inputs. File existence, `stat` and file reads are per-round observations (`RtProbe`, `RtObs`), one clock reading per tick.
- GoDaemon.SelectRt, PyDaemon.RtTick, PyDaemon.RtStart: the crash when checking the file fails is not modelled. In Go, `fileExists` dereferences a nil `FileInfo` when `os.Stat` fails with anything other than not-exist (a parent directory without permission, a path through a regular file), and the panic ends the program; the model makes existence a plain yes or no. In Python, `Path.is_file()` sits outside the `try` and lets a `PermissionError` through, which ends the RT thread; the model makes `isFile` a plain yes or no.
- The serial stubs, `cmd/rdsd/main.go` and `example.py` are not part of this model.
- The Python tests call `build_group`, `build_frame` and `build_af_payload`, and the Python daemon calls `set_di`, `send_di`, `send_ps` and `send_rt`. The encoder class defines none of these, so they are not modelled. The Python side of the shared test vectors is covered through `PythonMatchesGoAtAddressZero`. The daemon's DI value (`PyDaemon.PyDi`) and its sends (`Transmitter.SafeSend`) are modelled up to the call into the encoder.
- Text is ASCII only.
  - The Go daemon's `strings.TrimSpace` trims tab, line feed, vertical tab, form feed, carriage return and space; the Unicode spaces it also trims are not modelled.
  - Python's `strip()`/`split()` use the ASCII characters `str.isspace` accepts (0x09–0x0D, 0x1C–0x1F, space); non-ASCII white space is not modelled.
  - `center`/`ljust` follow CPython's rule on code points.
  - Go strings are taken as their UTF-8 bytes.
- GoUecprds.Encoder.constructor and GoMainCodec.MainEncoder.constructor: device, baud rate, delay and debug flag are not kept, since only the port uses them.
- PyUecprds.Uecprds.constructor: the delay is a whole number of seconds, not a float, so its default 4.0 is 4.
- GoDaemon.PsWorker, PyDaemon.PsWorker: the waits are not modelled as time. The Python worker reports which wait each tick takes; the Go worker drops the waits.
- No worker suppresses a send because the text equals the last one sent. The only change check is the Python modification-time comparison, and it is modelled.
- GoUecprds.LayOutCodes, GoDaemon.ScrollWindows, PyDaemon.BiWindows, PyDaemon.RtLoop: these split a source function in two (the switch of `buildAFPayload`, the window loops of `generatePSScroll`, the two loops of `_generate_scroll_frames`, the polling loop of `_rt_worker`). They cite the lines they model.
