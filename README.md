# Bojata in Dafny

Bojata is a colour-sampling kiosk. An RGB sensor on a serial port sends
lines `R,G,B[;I][@]\r\n`. The sampler (`bojata.py`) reads one line per tick
of the Tk event loop and decodes it. It scales each channel by the
intensity `I` and formats the result as `#rrggbb` in `curr_color`. Then it
fills the display with that colour and, when the line ends in `@`, starts a
print. The touch-screen front end (`bojata_gui.py`) has a home frame, a scan
frame and a list frame. The scan frame shows the captured colour beside a
form: author, colour name, category, drawer, location and comment. Author
is required. A submitted form becomes a `Color` record in the database.

The model has one module per part of the program:

- `Utf8`: the strict `.decode('utf8')` applied to each line. It is proved
  against its encoder.
- `RgbLine`: the `RGB_PATTERN` regular expression as a matcher, with a
  grammar it is proved to accept exactly, and `int()` of its groups.
- `Color`: the intensity normaliser, the `'#%02x%02x%02x'` formatter, and
  the `#` colour syntax Tk accepts.
- `Ports`: the `COMPORT_PATTERN` filter and the first-match port choice.
- `Sampler`: one `task()` tick. It is a specification function `Tick` over
  an abstract environment (what the serial library answers), plus a class
  `Sampler` whose `Task` method updates the module globals step by step and
  is proved to do what `Tick` says. The backlog cleanup is a parameter:
  the module's own `serial_buffer_cleanup`, or the GUI's `rerun_app` that
  replaces it.
- `Form`: `str.strip`, the "empty means NULL" rule, the required-field
  check, the inputs `reset_ui` builds, and the category and drawer menus.
- `Gui`: `BojataRoot` (the raised frame, `rerun_app`), the database as an
  append-only table, and `ScanFrame` (`on_show_frame`, typing, the menus,
  `submit`, `cancel`).

The model keeps these behaviours of the code, which a reader might not
expect:

- Channels are not clamped to 0..255. `R*255/I` can exceed 255, and
  `'%02x'` then prints three or more digits. `Color.ColorTextShape` states
  when the text has seven characters. `Color.ColorTextAmbiguous` shows two
  different colours with the same text.
- Not every fault is recovered. Four exceptions escape the `except` clause
  of `task`, and the tick then schedules nothing, so sampling stops
  (`Sampler.EscapeIff`).
  - A line that is not valid UTF-8 raises `UnicodeDecodeError`.
  - A matching line with a number of more than 4300 digits makes `int()`
    raise `ValueError` (`Sampler.ShowTooManyDigits`,
    `Sampler.ShowLongIntensityLine`).
  - A rescale whose result is past the largest double raises
    `OverflowError` (`Sampler.ShowRescaleOverflow`).
  - A colour text Tk does not accept makes the fill raise `TclError`:
    `256,0,0` gives `#1000000`, seven digits (`Sampler.ShowWideRedLine`).

  The first three come before `curr_color` is assigned, so it keeps its old
  value. `TclError` comes after, with `curr_color` already set. Either way
  nothing is drawn. The text Tk rejects also makes `on_show_frame` raise
  before it fills in `hex`.
- Under the GUI the backlog is never discarded (`Sampler.RerunAppNeverDiscards`).
  Away from HomeFrame, `rerun_app` does nothing and the tick goes on to
  read the line anyway.
- Answering "yes" to the print prompt does not reach `show_frame('HomeFrame')`.
  `generate_image` passes the colour string to `draw_swatch` in the height
  position (bojata_gui.py:215), and `h / 3` raises `TypeError`. The model
  records the stored record and an `Escaped` outcome.

## Model

| member | source | states |
|---|---|---|
| Utf8.DecodeFirst | bojata.py:75 | one decoded code point takes 1 to 4 bytes, all after the first being continuation bytes; a never-valid byte or a stray continuation byte at the head is an error |
| Utf8.DecodeFirstSound | bojata.py:75 | the bytes one decoded code point takes are exactly the encoding of that code point |
| Utf8.DecodeFirstEncodeChar | bojata.py:75 | decoding the encoding of any character gives that character back and consumes exactly its encoding |
| Utf8.Decode | bojata.py:75 | `.decode('utf8')`, with None for UnicodeDecodeError; it has no contract of its own and is specified against the encoder by `Utf8.DecodeEncode` and `Utf8.EncodeDecode` |
| Utf8.DecodeEncode | bojata.py:75 | decoding the UTF-8 encoding of any text gives the text back (round trip) |
| Utf8.EncodeDecode | bojata.py:75 | a line the decoder accepts is the UTF-8 encoding of the text it yields, so overlong forms, surrogates and cut-off sequences, which no encoding contains, are rejected |
| Utf8.DecodeIffEncoding | bojata.py:75 | the decoder accepts a line if and only if it is the UTF-8 encoding of some text |
| Utf8.MalformedRejected | bojata.py:75 | `E0 80 80` (overlong), `ED A0 80` (a surrogate) and `31 E2 82` (cut off) raise UnicodeDecodeError |
| Utf8.DecodeAscii | bojata.py:75 | a line of ASCII bytes always decodes, to the characters with the same codes |
| Utf8.NeverValidRejected | bojata.py:75 | a line containing C0, C1 or F5..FF anywhere raises UnicodeDecodeError |
| RgbLine.Numeral | bojata.py:28 | greedy `\d+`: fails exactly when the text does not start with a digit; otherwise splits it into a non-empty digit run and a rest that does not start with a digit |
| RgbLine.IntensityGroup | bojata.py:28 | the optional `(?:;(\d+))?` group captures a numeral and consumes exactly `;` and that numeral, or captures nothing and consumes nothing |
| RgbLine.Match | bojata.py:28 | the groups of every match are well formed (three numerals, an optional numeral, a flag) |
| RgbLine.MatchComplete | bojata.py:28 | every text of the grammar, followed by anything, is matched with exactly its groups |
| RgbLine.MatchSound | bojata.py:77 | a matched line is the grammar text of its groups followed by the unread rest |
| RgbLine.MatchIffGrammar | bojata.py:28 | the pattern matches a line if and only if the line starts with a text of the grammar, and then yields that text's groups |
| RgbLine.MatchIgnoresTail | bojata.py:77 | whatever follows the first line feed does not change the match |
| RgbLine.UnterminatedRejected | bojata.py:28 | a line without a line feed never matches |
| RgbLine.MatchedHasNewline | bojata.py:28 | every line the pattern matches contains a line feed |
| RgbLine.ValueDecimalText | bojata.py:79 | the decimal text of n denotes n, so `int()` reads it back whenever it returns |
| RgbLine.DecimalTextLength | bojata.py:79 | the decimal text of n has at most k digits if and only if n < 10^k, so a number fits the 4300-digit limit of `int()` exactly when it is below 10^4300 |
| RgbLine.Value | bojata.py:79 | the number a digit string denotes, which `int()` returns for a text of at most 4300 digits; no contract of its own, `RgbLine.ValueDecimalText` proves it inverts decimal printing |
| RgbLine.ToSample | bojata.py:78-83 | the groups as integers, the intensity only when its group matched, or the ValueError `int()` raises when a group has more than 4300 digits; no contract of its own, used by `RgbLine.DecodeIffGrammar` |
| RgbLine.Decode | bojata.py:77-83 | no match, a ValueError from `int()`, or the integer sample; no contract of its own, its contract is `RgbLine.DecodeIffGrammar` and `RgbLine.DecodeFormat` |
| RgbLine.DecodeIffGrammar | bojata.py:77-83 | the pattern fails exactly on the lines the grammar does not allow; on the others the groups of the grammar text decide, giving their integer values or, for a group of more than 4300 digits, the ValueError |
| RgbLine.DecodeFormat | bojata.py:77-83 | decoding the line written for a sample, followed by any rest, gives the sample back when its numbers have at most 4300 digits, and the ValueError otherwise |
| RgbLine.DecodeRedLine | bojata.py:77-79 | `255,0,0\r\n` decodes to red with no intensity and no print flag |
| RgbLine.DecodeWideRedLine | bojata.py:77-79 | `256,0,0\n` decodes to a red channel of 256, above a byte |
| RgbLine.LongIntensityRejected | bojata.py:83 | a matching line whose intensity has more than 4300 digits, even all zeros, ends in the ValueError |
| Color.Total | bojata.py:83 | the divisor is positive, equals the intensity when that is non-zero, and is 1 for an intensity of 0 |
| Color.Rescale | bojata.py:84-86 | the scaled channel is the floor of c·255/I, i.e. r·I ≤ c·255 < (r+1)·I |
| Color.Normalize | bojata.py:82 | a line without an intensity keeps its channels unchanged |
| Color.NormalizeWithIntensity | bojata.py:82-86 | with an intensity, every channel is rescaled by the same divisor |
| Color.ZeroIntensityIsOne | bojata.py:83 | intensity 0 and intensity 1 give the same colour |
| Color.RescaleMonotone | bojata.py:84-86 | a larger channel never scales to a smaller value |
| Color.RescaleBounded | bojata.py:84-86 | a channel no larger than the intensity scales into 0..255 |
| Color.NormalizeBounded | bojata.py:82-86 | channels no larger than the intensity give a colour within 0..255, and no rescale overflows |
| Color.RescaleOverflows | bojata.py:84-86 | `int(c / total * 255)` raises OverflowError: c·255 is at least 2^1024·I; no contract of its own, used by `Sampler.ShowRescaleOverflow` |
| Color.Overflows | bojata.py:82-86 | a line with an intensity, one of whose rescales overflows; without an intensity nothing overflows; no contract of its own |
| Color.NormalizeHalfIntensity | bojata.py:82-86 | `100,100,100;200` gives 127 in every channel |
| Color.Hex | bojata.py:90 | `'%x'`, a non-empty text; `Color.HexValueHex` and `Color.HexLength` state its value and length |
| Color.Hex02 | bojata.py:90 | `'%02x'`, no contract of its own; `Color.Hex02Facts` states its padding and value |
| Color.ColorText | bojata.py:90 | `f'#{r:02x}{g:02x}{b:02x}'`, no contract of its own; `Color.ColorTextShape` and `Color.ParseColorTextRoundTrip` state its shape and inverse |
| Color.HexValueHex | bojata.py:90 | the lower-case hex digits written for n denote n |
| Color.HexLength | bojata.py:90 | n is written with one hex digit exactly when n < 16, and with at most two exactly when n < 256 |
| Color.Hex02Facts | bojata.py:90 | `'%02x'` gives at least two digits, exactly two if and only if n < 256, and they denote n |
| Color.ColorTextShape | bojata.py:90 | `curr_color` is `#` followed by hex digits, has at least 7 characters, and has exactly 7 if and only if every channel is below 256 |
| Color.ParseColorTextRoundTrip | bojata.py:90 | reading a colour text of a colour within 0..255 back gives the colour |
| Color.ParseColorTextOnlyBytes | bojata.py:90 | the text of a colour reads back as a colour only when every channel is below 256 |
| Color.ColorTextRed | bojata.py:90 | (255,0,0) is written `#ff0000` |
| Color.ColorTextPadded | bojata.py:90 | (10,10,10) is written `#0a0a0a`, with the zero padding |
| Color.ColorTextAmbiguous | bojata.py:90 | without clamping, two different colours have the same text `#1234567` |
| Color.TkColor | bojata.py:91-92 | the `#` colour syntax Tk accepts in `fill=` and `bg=`: 3, 6, 9 or 12 hex digits |
| Color.ColorTextTk | bojata.py:90-92 | Tk accepts `curr_color` if and only if it has 6, 9 or 12 digits, and always when every channel fits in a byte |
| Color.ColorTextTkRejects | bojata.py:90-92 | (256,0,0) is written `#1000000`, which Tk rejects |
| Ports.MatchingPorts | bojata.py:44 | a device is kept if and only if it is listed and the port pattern matches its name; the result has one entry for every matching name in the listing |
| Ports.MatchingPortsOrder | bojata.py:44 | the comprehension keeps listing order and repeats: a matching name stands at its rank among the matching names before it, which with the length fixes the list |
| Ports.PortMatches | bojata.py:29 | `COMPORT_PATTERN.match`: `/dev/ttyACM` or `COM` followed by a digit, whatever comes after; `Ports.PortExamples` checks it on names |
| Ports.SelectPort | bojata.py:47-50 | no port is chosen exactly when no listed device matches; a chosen port is listed and matches |
| Ports.SelectPortIsFirst | bojata.py:44-50 | the chosen port is the first listed device that matches |
| Ports.SelectPortHasIndex | bojata.py:44-50 | a chosen port has an index in the listing before which no device matches |
| Ports.PortExamples | bojata.py:29 | `/dev/ttyACM0`, `COM3` and `COM12x` match (anything may follow the first digit); `/dev/ttyUSB0`, `/dev/ttyS0`, `COM` and `xCOM3` do not |
| Ports.SelectPortExample | bojata.py:43-50 | with `/dev/ttyS0`, `/dev/ttyACM1`, `COM3` listed, `/dev/ttyACM1` is chosen |
| Sampler.Tick | bojata.py:62-111 | one tick as a value: the new globals, the serial and process calls, the drawings, the requests to `frame.after`, and how it ends; the Sampler lemmas below are its contract |
| Sampler.Backlog | bojata.py:71-72 | the part of the tick from the `in_waiting` query on; no contract of its own |
| Sampler.Proceed | bojata.py:71-72 | the part from the limit test on; its outcomes are stated by `Sampler.RestartIff` and `Sampler.EscapeIff` |
| Sampler.RunCleanup | bojata.py:56-59 | the bound cleanup strategy and, for `rerun_app` away from HomeFrame, the rest of the tick; no contract of its own |
| Sampler.Read | bojata.py:75-76 | `readline()`, the strict decode and the debug log's `in_waiting`; no contract of its own |
| Sampler.Show | bojata.py:77-105 | the match, the conversions, the colour, the fill and the scheduling, escaping on a ValueError, an OverflowError or a colour Tk rejects; its contract is `Sampler.MatchedLine` and `Sampler.RejectedLine` |
| Sampler.ShowDecoding | bojata.py:77-105 | by how the line decoded: no match reschedules at TASK_DELAY, a ValueError escapes with the state kept, a sample goes on to `ShowSample`; no contract of its own |
| Sampler.ShowSample | bojata.py:82-105 | a decoded sample: the OverflowError with the state kept, or the colour painted; no contract of its own |
| Sampler.Paint | bojata.py:89-105 | `curr_color` assigned, then the fill (or TclError), the banner and the next tick; its contract is `Sampler.PaintFacts` |
| Sampler.PaintFacts | bojata.py:89-105 | `curr_color` becomes the text; Tk rejecting it is exactly an escape with nothing drawn or scheduled; otherwise the fill, with `@` the banner and the print job, and one next tick |
| Sampler.Recover | bojata.py:107-111 | the except branch; `Sampler.FaultsRecover` states what it leaves |
| Sampler.TickInOrder | bojata.py:62-111 | the serial calls of a tick happen in the order of the body and none twice: connect, backlog query, cleanup, readline, and close last |
| Sampler.ConnectsFirst | bojata.py:67-68 | a tick looks for a port first exactly when the connection is closed; an open connection keeps its port |
| Sampler.NoPortRetries | bojata.py:47-48 | with no matching device nothing is opened, the port is unchanged, and one retry is scheduled after RECONNECT_DELAY |
| Sampler.OpensFirstMatch | bojata.py:50-51 | a closed connection is opened on the first matching device |
| Sampler.CleanupIffOverLimit | bojata.py:71-72 | the cleanup runs if and only if the backlog read on a working connection exceeds SERIAL_BUFFER_LIMIT |
| Sampler.CleanupBeforeRead | bojata.py:71-75 | when both happen, the cleanup comes before `readline()` |
| Sampler.RerunAppNeverDiscards | bojata_gui.py:54-57 | under the GUI's strategy the backlog is never discarded |
| Sampler.RestartIff | bojata.py:56-59 | the process is restarted if and only if the backlog is over the limit, the strategy restarts (the module's unless discarding raises, the GUI's only on HomeFrame) and `os.execv` does not fail |
| Sampler.EscapeIff | bojata.py:107 | the tick ends in an uncaught exception if and only if it gets past the backlog test and the line read is not valid UTF-8, or reaches the match and matches with a number over 4300 digits, a rescale past the largest double, or a colour text Tk rejects |
| Sampler.FaultsRecover | bojata.py:107-111 | the port is closed if and only if a serial call or the cleanup's `os.execv` raises; then nothing is drawn, `curr_color` is kept and one retry follows after RECONNECT_DELAY |
| Sampler.ExecFailureRecovers | bojata.py:56-59 | when the strategy reaches `os.execv` and it raises OSError, the restart was attempted, the process goes on, the port is closed and one retry follows after RECONNECT_DELAY |
| Sampler.RejectedLine | bojata.py:77 | a line the pattern rejects changes neither `curr_color` nor the display, and the next tick follows at TASK_DELAY |
| Sampler.MatchedLine | bojata.py:77-105 | a matching line whose numbers raise ValueError or OverflowError keeps `curr_color`, draws and schedules nothing and escapes; any other sets `curr_color` to the formatted normalised colour; if Tk accepts it the display is filled, and with `@` the banner is shown, printing starts and the next tick waits PRINT_DELAY; if Tk rejects it nothing is drawn or scheduled and the tick escapes |
| Sampler.ColorChangesOnlyOnMatch | bojata.py:89-92 | `curr_color` and the display change only when a line is read, decoded and matched |
| Sampler.ExactlyOneNextTick | bojata.py:101-111 | a tick that returns schedules exactly one further tick; one that escapes or restarts schedules none |
| Sampler.RedLineScenario | bojata.py:62-105 | on an open port with a backlog of 3, the bytes of `255,0,0\r\n` set `curr_color` to `#ff0000`, fill the display with it and schedule the next tick at TASK_DELAY |
| Sampler.ShowWideRedLine | bojata.py:77-92 | the line `256,0,0\n` sets `curr_color` to `#1000000`, draws nothing, schedules nothing and escapes |
| Sampler.ShowTooManyDigits | bojata.py:79-83 | the line of any sample with a number of more than 4300 digits escapes with the state unchanged and nothing drawn or scheduled |
| Sampler.ShowLongIntensityLine | bojata.py:83 | `10,10,10;` with an intensity of more than 4300 digits escapes with the state unchanged |
| Sampler.ShowRescaleOverflow | bojata.py:84-86 | the line of a sample within the digit limit whose rescale overflows escapes with the state unchanged |
| Sampler.Sampler.constructor | bojata.py:34-38 | the globals start with a closed port, no device, no colour, and nothing drawn or scheduled |
| Sampler.Sampler.Task | bojata.py:62-111 | one tick changes the globals, the call trace, the drawing and the schedule exactly as `Tick` says |
| Sampler.Sampler.CheckBacklog | bojata.py:71-72 | the backlog query and the rest of the tick, as `Backlog` says |
| Sampler.Sampler.ProceedStep | bojata.py:71-72 | the limit test and the rest of the tick, as `Proceed` says |
| Sampler.Sampler.CleanupStep | bojata.py:56-59 | the bound cleanup strategy and the rest of the tick if it returns, as `RunCleanup` says |
| Sampler.Sampler.ReadAndShow | bojata.py:75-76 | `readline()`, the decode and the debug log and the rest of the tick, as `Read` says |
| Sampler.Sampler.ShowLine | bojata.py:77-105 | the match, the conversions, the drawing and the scheduling, and the escapes, as `Show` says |
| Sampler.Sampler.PaintColor | bojata.py:89-105 | `curr_color`, the fill, the banner and the next tick, as `Paint` says |
| Sampler.Sampler.RecoverFromFault | bojata.py:107-111 | the except branch closes the port and schedules one retry, as `Recover` says |
| Form.TrimStart | bojata_gui.py:181 | the result is a suffix, everything removed is whitespace, and it does not start with whitespace |
| Form.TrimEnd | bojata_gui.py:181 | the result is a prefix, everything removed is whitespace, and it does not end in whitespace |
| Form.Strip | bojata_gui.py:181 | `strip()` gives a text with no whitespace at either end, empty exactly when the input is all whitespace |
| Form.StripParts | bojata_gui.py:181 | the input is whitespace, then the stripped text, then whitespace |
| Form.StripUnique | bojata_gui.py:181 | any split of a text into whitespace, a trimmed middle and whitespace has `strip()` as its middle |
| Form.StripIdempotent | bojata_gui.py:181 | stripping twice is stripping once |
| Form.Normalized | bojata_gui.py:181 | `v.strip() or None` is None exactly when the input is all whitespace, and otherwise the non-empty stripped text |
| Form.NormalizedMeaning | bojata_gui.py:181 | an input that is whitespace, a trimmed middle and whitespace is stored as that middle, or as NULL when the middle is empty |
| Form.NormalizedIdempotent | bojata_gui.py:181 | normalising a stored value again gives it back |
| Form.NormalizedExamples | bojata_gui.py:181 | `  Ana  ` is stored as `Ana`, and a blank entry as NULL |
| Form.NormalizeInputs | bojata_gui.py:180-183 | every input variable is kept, each with its normalised value |
| Form.FirstMissing | bojata_gui.py:187-190 | the position found is that of the first required field whose value is None; with no position, every required field has a value |
| Form.Validate | bojata_gui.py:180-192 | a form is complete if and only if no required field is blank; a complete form becomes a record of all the inputs, normalised, stamped with the clock reading; an incomplete one names a blank required field |
| Form.AuthorRequired | bojata_gui.py:186-190 | a form is complete if and only if the author entry is not blank, and otherwise the author is the field flagged |
| Form.ShownInputs | bojata_gui.py:116-171 | `reset_ui` builds every input variable: `hex` holds the colour, `location` DEFAULT_LOCATION, the others nothing |
| Form.ShownFormMissesAuthor | bojata_gui.py:186-190 | a form submitted as it is shown flags the author |
| Form.LocationStored | bojata_gui.py:163 | DEFAULT_LOCATION is stored as it is |
| Form.CategoryChoices | bojata_gui.py:148 | the menu's category entries are the values of the categories, one each, in declaration order |
| Form.FromLabel | bojata_db.py:11-22 | a category read back from a text has that text as its value |
| Form.CategoriesComplete | bojata_db.py:11-22 | every category is listed, and is read back from its own value (so distinct categories have distinct values) |
| Form.CategoryChoicesOrder | bojata_gui.py:148 | the menu lists the categories in declaration order, with their Serbian values |
| Form.DrawerChoices | bojata_gui.py:156 | the drawer menu offers exactly the numbers 1 to DRAWER_COUNT, in order |
| Form.DrawerChoicesExact | bojata_gui.py:156 | a number is offered if and only if it lies in 1..DRAWER_COUNT |
| Gui.RestartsOnlyAtHome | bojata_gui.py:54-57 | under the GUI a tick restarts the process if and only if HomeFrame is raised, the backlog is over the limit and `os.execv` does not fail |
| Gui.FindMissing | bojata_gui.py:187-190 | the loop over the required fields finds what `FirstMissing` specifies |
| Gui.Check | bojata_gui.py:180-190 | normalising the inputs and running the required-field loop yields `Validate`'s verdict |
| Gui.Root.constructor | bojata_gui.py:47 | the application starts on HomeFrame |
| Gui.Root.ShowFrame | bojata_gui.py:49-52 | the named frame becomes the current one |
| Gui.Root.RerunApp | bojata_gui.py:54-57 | `rerun_app` calls `os.execv` if and only if HomeFrame is current, in agreement with the strategy the sampler is given |
| Gui.Database.Persist | bojata_gui.py:193 | the record is appended and nothing else changes |
| Gui.ScanForm.constructor | bojata_gui.py:87-89 | a new scan frame has no inputs, no marked entry and no colour |
| Gui.ScanForm.OnShow | bojata_gui.py:91-96 | every input is rebuilt and unmarked; the current colour is captured, and shown in `hex` when Tk accepts it (otherwise `hex` stays empty); with no colour yet, the captured colour stays as it was |
| Gui.ScanForm.Open | bojata_gui.py:49-52 | `show_frame('ScanFrame')` from HomeFrame's scan button: ScanFrame becomes current and `on_show_frame` runs, with the effects `OnShow` states |
| Gui.ScanForm.Type | bojata_gui.py:134 | typing into a text entry changes that input alone |
| Gui.ScanForm.ChooseCategory | bojata_gui.py:149 | picking a category stores its value (or nothing for the blank entry) and changes no other input |
| Gui.ScanForm.ChooseDrawer | bojata_gui.py:157 | picking a drawer stores its number in decimal (or nothing for the blank entry) and changes no other input |
| Gui.ScanForm.Submit | bojata_gui.py:179-196 | a blank author is marked and nothing is stored and no frame changes; otherwise `Validate`'s record is appended, then "no" raises HomeFrame and "yes" escapes with the frame unchanged |
| Gui.ScanForm.Apply | bojata_gui.py:187-196 | the effects of a checked submission: marking the flagged entry, or storing the record and running the print prompt |
| Gui.ScanForm.Cancel | bojata_gui.py:198-199 | HomeFrame is raised and nothing is stored |

## Left out

- Color.Rescale: computes the exact floor of c·255/I. The source computes `int(c / total * 255)` in IEEE doubles, and the two can differ both ways. Rounding can land just below an integer, and the model is then one above. For c = 10^17−1 and I = 10^17 the quotient rounds to 1.0, so the source gives 255 and the model 254. Above 2^53 the operands themselves are rounded and the gap grows.
- Color.RescaleOverflows: takes the OverflowError at bojata.py:84-86 to happen exactly when c·255 ≥ 2^1024·I. Where the source's rounding lands near 2^1024 the two can disagree, as in `Color.Rescale`.
- RgbLine.ToSample: the 4300-digit limit is CPython's default. On an interpreter without it (3.8 before 3.8.14, and the matching 3.9 and 3.10 releases), and under a changed `sys.set_int_max_str_digits` or `PYTHONINTMAXSTRDIGITS`, `int()` accepts longer texts; the model does not cover that.
- Color.NormalizeWithIntensity: states the same exact floor as `Color.Rescale`, with the same difference from the double arithmetic.
- The model covers no Tk widgets, layout, fonts or canvas drawing. `Display` records what is drawn: the fill and the banner text. `create_outlined_text` and `BojataFrame`'s layout are not modelled.
- Printing is recorded only as a `StartPrinting` request: `start_printing`, CUPS, PIL, `generate_image`, `draw_swatch`, `swatch_bounds` and `print_prompt`'s dialog are left out. The prompt's answer is a parameter of `Gui.ScanForm.Submit`.
- A successful `os.execv` is the abstract `Restarted` outcome, and a failing one is `Env.execRaises`, caught by the except branch. What the new process does is outside the model.
- The serial hardware, `comports()` and the clock are parameters: `Sampler.Env` and `now`. SerialException and OSError are `Probe.Raises`.
- Logging is left out. The `in_waiting` read inside the debug log at bojata.py:76 can raise, and that is modelled as a fault.
- `init()` at bojata.py:154 and `main()` at bojata.py:194 are not modelled, including the first `serial_connect`. `Sampler.Sampler.constructor` starts from a closed port, and the first tick connects.
- `main()` at bojata_gui.py:226-232 is not modelled. It calls `bojata.init(frame_init=...)` at bojata_gui.py:229, but `init` takes `init_frame` (bojata.py:154-155), so `main` raises TypeError there and the monkey patch at bojata_gui.py:230 never runs as written. `Gui.Root.RerunApp` and `Gui.RerunStrategy` model the intended wiring, where `rerun_app` replaces the cleanup. The model starts from the state `init` would build.
- The Tk scheduler is a list of requests. `frame.after` delays are recorded as values and never elapse.
- Tk's event queue is not modelled. `event_generate` is taken to run the `<<ShowFrame>>` handler at once, so `Gui.ScanForm.Open` calls `Gui.Root.ShowFrame` and then `Gui.ScanForm.OnShow`. HomeFrame and ListFrame bind no handler.
- Tk colours are modelled only in their `#` hex form (`Color.TkColor`). `curr_color` always has that form, and colour names are left out. An exception that escapes `task` or `on_show_frame` is reported by Tk and ends only that callback. The model records this as the `Escaped` outcome, or as the state the handler had reached.
- `bojata_db`'s SQLAlchemy table, column types and session are not part of this model. `Gui.Database` is an append-only list of records.
- `ListFrame` is an unfinished placeholder in the source and has no behaviour to model.
- `\d` and `str.strip` are modelled on ASCII: ASCII digits, and whitespace 9..13 and 28..32. Other Unicode digits and spaces are not covered.
- `Sampler.Sampler.Task` and the other `Sampler.Sampler` methods, and the `Gui` class methods, state their new state through `old(...)`. Their properties are proved about `Sampler.Tick` and `Form.Validate`, which their contracts are tied to.
