# Luggage-analysis front end: the logic behind the screens

This project models the decision logic of a React front end for a video
analysis service in Dafny and proves properties of it. The front end shows
extracted video frames with detection boxes drawn over them, dashboards of
counts, an alert-email form and a question-answering chat panel. Everything
that is not a decision is left out: network calls, timers, canvas drawing and
the React lifecycle. Each piece that is modelled is an immutable record with
pure transition functions, or a pure function over strings, numbers and
sequences.

The modules follow the source files:

- `Common` (common.dfy): JavaScript behaviour the components rely on.
  - Truthiness of a loosely typed argument (`Value`).
  - The ECMAScript whitespace set used by `trim` and by the regular-expression class `\s`.
  - ASCII `toLowerCase`/`toUpperCase`, `trim` and `padStart`.
  - Decimal `toString` of integers.
  - The truncating `%` by 60.
  - A reader for `M:SS` clock strings. It is used only to state what the formatters' output means.
- `Clock` (clock.dfy): the zero-padded `MM:SS` rendering used by `formatDuration`.
- `Duration` (duration.dfy): `formatDuration`.
- `StatusBadge` (status.dfy): `getStatusColor`.
- `ColorNames` (colornames.dfy): `COLOR_NAME_TO_HEX` and `colorNameToHex`.
- `Contrast` (contrast.dfy): `getContrastingTextColor`.
- `VideoPlayer` (videoplayer.dfy): the frame player's state record.
  - The loader, with its two awaits taken as one step.
  - The screen priority: spinner, error, "no frames", player.
  - The playback transitions: timer tick, play/pause, rewind, fast-forward and slider.
- `Overlay` (overlay.dfy): what the draw effect paints.
  - The detections of the current frame.
  - The display size and the scale factors.
  - The scaled boxes, the font size and the colours.
- `EmailForm` (email.dfy): `validateEmail`, `handleSubmit` and `handleEmailChange`.
- `Chat` (chat.dfy): the transcript machine of `handleSend` and `handleKeyPress`.
- `Summary` (summary.dfy): the analysis `summary` record both dashboard charts are handed.
- `TimelineChart` (timeline.dfy): the timeline series and `formatTime`.
- `ColorDistribution` (colordist.dfy): the pie chart's slice mapping.

Choices that shape the model:

- A JavaScript argument of unknown type is a `Value`:
  - `Absent` stands for `undefined`/`null`;
  - `NonString` stands for any other non-string;
  - `Text(s)` is a string.
  - The empty string is falsy.
- Numbers that the source treats as floats (durations, box coordinates, sizes) are exact `real`s. Timestamps on the timeline are whole seconds (`int`).
- JavaScript's `%` truncates toward zero. It is written out explicitly, so a negative duration renders as the code renders it (`-30` gives `-1:-30`).
- The player's fetch results, the timer firing, button presses and image sizes are inputs. The query a chat send issues and the toasts are returned as outputs.

`getContrastingTextColor('not-a-color')` gives black text. The unknown name
resolves to the table's `unknown` gray `#808080` (`src/utils/helpers.js:67`),
whose weighted sum `128000` exceeds `127500`, so the luminance test picks
black; see `Contrast.UnknownNameGivesBlack`.

The player has one play/pause toggle (`handlePlayPause`) rather than separate
play and pause operations (`VideoPlayer.TogglePlay`). The slider is a range
input with bounds `0..n-1`, so the value it reports already lies within those
bounds; `VideoPlayer.SliderValue` models that sanitisation. The loader never
resets the playback position, so a reload with a shorter list can leave the
position past the end; the counter then reads beyond the total, nothing is
drawn, and the next timer firing brings the position back inside by the
remainder (`VideoPlayer.TickPastTheEnd`).

## Model

| member | source | states |
|---|---|---|
| Common.ToLower | src/utils/helpers.js:66 | `toLowerCase` keeps the length and maps each character to its lower-case form (ASCII letters) |
| Common.ToLowerKeepsLower | src/utils/helpers.js:66 | lower-casing a string with no capital letters changes nothing |
| Common.ToUpper | src/components/Dashboard/ColorDistribution.jsx:19 | `toUpperCase` keeps the length and maps each character to its upper-case form (ASCII letters) |
| Common.Trim | src/utils/helpers.js:66 | `trim` removes exactly the leading and trailing whitespace: the removed ends are all whitespace and the result is empty or starts and ends with non-whitespace |
| Common.TrimEmptyIffBlank | src/components/Chat/ChatBot.jsx:29 | a trimmed string is empty exactly when every character is whitespace |
| Common.TrimUnique | src/utils/helpers.js:66 | trimming a core padded with whitespace, whose ends are not whitespace, gives that core |
| Common.TrimIgnoresPadding | src/utils/helpers.js:66 | adding whitespace around a string does not change its trimmed form |
| Common.NatToDecimal | src/utils/helpers.js:5 | `toString` of a non-negative integer is a non-empty digit string with no leading zero; it has one digit below 10 and at most two below 100 |
| Common.IntToDecimal | src/components/Dashboard/AnalysisChart.jsx:10 | `toString` of any integer is never empty, starts with a minus sign exactly for a negative number, and is all digits for a non-negative one |
| Common.IntToDecimalReadsBack | src/components/Dashboard/AnalysisChart.jsx:10 | `toString` of an integer reads back as the number: a bare digit string for a non-negative one, a minus sign and the digits of its magnitude for a negative one |
| Common.ParseNatToDecimal | src/utils/helpers.js:5 | the decimal numeral of `n` reads back as `n` |
| Common.PadStart | src/utils/helpers.js:5 | `padStart(width, fill)` gives the longer of the string and the width, ends with the original string and is filled before it |
| Common.PadStartZeroParses | src/utils/helpers.js:5 | zero-padding a digit string keeps it a digit string with the same value |
| Common.JsRemainder60 | src/utils/helpers.js:4 | the truncating `% 60` on reals: for non-negative input it lies in `[0, 60)` and differs from the input by a whole multiple of 60; for negative input it lies in `(-60, 0]` and again differs from the input by a whole multiple of 60 |
| Common.JsIntRemainder60 | src/components/Dashboard/AnalysisChart.jsx:9 | the truncating `% 60` on integers: Euclidean remainder for non-negative input, and a value in `(-60, 0]` congruent to the input otherwise |
| Clock.PaddedFieldParses | src/utils/helpers.js:5 | a zero-padded seconds or minutes field reads back as its number |
| Clock.PaddedClockFields | src/utils/helpers.js:5 | the padded clock is the minutes numeral padded to at least two digits and never cut short, a colon, then exactly two digits of seconds |
| Clock.PaddedClockReadsBack | src/utils/helpers.js:3-5 | reading the padded clock back gives the minutes and seconds |
| Clock.PaddedClockOfZero | src/utils/helpers.js:2 | zero minutes and seconds are `00:00` |
| Clock.PaddedClockOfMinusThirty | src/utils/helpers.js:5 | negative fields keep their minus sign and are not padded: `-1`, `-30` give `-1:-30` |
| Duration.FormatDuration | src/utils/helpers.js:1-6 | a missing or zero duration (both falsy) is shown as `00:00` |
| Duration.WholeMinutes | src/utils/helpers.js:3 | `Math.floor(seconds / 60)` of a non-negative duration is `floor(s) / 60`, the whole minutes of its whole part |
| Duration.WholeSeconds | src/utils/helpers.js:4 | `Math.floor(seconds % 60)` of a non-negative duration is `floor(s) % 60`; of a negative one it lies in `-60..0` |
| Duration.FloorSplit | src/utils/helpers.js:3-4 | for non-negative `s`, the floored minutes and the floored remainder are `floor(s) / 60` and `floor(s) % 60` |
| Duration.FormatDurationIsClock | src/utils/helpers.js:1-6 | a non-negative duration, zero included, is shown as the padded clock of the minutes and seconds of its whole part |
| Duration.FormatDurationFields | src/utils/helpers.js:3-5 | the display is the full minutes numeral padded to two digits, a colon, and exactly two digits of seconds |
| Duration.FormatDurationReadsBack | src/utils/helpers.js:3-4 | read back, the display gives seconds below 60, and minutes times 60 plus seconds equals `floor(s)` |
| Duration.FormatDurationNegative | src/utils/helpers.js:3-5 | negative durations are not guarded: `-30` is shown as `-1:-30` |
| StatusBadge.StatusColor | src/utils/helpers.js:14-25 | `completed`, `processing` and `failed` get their own class strings, each exactly for that status; every other value, non-strings included, gets the gray default |
| ColorNames.ColorTable | src/utils/helpers.js:38-54 | every table entry is `#` and six hex digits; `unknown` is `#808080` |
| ColorNames.LookupOrGray | src/utils/helpers.js:67 | a key in the table gives its entry, any other key the `unknown` gray; the result is always a table entry |
| ColorNames.NormalizeName | src/utils/helpers.js:66 | the lookup key has no capital letter, does not begin or end with whitespace, and is no longer than the name |
| ColorNames.ColorNameToHex | src/utils/helpers.js:61-68 | the result is always a table entry in `#RRGGBB` form; missing, empty, non-string and unrecognised names give `#808080`; a recognised name gives its entry after lower-casing and trimming |
| ColorNames.NormalizePaddedRed | src/utils/helpers.js:66 | `' Red '` is looked up under `red` |
| ColorNames.NormalizePlainName | src/utils/helpers.js:66 | a lower-case name without surrounding whitespace is its own key |
| ColorNames.PaddedRedIsRed | src/utils/helpers.js:61-68 | `' Red '` resolves to `#FF0000` |
| ColorNames.WhiteNameResolves | src/utils/helpers.js:61-68 | `white` resolves to `#FFFFFF` |
| ColorNames.UnknownNameResolves | src/utils/helpers.js:67 | `not-a-color` resolves to the `unknown` gray |
| ColorNames.UnrecognisedNameIsGray | src/utils/helpers.js:67 | a name missing from the table resolves to gray |
| ColorNames.ColorNameCaseInsensitive | src/utils/helpers.js:66 | a name, its lower-case form and its upper-case form (ASCII letters) resolve to the same colour |
| ColorNames.ColorNamePaddingIgnored | src/utils/helpers.js:66 | whitespace around a name does not change the colour it resolves to |
| Contrast.HexByte | src/utils/helpers.js:100-102 | two hex digits read as a byte below 256 |
| Contrast.RemoveFirstHash | src/utils/helpers.js:92 | `replace('#', '')` removes only the first `#`: a leading `#` is dropped and a string without `#` is unchanged |
| Contrast.ContrastingTextColor | src/utils/helpers.js:75-109 | the result is black or white; missing, empty and non-string input gives white; a `#` code gives black exactly when the rest is six hex digits and `299r+587g+114b > 127500`; a name gives black exactly when its resolved code passes that test |
| Contrast.LuminanceThreshold | src/utils/helpers.js:105-108 | `(0.299r + 0.587g + 0.114b)/255 > 0.5` over exact reals is the integer test `299r+587g+114b > 127500` |
| Contrast.IsLight | src/utils/helpers.js:105-108 | a six-digit code counts as light exactly when its weighted luminance `(0.299r + 0.587g + 0.114b) / 255` exceeds 0.5 |
| Contrast.NamedColorAlwaysValid | src/utils/helpers.js:87-97 | a colour name always resolves to six hex digits, so the named path never reaches the malformed-colour fallback |
| Contrast.WhiteCodeGivesBlack | src/utils/helpers.js:100-108 | `#FFFFFF` gets black text |
| Contrast.BlackCodeGivesWhite | src/utils/helpers.js:100-108 | `#000000` gets white text |
| Contrast.RedCodeGivesWhite | src/utils/helpers.js:100-108 | `#FF0000` (weighted sum 76245) gets white text |
| Contrast.ShortCodeGivesWhite | src/utils/helpers.js:95-97 | a five-digit code such as `#12345` gets white text |
| Contrast.NamedLightGivesBlack | src/utils/helpers.js:86-89 | a name that resolves to a light code gets black text |
| Contrast.WhiteNameGivesBlack | src/utils/helpers.js:86-108 | the name `white` gets black text |
| Contrast.UnknownNameGivesBlack | src/utils/helpers.js:86-108 | an unrecognised name gets black text, because the gray it resolves to is light |
| VideoPlayer.Initial | src/components/Analysis/VideoPlayer.jsx:9-15 | the player mounts loading, with no frames, no detections, no error, position 0, paused, at 2 fps |
| VideoPlayer.FpsOrDefault | src/components/Analysis/VideoPlayer.jsx:25 | a missing or zero frame rate becomes 2, any other is kept; the result is never zero |
| VideoPlayer.Load | src/components/Analysis/VideoPlayer.jsx:19-43 | loading always ends. A throwing frames fetch stores only the fixed message. Otherwise the frames list, or the empty list, is stored with its rate. A throwing detections fetch then sets the message and keeps the old detections; a returning one stores its list or the empty list and leaves the error as it was. The position and the play flag are untouched |
| VideoPlayer.Render | src/components/Analysis/VideoPlayer.jsx:156-185 | the spinner exactly while loading, else the error exactly when a message is set, else "no frames" exactly for an empty list, else the player whose counter reads `index + 1` of `n` |
| VideoPlayer.CurrentFrame | src/components/Analysis/VideoPlayer.jsx:133-137 | the frame handed to the draw routine exists exactly when there are frames and the position is inside the list, and it is the frame at the position |
| VideoPlayer.TimerPeriod | src/components/Analysis/VideoPlayer.jsx:139-146 | an interval exists exactly while playing with frames, and its period times the frame rate is 1000 ms |
| VideoPlayer.Remainder | src/components/Analysis/VideoPlayer.jsx:142 | the remainder by the frame count is below the count and leaves smaller values alone |
| VideoPlayer.RemainderIsMod | src/components/Analysis/VideoPlayer.jsx:142 | that remainder is `a % n` |
| VideoPlayer.Tick | src/components/Analysis/VideoPlayer.jsx:141-143 | a firing moves the position to `(index + 1) % n`: the next frame, the last wrapping to the first, and a position past the end of the list brought back inside; nothing else changes |
| VideoPlayer.TickPastTheEnd | src/components/Analysis/VideoPlayer.jsx:142 | with the position left at 7 on a three-frame list, the counter reads beyond the total and the next firing goes to position 2 |
| VideoPlayer.TogglePlay | src/components/Analysis/VideoPlayer.jsx:148-150 | play/pause flips the play flag and changes nothing else |
| VideoPlayer.Rewind | src/components/Analysis/VideoPlayer.jsx:206 | rewind moves to the first frame and changes nothing else |
| VideoPlayer.FastForward | src/components/Analysis/VideoPlayer.jsx:222 | fast-forward moves to the last frame and changes nothing else |
| VideoPlayer.SliderValue | src/components/Analysis/VideoPlayer.jsx:190-194 | the range input reports a value in `0..n-1`: the requested value when in range, else the nearer bound |
| VideoPlayer.Seek | src/components/Analysis/VideoPlayer.jsx:152-154 | moving the slider puts the position inside the list, at the requested frame when that is in range, and changes nothing else |
| VideoPlayer.TransitionsKeepValid | src/components/Analysis/VideoPlayer.jsx:25 | no transition makes the frame rate zero |
| VideoPlayer.ControlsKeepFrameDrawn | src/components/Analysis/VideoPlayer.jsx:134 | after rewind, fast-forward, a slider move or a tick the position names a frame, so one is drawn; after a slider move the counter reads between 1 and `n` |
| VideoPlayer.ToggleTwice | src/components/Analysis/VideoPlayer.jsx:148-150 | pressing play/pause twice restores the state |
| VideoPlayer.Ticks | src/components/Analysis/VideoPlayer.jsx:142 | a run of firings keeps the frames, the play flag and a non-zero rate |
| VideoPlayer.TicksCompose | src/components/Analysis/VideoPlayer.jsx:142 | `a` firings followed by `b` firings are `a + b` firings |
| VideoPlayer.TicksAdvance | src/components/Analysis/VideoPlayer.jsx:142 | firings that stay inside the list advance the position by their number |
| VideoPlayer.TicksWrap | src/components/Analysis/VideoPlayer.jsx:142 | one firing per remaining frame returns to the first frame |
| VideoPlayer.TicksFrom | src/components/Analysis/VideoPlayer.jsx:142 | further firings continue from where an earlier run stopped |
| VideoPlayer.PlaybackLoops | src/components/Analysis/VideoPlayer.jsx:142 | `n` firings bring any in-range position back to itself |
| VideoPlayer.LoadedView | src/components/Analysis/VideoPlayer.jsx:19-43 | after loading from mount, the error screen shows the fixed message exactly when a fetch threw; with both fetches returned, "no frames" shows exactly for an empty list; the player starts at frame 1 |
| VideoPlayer.WrapExample | src/components/Analysis/VideoPlayer.jsx:142 | on five frames a firing at position 4 goes to 0 |
| VideoPlayer.SeekExamples | src/components/Analysis/VideoPlayer.jsx:193 | on ten frames a request for -3 gives 0 and one for 999 gives 9 |
| Overlay.FrameDetections | src/components/Analysis/VideoPlayer.jsx:96 | the selected detections are exactly those of the list with the frame's number |
| Overlay.FrameDetectionsConcat | src/components/Analysis/VideoPlayer.jsx:96 | selection distributes over concatenation, so the original order is kept |
| Overlay.FrameDetectionsAllMatch | src/components/Analysis/VideoPlayer.jsx:96 | a list of the frame's own detections is kept whole |
| Overlay.FrameDetectionsIdempotent | src/components/Analysis/VideoPlayer.jsx:96 | selecting twice is selecting once |
| Overlay.SelectDetections | src/components/Analysis/VideoPlayer.jsx:96 | the one-pass filter loop computes the same selection |
| Overlay.Min | src/components/Analysis/VideoPlayer.jsx:82 | `Math.min` is one of its arguments and no larger than either |
| Overlay.DisplayGeometry | src/components/Analysis/VideoPlayer.jsx:78-91 | the display width is the smaller of the image and container widths; the aspect ratio is kept; both axes share one scale factor in `[0, 1]`, equal to 1 exactly when the image fits; display size = factor × natural size |
| Overlay.ScaleBoxRoundTrip | src/components/Analysis/VideoPlayer.jsx:103-106 | with positive factors the detection's corners are recovered from its scaled box |
| Overlay.ScaledBoxInsideDisplay | src/components/Analysis/VideoPlayer.jsx:103-106 | a detection inside the image gives a box of non-negative size inside the canvas |
| Overlay.ScaleBox | src/components/Analysis/VideoPlayer.jsx:103-106 | the box starts at the detection's first corner times the scale factors and ends at its second corner times them; a well-ordered detection at a non-negative scale gives a box of non-negative size |
| Overlay.FontSize | src/components/Analysis/VideoPlayer.jsx:113 | the font size is between 10 and 14; it is a sixtieth of the width for widths 600–840, 10 below and 14 above |
| Overlay.BoxColor | src/components/Analysis/VideoPlayer.jsx:98 | a missing or empty colour is `#FF0000`, any other is kept |
| Overlay.Paint | src/components/Analysis/VideoPlayer.jsx:98-124 | one detection's overlay: its scaled box, its box colour (never empty), a label colour that is the contrasting text colour of the box colour (black or white), the font size of the display width (10 to 14), and its class and confidence unchanged |
| Overlay.Overlays | src/components/Analysis/VideoPlayer.jsx:96-124 | one overlay per selected detection, in order, with its scaled box, its colour, its class and confidence, a label colour that is the contrasting text colour of its box colour (always black or white), and the font size of the display width (between 10 and 14) |
| Overlay.Draw | src/components/Analysis/VideoPlayer.jsx:45-137 | something is drawn exactly when the player view (which holds the canvas and its container) is on screen and a frame is current; then it is the display geometry of the image and the overlays of that frame's detections |
| Overlay.NoDrawOnErrorScreen | src/components/Analysis/VideoPlayer.jsx:47 | when the frames load but the detections fetch throws, a frame is current yet the error screen is up and nothing is drawn |
| Overlay.LoadedSession | src/components/Analysis/VideoPlayer.jsx:19-43 | three frames at 5 fps with detections on the first and last: the player shows frame 1 of 3 with the first detection, fast-forward shows frame 3 of 3 with the second, and a tick wraps to the first |
| EmailForm.ValidateEmail | src/pages/EmailInput.jsx:14-17 | the scanning test accepts exactly the strings the pattern `^[^\s@]+@[^\s@]+\.[^\s@]+$` matches: no whitespace, exactly one `@` with a non-empty part before it, and a domain with a `.` that is neither first nor last |
| EmailForm.ValidateMatchesPattern | src/pages/EmailInput.jsx:15 | the scanning test and the pattern accept the same strings, both directions |
| EmailForm.EmailPattern | src/pages/EmailInput.jsx:15 | a match of the pattern is at least five characters long and holds an `@` and a `.` |
| EmailForm.ScanGivesPattern | src/pages/EmailInput.jsx:15 | an address that passes the scan has a match of the pattern |
| EmailForm.PatternGivesScan | src/pages/EmailInput.jsx:15 | a match of the pattern passes the scan at the first `@` |
| EmailForm.PatternHasAt | src/pages/EmailInput.jsx:15 | a match contains an `@` |
| EmailForm.PatternAtIsFirst | src/pages/EmailInput.jsx:15 | the `@` of a match is the first `@` |
| EmailForm.PatternDomain | src/pages/EmailInput.jsx:15 | after the `@` of a match there is no whitespace or `@`, and there is an inner `.` |
| EmailForm.AcceptsPlainAddress | src/pages/EmailInput.jsx:15 | `user@example.com` is accepted |
| EmailForm.RejectsDotlessDomain | src/pages/EmailInput.jsx:15 | `user@example` is rejected |
| EmailForm.RejectsSpace | src/pages/EmailInput.jsx:15 | `a b@c.de` is rejected |
| EmailForm.RejectsSecondAt | src/pages/EmailInput.jsx:15 | `a@b@c.de` is rejected |
| EmailForm.InitialForm | src/pages/EmailInput.jsx:11-12 | the form mounts empty and shown valid |
| EmailForm.HandleSubmit | src/pages/EmailInput.jsx:19-40 | the text never changes. An empty field gets "Please enter your email address" and is marked invalid. A non-matching address gets "Please enter a valid email address" and is marked invalid. A matching address is stored under `alertEmail` with a success toast and navigation to `/upload`, exactly then |
| EmailForm.HandleEmailChange | src/pages/EmailInput.jsx:42-45 | editing sets the text to the new value and shows the field valid |
| EmailForm.EditThenSubmit | src/pages/EmailInput.jsx:42-45 | typing clears an invalid mark, and the next submit depends on the new text alone |
| EmailForm.SubmitTwice | src/pages/EmailInput.jsx:19-40 | a second submit gives the same outcome as the first |
| EmailForm.SubmitEmptyForm | src/pages/EmailInput.jsx:22-26 | the handler, called on the untouched form, asks for an address and marks the field invalid |
| Chat.InitialChat | src/components/Chat/ChatBot.jsx:9-17 | the panel mounts with the greeting alone, an empty field and no reply awaited |
| Chat.SetInput | src/components/Chat/ChatBot.jsx:155 | typing sets the field and nothing else |
| Chat.Send | src/components/Chat/ChatBot.jsx:28-42 | no query is sent exactly when the field is all whitespace, and then nothing changes; otherwise one user message with the untrimmed text is appended, the field is cleared, loading starts, and the query is that same text |
| Chat.Receive | src/components/Chat/ChatBot.jsx:41-62 | exactly one bot message is appended after the old transcript: the answer with its supporting data when the response has any, or the fixed apology with an error toast; loading ends and the field is untouched |
| Chat.KeyPress | src/components/Chat/ChatBot.jsx:65-70 | Enter without Shift sends; any other key, and Shift+Enter, change nothing |
| Chat.ClickSend | src/components/Chat/ChatBot.jsx:163 | the button sends exactly when no reply is awaited and the field is not blank |
| Chat.Step | src/components/Chat/ChatBot.jsx:37-59 | an event appends at most one message and keeps the old transcript as a prefix |
| Chat.RunAppendsOnly | src/components/Chat/ChatBot.jsx:37-59 | over any run of events the transcript only grows by appending, at most one message per event |
| Chat.GreetingStaysFirst | src/components/Chat/ChatBot.jsx:9-15 | whatever happens, the greeting stays the first message |
| Chat.AskAndAnswer | src/components/Chat/ChatBot.jsx:28-51 | typing a question, pressing Enter and receiving the answer leaves greeting, question and answer, with an empty field and loading over; a blank question sends nothing |
| TimelineChart.ChartData | src/components/Dashboard/AnalysisChart.jsx:5 | no record or no series gives an empty series, otherwise the series itself |
| TimelineChart.ChartDataReadsOnlyTimeline | src/components/Dashboard/AnalysisChart.jsx:5 | a corollary of the `ChartData` contract, kept as a note: two records with the same series give the same chart data, whatever colour counts they hold |
| TimelineChart.FormatTime | src/components/Dashboard/AnalysisChart.jsx:7-11 | for a non-negative time the label reads back as `s / 60` minutes and `s % 60` seconds |
| TimelineChart.MinutesSecondsReadBack | src/components/Dashboard/AnalysisChart.jsx:8-10 | an unpadded minutes numeral, a colon and padded seconds read back as the two numbers |
| TimelineChart.FormatTimeFields | src/components/Dashboard/AnalysisChart.jsx:8-10 | the minutes are the unpadded numeral of `s / 60`, then a colon, then exactly two digits; minutes × 60 + seconds = `s` |
| TimelineChart.FormatTimeNinety | src/components/Dashboard/AnalysisChart.jsx:7-11 | 90 s is `1:30` |
| TimelineChart.FormatTimeHour | src/components/Dashboard/AnalysisChart.jsx:7-11 | 3660 s is `61:00`: minutes are not wrapped into hours |
| TimelineChart.FormatTimeNegative | src/components/Dashboard/AnalysisChart.jsx:7-11 | -30 s is `-1:-30` |
| TimelineChart.TooltipLabel | src/components/Dashboard/AnalysisChart.jsx:26 | the tooltip starts with `Time: ` and the rest reads back as the minutes and seconds |
| ColorDistribution.SliceTable | src/components/Dashboard/ColorDistribution.jsx:5-16 | every entry of the pie's colour table is a `#RRGGBB` code |
| ColorDistribution.SliceColor | src/components/Dashboard/ColorDistribution.jsx:21 | a key in the table gets its entry, any other key `#9ca3af`; the result is always a hex code |
| ColorDistribution.Capitalize | src/components/Dashboard/ColorDistribution.jsx:19 | the name has the key's length, its first character upper-cased and the rest unchanged |
| ColorDistribution.CapitalizeLowerRoundTrip | src/components/Dashboard/ColorDistribution.jsx:19 | a lower-case key is recovered by lower-casing its name |
| ColorDistribution.SliceOf | src/components/Dashboard/ColorDistribution.jsx:18-22 | one entry's slice: a name as long as the key, the count unchanged, and a fill that is always a `#RRGGBB` code |
| ColorDistribution.ChartData | src/components/Dashboard/ColorDistribution.jsx:18-22 | no record or no distribution gives no slices; otherwise one slice per entry, in entry order, with the capitalised key, the count unchanged and the key's colour, always a hex code |
| ColorDistribution.LookupIsCaseSensitive | src/components/Dashboard/ColorDistribution.jsx:19-21 | `red` is filled red and `Red` neutral gray, though both are named `Red` |
| ColorDistribution.ChartDataConcat | src/components/Dashboard/ColorDistribution.jsx:18-22 | splitting the entries splits the slices the same way, whatever the timeline beside them |

## Left out

- Network and service layer: the `videoService` calls are inputs (a value or a failure). This covers the image fetch with its extra header, the blob and object-URL handling, the fallback image source and the image's `onerror` message.
- Canvas output: `drawImage`, `strokeRect`, `fillRect`, `measureText`, `fillText`, the line width, and the label placement above the box. Only the values that feed them are modelled. The canvas's own truncation of `width`/`height` to integers is not modelled.
- Timers and effect lifecycles: interval setup and teardown, effect dependencies, scrolling the chat to the bottom. A tick is one pure step.
- The label text `object_class (confidence%)` uses `toFixed(1)`; floating-point formatting is not modelled.
- `formatFileSize` and the locale-dependent `formatDateTime` from the shared helpers: floating-point logarithms and locale output.
- Message ids from `Date.now()` in the chat panel.
- Pure presentation: headers, layout, routing, alerts, spinners, animations, and the slider's background gradient.
- Unicode case mapping: `toLowerCase`/`toUpperCase` are modelled on ASCII letters only. Multi-character mappings such as `ß` to `SS` are not modelled.
- JavaScript object-prototype lookups: keys such as `constructor` in the two colour tables are treated as missing.
- The order of `Object.entries` is taken as given. JavaScript lists integer-like keys first, which colour names are not.
- NaN and the infinities are not modelled. A zero image size is excluded, because a loaded image has a positive natural size.
- Contrast.ContrastingTextColor: the luminance test is read over exact reals. Floating-point rounding of sums within rounding distance of `127500` is not modelled.
- Duration.FormatDuration: durations are exact reals, so floating-point rounding in `seconds / 60` and `seconds % 60` is not modelled.
- VideoPlayer.Seek: `parseInt` of the range input's value is taken to give back the integer the input reports.
- Overlay.Draw: the image's natural size and the container width are inputs.
- Chat.Send: a send while a reply is awaited cannot come from the disabled input, so its interleaving with the pending reply is not modelled.
- EmailForm.HandleSubmit: the browser's own constraint validation of the `required`, `type="email"` field is not modelled. It can block the submit event before the handler runs, so an empty field then gets no toast and no change to the valid mark. Browsers also strip line breaks and surrounding whitespace from such a field's value. The model is the handler as called.
- Common.NatToDecimal: numerals are exact decimals. JavaScript writes numbers from `1e21` up in exponent form (`1e+21`), and integers above 2^53 are not exact.
- TimelineChart.FormatTime: timestamps are taken to be whole seconds. A fractional timestamp would show a fractional seconds field, because `seconds % 60` is not floored (12.5 s gives `0:12.5`).
- Overlay.Draw: the image loads asynchronously; a view change between the fetch and the image's load is not modelled.
- VideoPlayer.TimerPeriod: the period is the delay handed to `setInterval`. Browsers treat a negative delay as 0, and a negative rate survives `|| 2`. They also raise very short delays to a minimum. Neither is modelled.
