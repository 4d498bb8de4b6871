# Color Clock screensaver: a Dafny model

Color Clock is a Windows screensaver. It fills every monitor with a radial
gradient whose colour encodes the time of day and draws the time and the
colour's hex code on top. This project models its core in Dafny 4.11 and
proves properties of it:

- **The colour pipeline** (`Extensions` in MainForm.cs), in `colors.dfy`:
  - `ToColor` maps hour, minute and second onto the red, green and blue
    channels.
  - `ToHex` writes a colour as "RRGGBB".
  - `Luma` and `IsLight` choose black or white text.
  - `DarkerVersion` gives the gradient's outer colour.

  The source computes these in floating point. Each is modelled over
  integers with the same results:
  - floor(255·h/23) is `(255 * h) / 23`;
  - truncating c·0.6f is `(6 * c) / 10`;
  - luma ≥ 0.6 is a comparison of the ITU-R BT.709 weights scaled to
    integers. A lemma proves the clock never shows a colour whose luma is
    exactly 0.6, the only colours where float rounding could decide the
    answer.
- **Exit on input** (`MainForm_KeyDown`, `MainForm_Click`,
  `MainForm_MouseMove`), in `exit_on_input.dfy`:
  - A full-screen form asks to exit on any key, any click, and any pointer
    move of more than 20 pixels on either axis from the first position it
    saw. `int.MaxValue` marks that no position has been recorded yet.
  - A preview form never asks to exit.
  - The class `MainForm` keeps the source's two fields. Its handlers are
    proved against the specification function `Step`. Lemmas about `Run`
    describe whole event sequences.
- **Launch-mode dispatch** (`Program.Main`), in `launch_mode.dfy`:
  - The first argument is lower-cased, trimmed and cut to two characters.
  - "/p" selects the preview inside the window whose handle is the second
    argument, parsed by `long.Parse`.
  - "/c" selects the configuration message.
  - Anything else, or no argument at all, shows the screensaver.
  - The code does not fall back to full-screen on malformed arguments. It
    throws in three cases, and the model returns an error for each:
    - `Substring(0, 2)` on a flag that is too short;
    - `args[1]` when the handle is missing;
    - `long.Parse` on a handle that is not a number or does not fit in
      64 bits.
  - `ToLower` (ASCII letters), `Trim` (the `char.IsWhiteSpace` set) and
    `long.Parse` (`NumberStyles.Integer`) are modelled explicitly.

`common.dfy` holds the `Option` and `Result` types.

## Model

| member | source | states |
|---|---|---|
| Colors.ToColor | MainForm.cs:162-168 | each channel is the largest byte c with max·c ≤ 255·part (max 23 for the hour, 59 for minute and second), i.e. floor(255·part/max) |
| Colors.TimeOfToColor | MainForm.cs:162-168 | the colour of a time determines it: reading the time back from the channels recovers hour, minute and second |
| Colors.ToColorInjective | MainForm.cs:162-168 | distinct times give distinct colours |
| Colors.ToColorExtremes | MainForm.cs:162-168 | 00:00:00 is black and 23:59:59 is white |
| Colors.ToColorMonotone | MainForm.cs:162-168 | each channel grows strictly with its own part of the time and is unaffected by the others |
| Colors.X2 | MainForm.cs:172-174 | the "X2" format: exactly two upper-case hex digits, whose values are the byte's high and low nibble |
| Colors.ToHex | MainForm.cs:170-176 | six upper-case hex digits; characters 0-1, 2-3 and 4-5 are the X2 forms of red, green and blue |
| Colors.FromHexToHex | MainForm.cs:170-176 | decoding the hex code recovers the colour |
| Colors.ToHexFromHex | MainForm.cs:170-176 | every six-digit upper-case code is the code of the colour it decodes to |
| Colors.ToHexInjective | MainForm.cs:170-176 | distinct colours have distinct codes |
| Colors.ToHexExample | MainForm.cs:170-176 | (255, 0, 128) is written "FF0080" |
| Colors.Luma | MainForm.cs:178-182 | luma lies between 0 and 1 (scaled), is 0 exactly for black and 1 exactly for white |
| Colors.IsLight | MainForm.cs:184-186 | green decides most of it: a colour with green of 214 or more is light, and a light colour has green of at least 113 |
| Colors.IsLightExtremes | MainForm.cs:184-186 | white is light, black is not |
| Colors.IsLightThreshold | MainForm.cs:184-186 | the threshold 0.6 is inclusive: (37, 200, 29), of luma exactly 0.6, is light; (37, 200, 28) is not |
| Colors.TieChannels | MainForm.cs:178-182 | on a colour of luma exactly 0.6, the red channel determines green and blue |
| Colors.ClockColorNeverTies | MainForm.cs:162-186 | no time's colour has luma exactly 0.6, so the black/white choice never depends on rounding at the threshold |
| Colors.IsLightPrimaries | MainForm.cs:178-186 | pure green is light, pure red is not |
| Colors.IsLightMonotone | MainForm.cs:178-186 | raising channels never turns a light colour dark |
| Colors.DarkerVersion | MainForm.cs:188-193 | each channel is the largest byte d with 10·d ≤ 6·c, i.e. c·0.6 truncated |
| Colors.DarkerVersionDarkens | MainForm.cs:188-193 | no channel of the darker colour is brighter, and the colour is its own darker version exactly when it is black |
| Colors.DarkerVersionMonotone | MainForm.cs:188-193 | darkening keeps the channel-wise order of two colours |
| Colors.DarkerVersionOfDarkIsDark | MainForm.cs:178-193 | the darker version of a colour that is not light is not light |
| Colors.DarkerVersionExample | MainForm.cs:188-193 | (200, 100, 50) darkens to (120, 60, 30), white to (153, 153, 153), (1, 1, 1) to black |
| ExitOnInput.Step | MainForm.cs:77-110 | one event: the preview flag never changes; in preview nothing changes and nothing exits; keys and clicks exit in full screen; the first move records the baseline and does not exit; a recorded baseline never changes; the baseline stays unset or a real position |
| ExitOnInput.PreviewRunIsInert | MainForm.cs:77-110 | in preview mode no event sequence changes the state or requests exit |
| ExitOnInput.SettledRun | MainForm.cs:77-110 | once the baseline is recorded it never changes, and each event exits exactly when it is a key, a click, or a move more than 20 pixels from the baseline on some axis |
| ExitOnInput.FirstMoveSetsBaseline | MainForm.cs:94-110 | on a fresh full-screen form the first move becomes the baseline and does not exit; every later event exits exactly as from that baseline |
| ExitOnInput.ToleranceIsStrict | MainForm.cs:107-109 | 20 pixels on both axes is tolerated; 21 on one axis exits |
| ExitOnInput.MainForm.FullScreen | MainForm.cs:32-36 | a full-screen form starts out of preview mode with no baseline |
| ExitOnInput.MainForm.Preview | MainForm.cs:40-58 | a preview form starts in preview mode with no baseline |
| ExitOnInput.MainForm.KeyDown | MainForm.cs:77-82 | exit is requested exactly when not in preview mode, and the state is unchanged, as Step says |
| ExitOnInput.MainForm.Click | MainForm.cs:84-89 | exit is requested exactly when not in preview mode, and the state is unchanged, as Step says |
| ExitOnInput.MainForm.MouseMove | MainForm.cs:96-110 | new state and exit request are those of Step on the old state, and the baseline stays unset or a real position |
| LaunchMode.ToLower | Program.cs:11 | same length; no upper-case letter is left; every upper-case letter becomes its lower-case letter and every other character is kept |
| LaunchMode.ToLowerOfLower | Program.cs:11 | text without upper-case letters is unchanged |
| LaunchMode.ToLowerIdempotent | Program.cs:11 | lowering twice is lowering once |
| LaunchMode.ToLowerAppend | Program.cs:11 | lowering distributes over concatenation |
| LaunchMode.ToLowerKeepsSpace | Program.cs:11 | white space is unchanged by lowering |
| LaunchMode.Trim | Program.cs:11 | nothing is left exactly when the text is all white space; otherwise the result starts and ends with non-white-space characters |
| LaunchMode.TrimIgnoresPadding | Program.cs:11 | white space added at either end does not change the trimmed text |
| LaunchMode.ParseLong | Program.cs:18 | only the two `long.Parse` exceptions can be raised; the text is rejected as not a number exactly when, once trimmed, it is not an optional sign followed by one or more digits; a negative result was written with '-' |
| LaunchMode.ParseLongDecimal | Program.cs:17-18 | an optional '-' and the decimal digits of v parse to ±v when it fits in 64 bits and overflow otherwise |
| LaunchMode.ParseLongFormatLong | Program.cs:17-18 | every 64-bit handle written in decimal parses back to itself |
| LaunchMode.ParseLongOutOfRange | Program.cs:17-18 | decimal values beyond the 64-bit range, of either sign, raise the overflow error |
| LaunchMode.ParseLongAcceptsPaddingAndSign | Program.cs:17-18 | " +42 " parses to 42 |
| LaunchMode.ParseLongRejects | Program.cs:17-18 | "", "0x1F" and "- 3" are not numbers |
| LaunchMode.Flag | Program.cs:11 | the flag is two characters, the first not white space, with no upper-case letter; there is none exactly when the lowered, trimmed argument is shorter than two characters |
| LaunchMode.SelectMode | Program.cs:8-39 | full screen exactly when there is no argument or the flag is neither "/p" nor "/c"; configure exactly for "/c"; preview exactly for "/p" with a second argument that parses; an error exactly when the flag is too short or "/p" lacks a parsable handle; the preview carries the handle `long.Parse` reads from the second argument; the flag error exactly for a too-short flag, the missing-handle error exactly for a lone "/p", and a failed parse's own error otherwise |
| LaunchMode.FlagIgnoresCaseAndPadding | Program.cs:11 | arguments equal up to case and surrounding white space give the same flag |
| LaunchMode.SelectModeIgnoresCaseAndPadding | Program.cs:8-13 | the mode does not depend on the case of the first argument or white space around it |
| LaunchMode.FlagIgnoresSuffix | Program.cs:11 | only the first two characters count: "/c" followed by anything is "/c" |
| LaunchMode.SelectModeIgnoresFlagSuffix | Program.cs:8-13 | the mode does not depend on what follows the two flag characters |
| LaunchMode.SelectModePreviewHandle | Program.cs:13-18 | "/p" with any 64-bit handle written in decimal selects the preview of exactly that handle |
| LaunchMode.SelectModePaddedHandle | Program.cs:13-18 | "/p" with the handle " +42 " selects the preview of window 42 |
| LaunchMode.FlagOfPlain | Program.cs:11 | a two-character, lower-case, unpadded argument is its own flag |
| LaunchMode.FlagUpperCase | Program.cs:11 | "/P" gives the flag "/p" |
| LaunchMode.FlagPaddedWithSuffix | Program.cs:11 | "  /c:123" gives the flag "/c" |
| LaunchMode.FlagTooShortExample | Program.cs:11 | " /" has no flag: one character is left after trimming |
| LaunchMode.SelectModeFullScreenExamples | Program.cs:8-39 | no argument, and "/s", show the screensaver |
| LaunchMode.SelectModePreviewAndConfigureExamples | Program.cs:8-39 | ["/P", "42"] is the preview of window 42; "  /c:123" is configure |
| LaunchMode.SelectModeErrorExamples | Program.cs:8-39 | " /", "/p" alone and "/p abc" each raise their error |

## Left out

- Drawing is not modelled: `MainForm_Paint`, `MainForm_Shown`, the 60 FPS
  timer, fonts, the gradient geometry and the "HH:mm:ss" time text. The
  model covers the colours they use (ToColor, DarkerVersion, IsLight, ToHex).
- `DateTime.Now` is a parameter (`TimeSample`). Milliseconds and the date
  do not affect the colour in the source either.
- Win32 calls are not modelled: `SetParent`, `SetWindowLong`,
  `GetWindowLong`, `GetClientRect`, `Cursor.Hide` and the form bounds. They
  have no effect on the exit logic.
- `Application.Exit()` is the `exit` result of each handler.
  `Application.Run` and the message loop are not modelled.
- `MessageBox.Show` for "/c" becomes the `Configure` mode.
- `ShowScreensaver` is not modelled beyond `MainForm.FullScreen`. It loops
  over `Screen.AllScreens`, creating one full-screen form per monitor, and
  the monitor list is I/O.
- The designer-only parameterless `MainForm()` constructor is not modelled.
- LaunchMode.ToLower lowers only A-Z. The culture-dependent mappings of
  other letters are not modelled, including the Turkish dotted and dotless
  I. No other character lowers to '/', 'p' or 'c', so the recognised flags
  are unaffected.
- LaunchMode.Flag counts Unicode scalar values, while .NET counts UTF-16
  code units. An argument that trims to a single character outside the
  Basic Multilingual Plane is too short here but not in the source.
- LaunchMode.ParseLong does not accept trailing NUL characters. It also
  uses the invariant culture's '+' and '-' signs.
- `new IntPtr(long)` is not modelled. In a 32-bit process it throws for
  handles beyond 32 bits; the model accepts any 64-bit handle.
- ExitOnInput.MainForm.MouseMove takes pointer coordinates as signed 16-bit
  values, as mouse messages carry them. With those values the source's
  32-bit subtraction cannot wrap, and `Math.Abs` never sees `int.MinValue`.
- The floating-point arithmetic itself is not modelled. The integer
  definitions of ToColor and DarkerVersion agree with it on every input.
- Colors.IsLight is the inclusive comparison of the exact luma with 0.6.
  For the twenty colours whose luma is exactly 0.6, the source's answer
  depends on how the runtime evaluates single-precision expressions. Strict
  single precision puts three of them below 0.6f, and wider intermediates
  put all twenty below. Colors.ClockColorNeverTies proves that the clock
  never shows such a colour.
