# xselectionrun in Dafny

xselectionrun is an X11 hotkey tool. When F1 is pressed it asks for the PRIMARY selection as a STRING. When the selection arrives, it puts it into a shell-command template and runs the command. The first line of output, or a diagnostic, is shown in a small popup placed at the pointer. Pressing F1 again hides the popup.

This project models the logic of that program as pure functions over values:

- `Strings`: `strdupcat`, and the C-string view of a buffer (what `strlen` counts and `strdup` copies).
- `Template`: finding `%s`, the template made from the argument, and substituting the selection into it.
- `Shell`: a small part of the POSIX shell's word syntax. It covers single quotes, backslash escapes, and the blanks and operators that end a word. It is enough to say when the quoted selection reaches the command as one argument.
- `Runner`: `RunCommand`. This covers reading the first line with `fgets(…, 99, …)` and cutting its last character. It also classifies popen, read and pclose outcomes into one text.
- `Selection`: the property read of `GetSelection` and its acceptance test.
- `Placement`: the arithmetic of `WindowAtPointer`.
- `EventLoop`: the start of `main` and the `while (1)` event dispatch.

The event dispatch is a transition function. Its state is `serving` plus an optional result. It returns the next state and the one X call made, if any: request the selection, move and map, unmap, draw, or nothing.

X, the shell and the C library are not called. Their answers are inputs:

- the property reply;
- a `Spawn` value saying whether popen failed, what output the command wrote, errno after a failed read, and the wait status;
- the pointer and screen geometry;
- `strerror` as a function parameter returning non-empty text.

Constants are the Linux/X11 values: `EAGAIN` = 11, `XA_STRING` = 31, `Success` = 0, the F1 keysym = 0xFFBE.

## Model

| member | source | states |
|---|---|---|
| `Strings.Concat` | xselectionrun.c:38-46 | the result is `a` followed by `b`, of length \|a\|+\|b\| |
| `Strings.CString` | xselectionrun.c:72 | the C string of a buffer is its longest NUL-free prefix: it stops at the first NUL, and is the whole buffer when there is none |
| `Template.FindPlaceholder` | xselectionrun.c:197 | `strstr(…, "%s")`: the result is an occurrence of `%s` with none before it, and is none exactly when `%s` occurs nowhere |
| `Template.EffectiveTemplate` | xselectionrun.c:197-200 | the template always holds `%s`; it is the argument unchanged when that has one, else the argument plus ` '%s'`, whose first placeholder is then at \|arg\|+2 |
| `Template.Substitute` | xselectionrun.c:86-87 | the command, plus its terminator, fits the buffer of strlen(template)+strlen(selection)+1; with no placeholder, the template is returned unchanged |
| `Template.SubstituteSplit` | xselectionrun.c:87 | for `p + "%s" + q` with no placeholder in `p`, the command is `p + selection + q` |
| `Template.CommandFromBareArgument` | xselectionrun.c:197-200 | for an argument without `%s`, the command is the argument, a blank, and the selection between single quotes, inserted verbatim |
| `Template.BareArgumentSplitsSelection` | xselectionrun.c:200 | for such an argument the selection `';id;'` does not stay one argument: the quoted word ends after two characters, at a `;` |
| `Template.SafeCommand` | xselectionrun.c:197-200 | the corrected command: with `%s` in the argument, it is the program's own command; without, it is the argument, a blank, and a last shell word whose value is exactly the selection, whatever it holds. That word is read from a fresh start after the blank, which is how the shell reads it when the argument ends outside a quote and not on an unescaped backslash |
| `Template.SafeCommandSplit` | xselectionrun.c:86-87 | for an argument `p + "%s" + q` with no placeholder in `p`, the corrected command is `p + selection + q`, the selection as the user placed it |
| `Template.SafeCommandAgrees` | xselectionrun.c:197-200 | for a selection without `'`, the corrected command equals the program's command for every argument |
| `Shell.EscapeKeepsQuoteFree` | xselectionrun.c:200 | escaping leaves a text without `'` unchanged |
| `Shell.QuoteReadsBack` | xselectionrun.c:200 | a quoted, escaped text followed by nothing or a delimiter reads back as one word whose value is the text |
| `Shell.BareQuotesSplitWord` | xselectionrun.c:200 | putting `';id;'` between quotes without escaping gives a word of value "" that ends after two characters |
| `Runner.FirstLine` | xselectionrun.c:94-95 | fgets with size 99: no line exactly when there is no output; otherwise a prefix of the output of 1 to 98 characters, with no newline before its last character, ending at a newline, at 98 characters, or at the end of the output |
| `Runner.CutIndex` | xselectionrun.c:96 | the index where the terminator is written is strlen(line) - 1: when not negative, it is the last character before the first NUL, or the buffer's last character when there is no NUL; it is -1 exactly when the line starts with a NUL |
| `Runner.CutMatchesStripLine` | xselectionrun.c:95-96 | where the program's cut lands inside the buffer, the shown text is the buffer up to that index, as the program leaves it; where it lands at -1, the shown text is empty, as the program's C string is |
| `Runner.NulLineCutsBeforeBuffer` | xselectionrun.c:95-96 | the output "\0" is read as a one-character line, and the terminator goes to index -1 |
| `Runner.StripLine` | xselectionrun.c:96 | the text the program shows: the C string without its last character, whatever that character is, and empty when the C string is empty; it is a NUL-free prefix of the buffer. It is also the correction of finding 1: its cut lies inside the buffer, and only the place of the program's write differs |
| `Runner.StripDropsNewline` | xselectionrun.c:95-96 | a line `X` followed by a newline is shown as `X` |
| `Runner.Classify` | xselectionrun.c:90-115 | the kind chosen meets its row of the decision table: spawn error, signalled, 127, 126, other nonzero, exit 0 with a line, exit 0 with EAGAIN, exit 0 with another errno |
| `Runner.ClassifyIsTable` | xselectionrun.c:90-115 | every outcome meets exactly one row, the one Classify picks; so the table is total and its rows are disjoint |
| `Runner.Report` | xselectionrun.c:90-115 | a text is always produced; every diagnostic is non-empty; a line that is shown is a prefix of the output of at most 97 characters |
| `Runner.ReportByKind` | xselectionrun.c:90-115 | the exact text of each kind: the pipe, abnormal-termination, not-found, not-executable and read messages, and strerror of the exit code |
| `Runner.SuccessShowsLine` | xselectionrun.c:95-107 | exit 0 with output `X\n` (X shorter than 98) shows `X` |
| `Runner.EmptyLineShowsNothing` | xselectionrun.c:95-107 | exit 0 with an empty first line shows the empty text |
| `Runner.RunCommand` | xselectionrun.c:80-116 | never NULL; a non-empty text except for a shown line; a shown line is a prefix of the output of at most 97 characters |
| `Runner.SafeRunCommand` | xselectionrun.c:80-116 | the same guarantees, for the corrected command |
| `Selection.FetchProperty` | xselectionrun.c:59-61 | the read of 200 32-bit units of STRING returns at most 800 characters. Up to 800, it returns the stored text with nothing left; over 800, the first 800 and a count of the rest. Another type or a missing property returns no STRING |
| `Selection.GetSelection` | xselectionrun.c:59-74 | none exactly when the status is not Success or the type is not STRING; otherwise the data up to its first NUL: a NUL-free prefix of the data that ends at the data's end or at a NUL, so the data itself when it holds no NUL |
| `Selection.AcceptedSelectionBounded` | xselectionrun.c:59-72 | a selection is accepted exactly when the owner stored a STRING; the accepted text is a prefix of what was stored, at most 800 characters, that stops short of the stored text and of 800 characters only at a NUL |
| `Placement.PlaceAsWritten` | xselectionrun.c:141-148 | for any geometry: x is the centred column, the border width, or the column that ends the popup, border included, at the right edge; either the inner width ends before the right edge or the popup ends exactly at it; y is 10 below the pointer exactly when the popup fits below |
| `Placement.PlaceAsWrittenBounds` | xselectionrun.c:141-148 | with the pointer on screen and the popup no wider than the screen: x is at least 0; x plus the inner width is at most the screen width; y is 10 below the pointer when the popup fits below, and otherwise 10 plus the height above |
| `Placement.BorderPastRightEdge` | xselectionrun.c:144-145 | a 640-wide popup with border 1, on a 1000-wide screen, with the pointer at column 679, ends one column past the right edge |
| `Placement.Place` | xselectionrun.c:141-148 | the same choice of x and y, with the right-edge test counting the border; for any geometry, the popup, border included, never ends past the right edge |
| `Placement.PlaceBounds` | xselectionrun.c:141-148 | with the right-edge test counting the border, the whole popup lies within the screen's columns; below the pointer it also lies within its rows |
| `Placement.PlaceCentres` | xselectionrun.c:141 | when the centred popup fits, both placements centre it on the pointer |
| `Placement.PlacementsAgree` | xselectionrun.c:144-145 | the two placements differ exactly when the inner area fits but the border would cross the right edge |
| `Placement.PopupClearsPointer` | xselectionrun.c:146-148 | when twice the border is less than the gap of 10, the popup never covers the pointer's row |
| `EventLoop.Start` | xselectionrun.c:179-233 | a missing argument exactly when there is none; help exactly for `-h`; the process dies exactly when the display opens and the font does not load; otherwise the loop is entered exactly when the display opens, the font loads and F1 is grabbed, with a template that holds `%s` |
| `EventLoop.ExitStatus` | xselectionrun.c:179-233 | the process exits with 0 only for help, and has no exit status exactly when it dies on the missing font |
| `EventLoop.Step` | xselectionrun.c:237-285 | a selection request only starts a cycle; unmap only ends one and clears the result; draw only draws the present result and changes nothing; showing the popup always leaves a result and keeps `serving`; an event with no action either ends the cycle or changes nothing |
| `EventLoop.Run` | xselectionrun.c:237-286 | over events without a SelectionNotify the result is kept or dropped, never made; from a state that keeps a result only inside a cycle, it stays so |
| `EventLoop.ToggleWhileServing` | xselectionrun.c:242-250 | F1 with no modifiers while serving: `serving` false, result none, unmap |
| `EventLoop.ToggleWhileIdle` | xselectionrun.c:242-254 | F1 with no modifiers while not serving: `serving` true, result kept, request the selection |
| `EventLoop.OtherKeysIgnored` | xselectionrun.c:240-256 | any other key, or F1 with a modifier, leaves the state unchanged with no action |
| `EventLoop.RefusedSelectionStops` | xselectionrun.c:257-263 | a SelectionNotify whose read is refused sets `serving` false and does nothing else |
| `EventLoop.AcceptedSelectionShows` | xselectionrun.c:264-274 | an accepted selection keeps `serving`, makes RunCommand's text the result, and moves and maps the popup; the branch for a failed run is never taken |
| `EventLoop.ExposeDrawsResult` | xselectionrun.c:278-282 | Expose changes nothing; it draws exactly when a result is present, and draws that result |
| `EventLoop.ToggleShowToggle` | xselectionrun.c:240-274 | from a state that is not serving, F1, an accepted SelectionNotify, then F1 ends with `serving` false and no result |
| `EventLoop.LateSelectionShowsStalePopup` | xselectionrun.c:257-274 | after F1, F1 and an accepted SelectionNotify, the popup is shown with `serving` false; the next F1 requests the selection again instead of hiding it |
| `EventLoop.GuardedStep` | xselectionrun.c:237-285 | the corrected step keeps a result only inside a cycle, and shows the popup only from a cycle awaiting its selection. It ignores a SelectionNotify in any other state |
| `EventLoop.GuardedAgreesOffNotify` | xselectionrun.c:240-285 | on every event other than SelectionNotify, the corrected step is the step as written |
| `EventLoop.GuardedRunCoherent` | xselectionrun.c:237-286 | from a coherent state, any sequence of events keeps a result only inside a cycle |
| `EventLoop.GuardedIgnoresLateSelection` | xselectionrun.c:257-274 | with the correction, F1, F1 and a late SelectionNotify return to the initial state |

## Left out

- X11 plumbing is not modelled: opening the display, creating the window, font and GC, grabbing the key, `XNextEvent`, `XQueryPointer`, `XGetGeometry`, moving, mapping and unmapping, and `DrawString`. Their results are parameters, and their calls are `Action` values. Opening the display, loading the font and grabbing F1 are three booleans of `EventLoop.Start`.
- Process spawning and reading are not modelled. `popen`, `fgets` and `pclose` are the `Spawn` value, and `strerror` is a parameter.
- `Template.Substitute`: `sprintf` is modelled only for a template with exactly one directive, one `%s`. With two `%s` the model fills only the first, while `sprintf` reads a second argument that was never passed, which is undefined behaviour. A template holding `%%` is left out, because `sprintf` prints it differently: `%%` becomes `%`, and `%%s` passes the test for `%s` but prints a literal `%s` with no selection in it, where the model puts the selection after the `%`. Other directives with one string argument are undefined behaviour.
- `EventLoop.Start`: a font that does not load makes the program dereference a null pointer (lines 219-221). The C language leaves that undefined; the model takes it as the process dying with no exit status.
- `printf` diagnostics, `malloc`/`free`, memory leaks and allocation failure are not modelled. `RunCommand` is never NULL only on the assumption that allocation succeeds.
- `Placement.PlaceAsWritten`, `Placement.Place`, `Placement.PlaceAsWrittenBounds`, `Placement.PlaceBounds`: all use unbounded integers, with the pointer's root-window coordinates never negative. The C code mixes `int` and `unsigned int` at lines 144 and 146. It agrees with these lemmas while positions and sizes stay in the X protocol's 16-bit ranges, with the pointer on screen. Outside those ranges, wrap-around is not modelled.
- Characters stand for bytes: every `char` of `Spawn.output`, `Stored.bytes` and `PropertyReply.data` is one byte of what the program reads, with a code below 256. The bounds of 98 characters read by fgets, 97 shown, and 800 characters from the property read count bytes. Multi-byte encodings are not modelled, so a line cut inside a UTF-8 character cannot be expressed.
- `Runner.FirstLine`: the `Spawn` value gives the output as the characters readable before end of file or a read error. A read error after some characters have been read is not told apart from end of file.
- `Shell.ReadWord`: a subset of the shell's word syntax. It has no double quotes, `$` expansion, backquotes or globbing. These matter neither to the escaped text, which outside quotes holds only `\'`, nor to the counterexample.
- Selection ownership, answering other clients' requests, timestamps, publish mode and flash mode do not exist in this program.
- The property is read with `delete` set. The deletion is not modelled, and neither is the X server deleting the property only when nothing is left unread.

Behaviour of the code worth knowing:

- The exit status is tested before a failed read. A read failure (no output, or another errno) is reported only when the command exited with 0. Any nonzero exit replaces it.
- A nonzero exit other than 126 or 127 shows `strerror` of the exit code. Exit code 1 gets no special treatment.
- The text can be empty: an empty first line shows the empty text (`Runner.EmptyLineShowsNothing`), and so does a one-character output with no newline.
- The property read asks for 200 units of 32 bits, so up to 800 characters are accepted. The source's own to-do note says 200 bytes. The count of what is left unread is only printed.
- A failed conversion is seen only through the property read. It leaves the window's property as it was. When an earlier read left more than 800 characters unread, the X server did not delete that property, so a later failed conversion reads the old STRING again and the command runs on the stale selection. The model allows this: a SelectionNotify carries whatever reply the read gave.

## Findings

| source | as written | input that shows it | evidently intended | confidence | as-written member | corrected member |
|---|---|---|---|---|---|---|
| xselectionrun.c:95-96 | after a successful fgets, the terminator is written at strlen(line) - 1 | a command whose output starts with a NUL byte, e.g. `printf '\0'`: the line's C string is empty, so the write lands one byte before the buffer | cut the last character only when the line's C string is not empty | high; not executed | `Runner.CutIndex`, `Runner.NulLineCutsBeforeBuffer` | `Runner.StripLine` |
| xselectionrun.c:144-145 | the right-edge test compares x plus the inner width with the screen width, while the correction it applies subtracts the border too | popup 640 by 30 with border 1, screen 1000 wide, pointer at column 679: x = 359, and the popup's last column, part of its right border, is 1000, one past the screen's last column 999 | test x plus width plus twice the border, so the whole popup stays on screen | medium; not executed | `Placement.BorderPastRightEdge` | `Placement.Place`, `Placement.PlaceBounds` |
| xselectionrun.c:257-274 | a SelectionNotify runs the command and maps the popup whether or not a cycle is waiting for it | F1, F1 again before the selection arrives, then the SelectionNotify: the popup shows with `serving` false, and the next F1 requests again instead of hiding | act on a SelectionNotify only while a cycle awaits it | medium; not executed | `EventLoop.LateSelectionShowsStalePopup` | `EventLoop.GuardedStep`, `EventLoop.GuardedRunCoherent` |
| xselectionrun.c:197-200 | for an argument without `%s`, the selection is put between single quotes verbatim | argument `tr a-z A-Z` with the selection `';id;'`: the shell runs `id` | make the appended selection one argument whatever it holds, by escaping each `'` inside the quotes; a template with its own `%s` is the user's to quote and is left as written | high; not executed | `Template.BareArgumentSplitsSelection` | `Template.SafeCommand`, `Template.SafeCommandAgrees` |

The corrected members are used by `Runner.SafeRunCommand` and `EventLoop.GuardedStep`. `EventLoop.Step` keeps the program's behaviour as written.
