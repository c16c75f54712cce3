# Glance reading engine, modelled in Dafny

Glance shows a text one word at a time (rapid serial visual presentation). It
highlights one character of each word, the optical recognition point (ORP), so the
eye does not have to move. Both application files, `Glance.py` and `Glance.py.py`,
embed the same engine inside tkinter code. This project models that engine:

- **Tokenizer** (`tokenizer.dfy`): `raw_text.split()`, splitting on runs of
  Python whitespace.
- **ORP** (`orp.dfy`): the pivot index `get_orp_index`, chosen by length bucket.
  Also the left / pivot / right slicing at the top of `draw_word_on_canvas`.
- **Pacing** (`pacing.dfy`): the per-word delay of `calculate_delay` and
  `calculate_dynamic_delay`. It is 60000 / wpm milliseconds times 1.5 (`,` or
  `;`), 2.0 (`.`, `!` or `?`), 1.3 (more than 8 characters) or 1.0, truncated.
  The first matching rule wins.
- **Progress** (`progress.dfy`): the fraction read, and the remaining time of
  `update_progress` as whole minutes and truncated seconds. Also the total time of
  `update_status_with_eta`, which exists in Glance.py only.
- **Playback** (`playback.dfy`): each handler as a pure function on a snapshot of
  the four fields `words`, `current_index`, `is_running` and `has_content`. The
  handlers are `prepare_words`, `toggle_reading`, `run_loop`, `scrub_forward`,
  `scrub_backward` and `reset_reader`. The lemmas about whole readings and about
  the invariants the handlers keep live here too.
- **Session** (`session.dfy`): class `Reader`. It holds those four fields and
  updates them in place, statement by statement as the source does. Each method
  is proved to produce exactly the state (and delay) of its Playback function.
  The method `TwoWordSession` is a client of the class. From the methods'
  contracts alone, it follows a two-word reading through play, a pause, a stale
  callback, play again, the end and a backward scrub.
- `arith.dfy` holds facts about division that the time arithmetic needs, and
  `options.dfy` holds the `Option` type.

The two files differ in one place. Asked to play a text that has been read to the
end, Glance.py rewinds to the first word. Glance.py.py does not: the first step
ends playback at once. The model has one state machine with a `Variant`
(`Glance` for Glance.py, `ProFlow` for Glance.py.py). Glance.py.py has no
key-release binding, so there `prepare_words` runs only from `toggle_reading`,
while nothing has been prepared yet.

Inputs from the surroundings are parameters:
- the text box's content (`text`);
- the slider's words-per-minute value (`wpm`).

`root.after(delay, self.run_loop)` is not modelled as a timer. Instead,
`RunLoop` and `ToggleReading` return the delay they would schedule (`None` when
nothing is scheduled). The host then calls `RunLoop` again, and `Run` models `k`
such firings in a row. A callback still pending after a pause or a reset does
nothing, because `run_loop` returns at once when `is_running` is false. The model
keeps that check.

Arithmetic is exact. The source's `int((60 / wpm) * 1000 * factor)` becomes
`(60000 * num) / (wpm * den)`, with the factor as the fraction num/den. The
source's `int(m)` and `int((m % 1) * 60)` for `m = n / wpm` become truncated
minutes and floored seconds of the exact fraction.

## Behaviour worth noting

Some details of the code are easy to miss:

- `prepare_words` does not reset `current_index` and does not stop playback. It
  also never sets `has_content` back to false.
- Only `update_status_with_eta` treats a WPM of zero or less as 1.
  `calculate_delay`, `calculate_dynamic_delay` and `update_progress` divide by the
  slider value as it is, so those operations require `wpm > 0`. The slider spans
  100 to 1000.
- A comma word at 350 WPM gets 257 ms. The source multiplies the untruncated
  base delay 171.43 by 1.5 and only then truncates, so the result is not 1.5
  times the truncated base delay 171.
- Asked to play a finished text, only Glance.py rewinds to the start.
- `scrub_backward` never clamps to the last word. In Glance.py the text can
  shrink while the position stays where it was, and then the position can end up
  past the end (see `Playback.PrepareCanLeavePositionPastEnd`).

## Model

| member | source | states |
|---|---|---|
| `Tokenizer.Scan` | Glance.py:434 | the left-to-right scan behind the split: started with a token in progress that has no whitespace, every token it emits is non-empty and has no whitespace |
| `Tokenizer.Tokenize` | Glance.py:433-434 | every token of the split is non-empty and contains no whitespace character |
| `Tokenizer.TokenizeSplitsAt` | Glance.py:434 | every non-empty run of whitespace (spaces, tabs, newlines, in any number) separates tokens: the split of x + run + y is the split of x followed by the split of y |
| `Tokenizer.TokenizeWord` | Glance.py.py:238 | a text that is one word without whitespace splits into exactly that word |
| `Tokenizer.TokenizeExample` | Glance.py.py:236-238 | a text with a newline, two spaces and a trailing tab between and after "Hello," and "world." splits into exactly those two words |
| `Tokenizer.TokenizeContent` | Glance.py.py:236-238 | the tokens concatenated are exactly the text's non-whitespace characters in order: nothing lost, added or reordered |
| `Tokenizer.TokenizeEmptyIff` | Glance.py:434-435 | the token list is empty if and only if every character of the text is whitespace |
| `Tokenizer.TokenizeJoin` | Glance.py:434 | splitting the single-space join of any list of tokens gives that list back |
| `Tokenizer.TokenizeIdempotent` | Glance.py.py:238 | re-splitting the tokens joined by single spaces gives the same tokens |
| `Orp.OrpIndex` | Glance.py:443-449 | the pivot index is at most 4 and, for every non-empty word, strictly less than its length |
| `Orp.OrpIndexMonotone` | Glance.py:443-449 | for non-empty words, a longer word never has a smaller pivot index |
| `Orp.OrpIndexStep` | Glance.py.py:245-255 | one more character moves the pivot right by zero or one position, never more |
| `Orp.Split` | Glance.py:453-458 | an empty word gives no split; otherwise left + pivot + right is the word, the pivot is one character and the left part has `OrpIndex(word)` characters |
| `Orp.SplitUnique` | Glance.py.py:263-270 | any cut of the word into a left part of `OrpIndex(word)` characters, one character and a rest is the split |
| `Pacing.Classify` | Glance.py:551-554 | the if/elif chain that picks the factor; its consequences are stated by `Pacing.DelayMs`, `Pacing.ClauseOutranksSentence` and `Pacing.DelayExamples` |
| `Pacing.BaseDelay` | Glance.py:549-550 | base milliseconds per word are the largest r with r * wpm <= 60000 |
| `Pacing.DelayMs` | Glance.py:548-555 | the delay is the largest r with r * wpm * den <= 60000 * num, for the factor num/den chosen by the priority rule; this is the truncation of 60000 / wpm times the factor |
| `Pacing.DelayExamples` | Glance.py.py:376-396 | at 350 WPM: 171 ms for a plain word, 257 with a comma, 342 with a full stop, 222 for nine letters |
| `Pacing.ClauseOutranksSentence` | Glance.py:552-553 | a word holding both `,` and `.` gets the comma factor |
| `Pacing.DelayAntitoneInWpm` | Glance.py.py:381-396 | a higher WPM never gives any word a longer delay |
| `Pacing.DelayAtLeastBase` | Glance.py:551-555 | no word's delay is below the base delay |
| `Pacing.DelayAtMostSentence` | Glance.py.py:385-396 | no word's delay exceeds the truncation of 120000 / wpm, the delay of a sentence-ending word |
| `Progress.ClockOf` | Glance.py:544-545 | seconds are in 0..59; for a non-negative amount of words, minutes * 60 + seconds is the floor of 60 * n / wpm; a negative amount shows non-positive minutes |
| `Progress.Fraction` | Glance.py:536-537 | nothing without words; otherwise fraction * count == index, and the fraction is in [0, 1] when the index is not past the end |
| `Progress.FractionEnds` | Glance.py.py:359-362 | the fraction is 0 at the first word and 1 at the end |
| `Progress.FractionMonotone` | Glance.py.py:362 | a later position never has a smaller fraction |
| `Progress.Remaining` | Glance.py:542-545 | nothing without words; otherwise seconds are below 60 and, up to the end, the clock shows the floor of 60 * (count - index) / wpm seconds |
| `Progress.TotalEstimate` | Glance.py:416-428 | nothing without words; otherwise the clock shows the floor of 60 * count / max(wpm, 1) seconds, with seconds below 60 |
| `Progress.RemainingAtStartIsTotal` | Glance.py:426-428 | at the first word the remaining time equals the total time |
| `Progress.RemainingNonIncreasing` | Glance.py.py:367-370 | the remaining time never grows as the position moves forward |
| `Progress.RemainingAtEnd` | Glance.py.py:368-370 | at the end the remaining time is 0m 0s |
| `Playback.Prepare` | Glance.py:432-441 | `prepare_words` on a snapshot of the fields; its contract is `Playback.PrepareSpec` |
| `Playback.Advance` | Glance.py:557-578 | one firing of `run_loop`; its contract is `Playback.AdvanceSpec` |
| `Playback.Toggle` | Glance.py:499-513 | `toggle_reading`; its contract is `Playback.TogglePauses`, `Playback.ToggleWithoutText`, `Playback.TogglePreparesAndStarts`, `Playback.ToggleStarts`, `Playback.GlanceReadsAgain`, `Playback.GlanceToggleWithoutWords`, `Playback.ProFlowStaysFinished` and `Playback.ToggleIgnoresTextOnceLoaded` |
| `Playback.ScrubForward` | Glance.py:523-527 | `scrub_forward`; its contract is `Playback.ScrubForwardSpec` |
| `Playback.ScrubBackward` | Glance.py:529-533 | `scrub_backward`, defined where the word to draw exists; its contract is `Playback.ScrubBackwardSpec` |
| `Playback.Reset` | Glance.py:515-521 | `reset_reader`; its contract is `Playback.ResetSpec` |
| `Playback.Run` | Glance.py:557-566 | k firings of `run_loop`, each scheduled by the one before through `root.after`; its contract is `Playback.RunSchedule`, `Playback.RunToEnd` and `Playback.ReadThrough` |
| `Playback.PrepareSpec` | Glance.py:432-441 | the words become the whitespace split of the text; the result is true iff the text has a non-whitespace character iff the list is non-empty; `has_content` is set only then and never cleared; position and running flag unchanged |
| `Playback.AdvanceSpec` | Glance.py:557-578 | when paused, nothing changes and nothing is scheduled; before the end, the new state is the old one with the position up by exactly 1, and the delay of the word just shown is scheduled; at the end, the new state is the old one with running cleared, and nothing is scheduled; words and `has_content` are never touched, and a delay is scheduled exactly when a word was shown |
| `Playback.TogglePauses` | Glance.py:500-502 | toggling while running only clears the running flag and schedules nothing |
| `Playback.ToggleWithoutText` | Glance.py:504-505 | with nothing prepared and a blank text box, toggling changes nothing |
| `Playback.ToggleStarts` | Glance.py:503-513 | starting before the end shows the current word at once and schedules its delay |
| `Playback.GlanceReadsAgain` | Glance.py:507-513 | Glance.py: playing a finished text rewinds, shows the first word and schedules its delay |
| `Playback.ProFlowStaysFinished` | Glance.py.py:320-333 | Glance.py.py: playing a finished text leaves the state exactly as it was and schedules nothing |
| `Playback.TogglePreparesAndStarts` | Glance.py.py:327-333 | the first press of play, with nothing prepared and a word in the text box: the split of the text becomes the word list, it is non-empty, its first word is shown at once and its delay scheduled, and the reader is running at position 1 (both files) |
| `Playback.GlanceToggleWithoutWords` | Glance.py:503-513 | Glance.py: with content once prepared but the word list now empty, play rewinds to 0, the step run at once stops, and nothing is scheduled |
| `Playback.ToggleIgnoresTextOnceLoaded` | Glance.py.py:327-329 | once content has been prepared, toggling gives the same result whatever the text box holds, and never changes the word list |
| `Playback.ScrubForwardSpec` | Glance.py:523-527 | no-op without words; otherwise the new state is the old one with the position min(n - 1, i + 10) for n words, which is inside the list; words, running flag and `has_content` unchanged |
| `Playback.ScrubBackwardSpec` | Glance.py:529-533 | from any position up to the end the word to draw exists; no-op without words; otherwise the new state is the old one with the position max(0, i - 10), inside the list; words, running flag and `has_content` unchanged |
| `Playback.ScrubStaysInside` | Glance.py.py:343-355 | from any position up to the end, both scrub directions land in [0, n - 1] for n words |
| `Playback.ResetSpec` | Glance.py:515-521 | reset stops and rewinds to 0 and keeps the words; a callback pending from before a reset or a pause has no effect |
| `Playback.RunSchedule` | Glance.py:557-566 | while words remain, k firings move the position by exactly k and schedule exactly the delays of the k words shown, in order |
| `Playback.RunToEnd` | Glance.py.py:398-425 | a running reader shows every remaining word and, one firing later, stops at the end |
| `Playback.ReadThrough` | Glance.py:499-513 | play on a prepared text at its start (or, in Glance.py, at its end) followed by one firing per word shows every word in order, schedules the delay of each, and stops at the end |
| `Playback.BlankPreserved` | Glance.py:432-578 | every handler of both files keeps "no content prepared implies no words and position 0" |
| `Playback.InBoundsPreserved` | Glance.py.py:320-355 | toggle, a step, both scrubs and reset keep the position within the list, and then the backward scrub's word exists |
| `Playback.InitialInBounds` | Glance.py.py:30-33 | the initial state is within bounds |
| `Playback.PrepareCanLeavePositionPastEnd` | Glance.py:72 | re-preparing a shorter text leaves the position past the end, where even ten words back is past the end |
| `Playback.SixWordExample` | Glance.py:499-513 | "Hello, world. This is a test" splits into six words; play plus six firings stop at position 6; playing again rewinds and shows the first word |
| `Session.Reader.constructor` | Glance.py:46-49 | a new reader has no words, position 0, is not running and has no content |
| `Session.Reader.PrepareWords` | Glance.py.py:234-243 | the new fields and the result are those of `Playback.Prepare` |
| `Session.Reader.RunLoop` | Glance.py:557-578 | the new fields and the scheduled delay are those of `Playback.Advance` |
| `Session.Reader.ToggleReading` | Glance.py:499-513 | the new fields and the scheduled delay are those of `Playback.Toggle` for the reader's variant |
| `Session.Reader.ResetReader` | Glance.py.py:335-341 | the new fields are those of `Playback.Reset` |
| `Session.Reader.ScrubForward` | Glance.py.py:343-348 | the new fields are those of `Playback.ScrubForward` |
| `Session.Reader.ScrubBackward` | Glance.py:529-533 | the new fields are those of `Playback.ScrubBackward` |

## Left out

- tkinter user interface: building widgets, themes (`THEMES`, `apply_theme`,
  `open_settings`), key bindings, button labels and colours, and the wording of
  the status bar. Only the numbers behind them are modelled: index, count,
  minutes, seconds.
- Canvas geometry and font measurement (`font.Font.measure`, the `create_text`
  coordinates in `draw_word_on_canvas`, the progress bar's pixel width). These are
  rendering calls with floating-point pixel offsets.
- Loading a file (`load_text_file`): it is file and dialog I/O, and it only
  replaces the text box's content. The model gets that content as the `text`
  parameter. What happens next differs per file. Glance.py calls `prepare_words`
  right after loading, which is `PrepareWords` on the new text. Glance.py.py does
  not. There the file's text reaches the word list only through the first press
  of play, while nothing has been prepared yet. `has_content` is never cleared, so
  a file loaded after that never reaches the word list, not even after a reset
  (`Playback.ToggleIgnoresTextOnceLoaded`).
- Real-time scheduling by `root.after`. It is replaced by the returned delay and
  by `Run`. Wall-clock time is not modelled. Neither is the second chain of
  callbacks left behind when play is toggled off and on again before the pending
  callback fires: the source promises nothing about it.
- Floating-point rounding. Delays and clocks use exact rational arithmetic, so a
  rare last-digit difference from IEEE rounding (a value like 2.9999999 truncated
  to 2) is not captured.
- Unicode: `IsSpace` lists Python's whitespace code points as a fixed set. Strings
  are sequences of code points, as Python's `len` and slicing count them.
- `Playback.Advance`, `Playback.Toggle`, `Progress.Remaining`: require `wpm > 0`.
  The division by zero the source would raise for a zero slider value is not
  modelled; the slider cannot produce it.
- `Playback.ScrubBackward`: requires the word at the new position to exist. The
  source raises `IndexError` there after the text has shrunk (Glance.py only).
  The model does not follow that error path.
- `Session.Reader.ScrubBackward`: has the same requirement as
  `Playback.ScrubBackward`, for the same reason.
- The calls from `prepare_words`, `reset_reader` and `on_wpm_change` to
  `update_status_with_eta` and `update_progress` only refresh the status bar.
  The numbers they show are `Progress.TotalEstimate` and `Progress.Remaining` of
  the current state.
