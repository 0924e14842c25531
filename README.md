# MS213x video status decoders, in Dafny

This project models the `status` command of a tool for MS213x USB video
capture chips. The command finds out what video signal the chip currently
sees: resolution, whether a signal is present, frame counter, colour space and
input format. The chip has no status interface, so the command reads fixed
windows of its RAM, or calls a patched firmware routine, and decodes the
bytes into an `OutputData` record. There are five independent decoders,
chosen by a region name:

- murderous: accurate, but the read can crash the device;
- flaky: the default;
- unknown;
- bertold and bertold_scaler: the firmware-call variants;
- fazant: a fixed test stub.

A poller runs the chosen decoder once, or forever in loop mode.

- `Chip` (chip.dfy): the two foreign access paths, `readmem` and
  `PatchExecFunc`. A `Device` value fixes what the chip answers during one
  cycle. A window that is not in its memory map reads as an empty buffer. An
  entry address that is not in its register map makes the firmware call fail.
  `LittleEndian16` is the `hi*256 + lo` pair arithmetic.
- `Output` (output.dfy): the `OutputData` record. It is modelled as a class
  with mutable fields, and `Value()` gives it as a `Snapshot` value.
- `Decoders` (decoders.dfy): each decoder in two forms.
  - A function `Decode*` maps the chip state and the record before the call
    to the success flag and the record after it. Its contract states the
    decoding rule, the failure behaviour and which fields stay untouched.
  - A method `Read*` writes the caller's `OutputData` one field at a time and
    returns early on a failed read, as the Go code does. Its `ensures` proves
    that it matches the function.
- `Poller` (poller.dfy): the region switch (`Select`) and the per-cycle
  decision (`Next`). `Outcomes` gives what the selected decoder makes of
  each observed cycle. `Poll` gives the loop's behaviour over these outcomes:
  the loop only needs to know whether a read succeeded and what it produced.
  `Run` is the imperative loop, proved equal to `Poll`.

Assumptions about the collaborators:

- A memory read returns either nothing or exactly the number of bytes asked
  for.
- The firmware call's registers are 8-bit values.
- The clock reading that stamps each cycle is an input. So is what the chip
  answers in that cycle.

## Model

| member | source | states |
|---|---|---|
| Chip.LittleEndian16 | status.go:78-79 | a dimension pair decodes to a 16-bit value whose low byte is the first byte and whose high byte is the second; the same pair arithmetic is used at lines 53-54, 123-124 and 160-161 |
| Output.OutputData.constructor | status.go:26-34 | a new record has every field at its zero value |
| Decoders.ModeSignal | status.go:61-65 | the murderous mode code gives "no" exactly for codes 0 and 8 and "yes" for every other code |
| Decoders.SignalWhenZero | status.go:87-91 | the signal flag gives "yes" exactly when it is 0, otherwise "no" |
| Decoders.ColorspaceName | status.go:95-101 | the colour-space mapping is total: 0 is RGB, 1 is Y422, and every other code gives Y444 |
| Decoders.FormatName | status.go:105-109 | the format mapping is partial: 0 is DVI, 2 is HDMI, and every other code gives no format |
| Decoders.DecodeMurderous | status.go:38-68 | succeeds iff the 16-byte read at 0xe180 is non-empty, and leaves the record unchanged otherwise; width is the pair at bytes 4-5; height is the pair at bytes 12-13, doubled exactly when byte 0 is 15; width stays at most 65535 and height at most 131070; signal is "no" iff byte 0 is 0 or 8 and "yes" iff it is any other code; only width, height and signal are written |
| Decoders.ReadMurderous | status.go:38-68 | the field-by-field method yields the same flag and record as DecodeMurderous |
| Decoders.DecodeFlaky | status.go:71-112 | succeeds iff the dimension read at 0xf660 and the flag read at 0xf6e9 are both non-empty; an empty first read leaves the record unchanged; once the first read succeeds, width and height are already written (bytes 0-1 and 2-3), even if the flag read then fails; on success, signal, colour space and format follow the flag and code bytes, and an unknown format code keeps the previous format; time and frame id are never written |
| Decoders.ReadFlaky | status.go:71-112 | the field-by-field method, including its early returns, yields the same flag and record as DecodeFlaky |
| Decoders.DecodeUnknown | status.go:116-140 | succeeds iff the 8-byte read at 0xf606 and the flag read are both non-empty; an empty first read leaves the record unchanged; width is the pair at bytes 0-1 and height the pair at bytes 6-7, written before the flag read; signal follows the shared flag; nothing else is written |
| Decoders.ReadUnknown | status.go:116-140 | the field-by-field method yields the same flag and record as DecodeUnknown |
| Decoders.DecodeFazant | status.go:142-147 | always succeeds and sets width 42, height 42 and signal "fazantfazantfazant"; every other field keeps its value |
| Decoders.ReadFazant | status.go:142-147 | the method yields the same flag and record as DecodeFazant |
| Decoders.FazantIdempotent | status.go:142-147 | running the stub again on its own result gives the same result |
| Decoders.DecodeBertold | status.go:149-172 | calls entry 0xf41e before the scaler and 0xf406 otherwise; succeeds iff that call answers, and leaves the record unchanged if it fails; on success it writes exactly width R3:R2, height R5:R4, signal "yes" iff R6 is 0, and frame id A |
| Decoders.ReadBertold | status.go:149-172 | the method yields the same flag and record as DecodeBertold |
| Decoders.Decode | status.go:183-198 | the contract all decoders share: the time stamp is never written; a failed decode has written at most width and height; fazant always succeeds; only bertold writes the frame id; only flaky writes colour space and format |
| Decoders.ReadWith | status.go:183-198 | calling the selected decoder's method yields what Decode gives for that decoder |
| Decoders.FlakyUnknownAgreeOnSignal | status.go:126-137 | flaky and unknown read the same flag byte, so they report the same signal whenever both succeed on the same chip state |
| Decoders.FlakyFullHd | status.go:78-79 | the dimension bytes 80 07 38 04 decode to 1920x1080 |
| Poller.Select | status.go:183-198 | each of the six region names selects the decoder it names; "bertold" selects the before-scaler entry and "bertold_scaler" the other one; any other name selects flaky |
| Poller.SelectName | status.go:183-198 | every decoder is reachable from its own region name |
| Poller.Next | status.go:200-230 | after a cycle, loop mode always continues; single-shot mode stops on success and exits with status 1 on failure |
| Poller.Poll | status.go:174-234 | given the outcome of each cycle's read, the loop emits at most one record per cycle; an exit is status 1, happens only in single-shot mode and emits nothing; a normal end happens only in single-shot mode, after exactly one record |
| Poller.Attempt | status.go:178-198 | one read attempt starts from a fresh zero record stamped with the cycle's time, and gives exactly the selected decoder's flag and record |
| Poller.Run | status.go:174-234 | the imperative loop, with an early exit on a failed single read and `continue` after a failed read in loop mode, emits exactly the records Poll gives for the selected decoder's outcomes, and ends the same way |
| Poller.SingleShot | status.go:200-227 | with loop 0 only the first cycle runs: on success its record is emitted and the command ends normally; on failure nothing is emitted and it exits with status 1 |
| Poller.LoopNeverEnds | status.go:200-208 | with a non-zero loop interval, the command never ends, on success or on failure; it emits exactly the records of the successful cycles, in order |
| Poller.EmittedAreSuccesses | status.go:200-221 | every emitted record is the record of some successful read; a failed read never reaches the output |
| Poller.EmittedRecords | status.go:178-198 | every emitted record is what the decoder read in one successful cycle, carries that cycle's time stamp, and keeps the zero value in the fields its decoder does not populate: frame id outside bertold, and colour space and format outside flaky |
| Poller.UnknownSingleShotFails | status.go:188-204 | region "unknown", a single read and an empty first buffer: exit status 1 and nothing emitted |
| Poller.FlakyLoopRecovers | status.go:186-209 | region "flaky" in loop mode, a failed cycle then a good one: exactly the second cycle's record is emitted, and the command keeps polling |

## Left out

- `readmem` and `PatchExecFunc` internals: these are foreign calls into the chip access library. They are modelled by what they return, through the `Device` value.
- Register widths: the firmware call's register types are not visible. R2-R6 and A are taken to be 8-bit, so the `hi*256 + lo` results stay below 65536.
- Short buffers: the murderous, flaky and unknown decoders check only for an empty buffer before they index bytes 13, 3 and 7. The model assumes (`Answers`) that a read is either empty or of the full requested length.
- Decoders.DecodeFlaky: the colour-space and format reads at 0x1c3a and 0x1c41 are indexed with no length check. An empty buffer there makes the Go code panic. The model requires (`FlakyDefined`) that these reads return a byte whenever they are reached. The panic itself is not modelled.
- Poller.Run: loop mode never terminates. The model observes the loop over a finite sequence of cycles, and `Polling` means it was still running when the observed cycles ran out.
- Timing: the time stamp (`time.Now().UnixMilli()`) is an input of each cycle. Both sleeps are left out, since they only delay the next cycle. The help text says microseconds, but the code sleeps in milliseconds.
- Output: JSON and text formatting, printing, atomic file writing, and the "Read nothing from RAM" message are not modelled. The JSON round trip of a record therefore is not modelled either. Each emitted record appears as a `Snapshot` in the trace, and `os.Exit(1)` appears as the `Exited(1)` outcome.
- The command-line struct tags on `Region` and `StatusCmd`: these are argument-parser plumbing.
