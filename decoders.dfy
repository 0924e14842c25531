/** The five decoding strategies of the status command. Each one is stated
    twice: as a function from what the chip answers and the record before the
    call to the success flag and the record after it (`Decode*`), and as the
    method that writes the caller's `OutputData` field by field, returning
    early on a failed read (`Read*`), proved to agree with that function. */
module Decoders {
  import opened Chip
  import opened Output

  /** A decoder's success flag together with the record it leaves behind. */
  datatype Decoded = Decoded(ok: bool, snap: Snapshot)

  /** The memory windows the decoders read. */
  const ModeWindow := Window(Region("RAM", 0xe180), 16)
  const FlakyDims := Window(Region("RAM", 0xf660), 4)
  const SignalFlag := Window(Region("RAM", 0xf6e9), 1)
  const ColorspaceCode := Window(Region("RAM", 0x1c3a), 1)
  const FormatCode := Window(Region("RAM", 0x1c41), 1)
  const UnknownDims := Window(Region("RAM", 0xf606), 8)

  /** Firmware entry addresses of the bertold decoder. */
  const BeforeScalerEntry := 0xf41e
  const AfterScalerEntry := 0xf406

  /** Mode code that marks interlaced input in the murderous window. */
  const Interlaced: byte := 15

  const FazantSignal := "fazantfazantfazant"

  /** Signal of the murderous window: codes 0 (no signal) and 8 (no signal
      after non-interlaced input) mean no signal, every other code a signal. */
  function ModeSignal(code: byte): (signal: string)
    ensures signal == No <==> code == 0 || code == 8
    ensures signal == Yes <==> code != 0 && code != 8
  {
    if code > 0 && code != 8 then Yes else No
  }

  /** Signal from a status byte that is zero exactly when a signal is present
      (the flag at 0xf6e9 and register R6). */
  function SignalWhenZero(flag: byte): (signal: string)
    ensures signal in {Yes, No}
    ensures signal == Yes <==> flag == 0
  {
    if flag == 0 then Yes else No
  }

  /** The colour-space code is mapped totally. */
  function ColorspaceName(code: byte): (name: string)
    ensures name in Colorspaces
    ensures name == "RGB" <==> code == 0
    ensures name == "Y422" <==> code == 1
  {
    if code == 0 then "RGB" else if code == 1 then "Y422" else "Y444"
  }

  /** The format code is mapped partially: only 0 and 2 are known. */
  function FormatName(code: byte): (name: Option<string>)
    ensures name.Some? <==> code == 0 || code == 2
    ensures name.Some? ==> name.value in Formats
    ensures name == Some("DVI") <==> code == 0
  {
    if code == 0 then Some("DVI") else if code == 2 then Some("HDMI") else None
  }

  // ---------------------------------------------------------------------
  // murderous: one 16-byte read at 0xe180

  function DecodeMurderous(dev: Device, s: Snapshot): (d: Decoded)
    requires Answers(dev, ModeWindow)
    ensures d.ok <==> ReadMem(dev, ModeWindow) != []
    ensures !d.ok ==> d.snap == s
    ensures d.ok ==> d.snap == s.(width := d.snap.width, height := d.snap.height, signal := d.snap.signal)
    ensures d.ok ==> var buf := ReadMem(dev, ModeWindow);
      && d.snap.width == LittleEndian16(buf[4], buf[5])
      && (buf[0] == Interlaced ==> d.snap.height == 2 * LittleEndian16(buf[12], buf[13]))
      && (buf[0] != Interlaced ==> d.snap.height == LittleEndian16(buf[12], buf[13]))
      && (d.snap.signal == No <==> buf[0] == 0 || buf[0] == 8)
      && (d.snap.signal == Yes <==> buf[0] != 0 && buf[0] != 8)
    ensures d.ok ==> 0 <= d.snap.width <= 65535 && 0 <= d.snap.height <= 131070
  {
    var buf := ReadMem(dev, ModeWindow);
    if buf == [] then Decoded(false, s)
    else
      var raw := LittleEndian16(buf[12], buf[13]);
      Decoded(true, s.(width := LittleEndian16(buf[4], buf[5]),
                       height := if buf[0] == Interlaced then 2 * raw else raw,
                       signal := ModeSignal(buf[0])))
  }

  method ReadMurderous(dev: Device, output: OutputData) returns (ok: bool)
    requires Answers(dev, ModeWindow)
    modifies output
    ensures Decoded(ok, output.Value()) == DecodeMurderous(dev, old(output.Value()))
  {
    var buf := ReadMem(dev, ModeWindow);
    if |buf| == 0 {
      return false;
    }
    var signal := buf[0];
    output.width := LittleEndian16(buf[4], buf[5]);
    output.height := LittleEndian16(buf[12], buf[13]);
    if signal == Interlaced {
      output.height := 2 * output.height;
    }
    if signal > 0 && signal != 8 {
      output.signal := Yes;
    } else {
      output.signal := No;
    }
    return true;
  }

  // ---------------------------------------------------------------------
  // flaky: four reads at 0xf660 (4 bytes), 0xf6e9, 0x1c3a and 0x1c41 (1 byte)

  /** What `readFlaky` needs of the chip: every read answers in full or not at
      all, and the colour-space and format reads, which are indexed without a
      length check, deliver a byte whenever they are reached. */
  predicate FlakyDefined(dev: Device)
  {
    && Answers(dev, FlakyDims) && Answers(dev, SignalFlag)
    && Answers(dev, ColorspaceCode) && Answers(dev, FormatCode)
    && (ReadMem(dev, FlakyDims) != [] && ReadMem(dev, SignalFlag) != [] ==>
          ReadMem(dev, ColorspaceCode) != [] && ReadMem(dev, FormatCode) != [])
  }

  function DecodeFlaky(dev: Device, s: Snapshot): (d: Decoded)
    requires FlakyDefined(dev)
    ensures d.ok <==> ReadMem(dev, FlakyDims) != [] && ReadMem(dev, SignalFlag) != []
    ensures ReadMem(dev, FlakyDims) == [] ==> d.snap == s
    ensures ReadMem(dev, FlakyDims) != [] ==> var dims := ReadMem(dev, FlakyDims);
      d.snap.width == LittleEndian16(dims[0], dims[1]) && d.snap.height == LittleEndian16(dims[2], dims[3])
    ensures !d.ok ==> d.snap.(width := s.width, height := s.height) == s
    ensures d.snap.time == s.time && d.snap.frameId == s.frameId
    ensures d.ok ==>
      && d.snap.signal == SignalWhenZero(ReadMem(dev, SignalFlag)[0])
      && d.snap.colorspace == ColorspaceName(ReadMem(dev, ColorspaceCode)[0])
      && d.snap.format == FormatName(ReadMem(dev, FormatCode)[0]).GetOr(s.format)
  {
    var dims := ReadMem(dev, FlakyDims);
    if dims == [] then Decoded(false, s)
    else
      var sized := s.(width := LittleEndian16(dims[0], dims[1]),
                      height := LittleEndian16(dims[2], dims[3]));
      var flag := ReadMem(dev, SignalFlag);
      if flag == [] then Decoded(false, sized)
      else
        var cs := ReadMem(dev, ColorspaceCode);
        var fmt := ReadMem(dev, FormatCode);
        var coloured := sized.(signal := SignalWhenZero(flag[0]), colorspace := ColorspaceName(cs[0]));
        Decoded(true, match FormatName(fmt[0])
                      case Some(f) => coloured.(format := f)
                      case None => coloured)
  }

  method ReadFlaky(dev: Device, output: OutputData) returns (ok: bool)
    requires FlakyDefined(dev)
    modifies output
    ensures Decoded(ok, output.Value()) == DecodeFlaky(dev, old(output.Value()))
  {
    var buf := ReadMem(dev, FlakyDims);
    if |buf| == 0 {
      return false;
    }
    output.width := LittleEndian16(buf[0], buf[1]);
    output.height := LittleEndian16(buf[2], buf[3]);

    buf := ReadMem(dev, SignalFlag);
    if |buf| == 0 {
      return false;
    }
    if buf[0] == 0 {
      output.signal := Yes;
    } else {
      output.signal := No;
    }

    buf := ReadMem(dev, ColorspaceCode);
    if buf[0] == 0 {
      output.colorspace := "RGB";
    } else if buf[0] == 1 {
      output.colorspace := "Y422";
    } else {
      output.colorspace := "Y444";
    }

    buf := ReadMem(dev, FormatCode);
    if buf[0] == 0 {
      output.format := "DVI";
    } else if buf[0] == 2 {
      output.format := "HDMI";
    }
    return true;
  }

  // ---------------------------------------------------------------------
  // unknown: an 8-byte read at 0xf606 and the flaky signal flag

  predicate UnknownDefined(dev: Device)
  {
    Answers(dev, UnknownDims) && Answers(dev, SignalFlag)
  }

  function DecodeUnknown(dev: Device, s: Snapshot): (d: Decoded)
    requires UnknownDefined(dev)
    ensures d.ok <==> ReadMem(dev, UnknownDims) != [] && ReadMem(dev, SignalFlag) != []
    ensures ReadMem(dev, UnknownDims) == [] ==> d.snap == s
    ensures ReadMem(dev, UnknownDims) != [] ==> var dims := ReadMem(dev, UnknownDims);
      d.snap.width == LittleEndian16(dims[0], dims[1]) && d.snap.height == LittleEndian16(dims[6], dims[7])
    ensures !d.ok ==> d.snap.(width := s.width, height := s.height) == s
    ensures d.ok ==> d.snap == s.(width := d.snap.width, height := d.snap.height, signal := d.snap.signal)
    ensures d.ok ==> d.snap.signal == SignalWhenZero(ReadMem(dev, SignalFlag)[0])
  {
    var dims := ReadMem(dev, UnknownDims);
    if dims == [] then Decoded(false, s)
    else
      var sized := s.(width := LittleEndian16(dims[0], dims[1]),
                      height := LittleEndian16(dims[6], dims[7]));
      var flag := ReadMem(dev, SignalFlag);
      if flag == [] then Decoded(false, sized)
      else Decoded(true, sized.(signal := SignalWhenZero(flag[0])))
  }

  method ReadUnknown(dev: Device, output: OutputData) returns (ok: bool)
    requires UnknownDefined(dev)
    modifies output
    ensures Decoded(ok, output.Value()) == DecodeUnknown(dev, old(output.Value()))
  {
    var buf := ReadMem(dev, UnknownDims);
    if |buf| == 0 {
      return false;
    }
    output.width := LittleEndian16(buf[0], buf[1]);
    output.height := LittleEndian16(buf[6], buf[7]);

    buf := ReadMem(dev, SignalFlag);
    if |buf| == 0 {
      return false;
    }
    if buf[0] == 0 {
      output.signal := Yes;
    } else {
      output.signal := No;
    }
    return true;
  }

  // ---------------------------------------------------------------------
  // fazant: a fixed stub

  function DecodeFazant(s: Snapshot): (d: Decoded)
    ensures d.ok
    ensures d.snap.width == 42 && d.snap.height == 42 && d.snap.signal == FazantSignal
    ensures d.snap.(width := s.width, height := s.height, signal := s.signal) == s
  {
    Decoded(true, s.(width := 42, height := 42, signal := FazantSignal))
  }

  method ReadFazant(output: OutputData) returns (ok: bool)
    modifies output
    ensures Decoded(ok, output.Value()) == DecodeFazant(old(output.Value()))
  {
    output.width := 42;
    output.height := 42;
    output.signal := FazantSignal;
    return true;
  }

  /** Calling the stub again on its own result changes nothing. */
  lemma FazantIdempotent(s: Snapshot)
    ensures DecodeFazant(DecodeFazant(s).snap) == DecodeFazant(s)
  {
  }

  // ---------------------------------------------------------------------
  // bertold: one patched firmware call at one of two entry addresses

  function EntryAddress(beforeScaler: bool): int
  {
    if beforeScaler then BeforeScalerEntry else AfterScalerEntry
  }

  function DecodeBertold(dev: Device, s: Snapshot, beforeScaler: bool): (d: Decoded)
    ensures d.ok <==> (if beforeScaler then 0xf41e else 0xf406) in dev.exec
    ensures !d.ok ==> d.snap == s
    ensures d.ok ==> var r := dev.exec[EntryAddress(beforeScaler)];
      d.snap == s.(width := LittleEndian16(r.r2, r.r3), height := LittleEndian16(r.r4, r.r5),
                   signal := SignalWhenZero(r.r6), frameId := r.a as int)
    ensures d.ok ==> d.snap.width < 0x1_0000 && d.snap.height < 0x1_0000 && d.snap.signal in {Yes, No}
  {
    match PatchExecFunc(dev, EntryAddress(beforeScaler))
    case None => Decoded(false, s)
    case Some(r) =>
      Decoded(true, s.(width := LittleEndian16(r.r2, r.r3), height := LittleEndian16(r.r4, r.r5),
                       signal := SignalWhenZero(r.r6), frameId := r.a as int))
  }

  method ReadBertold(dev: Device, output: OutputData, beforeScaler: bool) returns (ok: bool)
    modifies output
    ensures Decoded(ok, output.Value()) == DecodeBertold(dev, old(output.Value()), beforeScaler)
  {
    var addr := BeforeScalerEntry;
    if !beforeScaler {
      addr := AfterScalerEntry;
    }
    var resp := PatchExecFunc(dev, addr);
    if resp.None? {
      return false;
    }
    var r := resp.value;
    output.width := LittleEndian16(r.r2, r.r3);
    output.height := LittleEndian16(r.r4, r.r5);
    if r.r6 == 0 {
      output.signal := Yes;
    } else {
      output.signal := No;
    }
    output.frameId := r.a as int;
    return true;
  }

  // ---------------------------------------------------------------------
  // the strategies side by side

  datatype Decoder = Murderous | Flaky | Unknown | Fazant | Bertold(beforeScaler: bool)

  /** What each strategy needs of the chip for its reads to be well defined. */
  predicate Supported(decoder: Decoder, dev: Device)
  {
    match decoder
    case Murderous => Answers(dev, ModeWindow)
    case Flaky => FlakyDefined(dev)
    case Unknown => UnknownDefined(dev)
    case Fazant => true
    case Bertold(_) => true
  }

  /** The contract all strategies share: none touches the time stamp, a failed
      read has written at most the dimensions, only bertold writes the frame id
      and only flaky writes colour space and format. */
  function Decode(decoder: Decoder, dev: Device, s: Snapshot): (d: Decoded)
    requires Supported(decoder, dev)
    ensures d.snap.time == s.time
    ensures !d.ok ==> d.snap.(width := s.width, height := s.height) == s
    ensures decoder.Fazant? ==> d.ok
    ensures !decoder.Bertold? ==> d.snap.frameId == s.frameId
    ensures !decoder.Flaky? ==> d.snap.colorspace == s.colorspace && d.snap.format == s.format
  {
    match decoder
    case Murderous => DecodeMurderous(dev, s)
    case Flaky => DecodeFlaky(dev, s)
    case Unknown => DecodeUnknown(dev, s)
    case Fazant => DecodeFazant(s)
    case Bertold(beforeScaler) => DecodeBertold(dev, s, beforeScaler)
  }

  method ReadWith(decoder: Decoder, dev: Device, output: OutputData) returns (read: bool)
    requires Supported(decoder, dev)
    modifies output
    ensures Decoded(read, output.Value()) == Decode(decoder, dev, old(output.Value()))
  {
    match decoder
    case Murderous => read := ReadMurderous(dev, output);
    case Flaky => read := ReadFlaky(dev, output);
    case Unknown => read := ReadUnknown(dev, output);
    case Fazant => read := ReadFazant(output);
    case Bertold(beforeScaler) => read := ReadBertold(dev, output, beforeScaler);
  }

  /** flaky and unknown read the same signal flag, so when both succeed on the
      same chip state they report the same signal. */
  lemma FlakyUnknownAgreeOnSignal(dev: Device, s: Snapshot, t: Snapshot)
    requires FlakyDefined(dev) && UnknownDefined(dev)
    requires DecodeFlaky(dev, s).ok && DecodeUnknown(dev, t).ok
    ensures DecodeFlaky(dev, s).snap.signal == DecodeUnknown(dev, t).snap.signal
  {
  }

  /** The 1920x1080 example: dimension bytes 80 07 38 04. */
  lemma FlakyFullHd(dev: Device, s: Snapshot)
    requires FlakyDefined(dev)
    requires ReadMem(dev, FlakyDims) == [0x80, 0x07, 0x38, 0x04]
    ensures DecodeFlaky(dev, s).snap.width == 1920
    ensures DecodeFlaky(dev, s).snap.height == 1080
  {
  }
}
