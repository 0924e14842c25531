/** The two ways the status decoders reach the MS213x chip: raw memory reads
    (`readmem`) and the patched firmware call (`PatchExecFunc`). Both are
    foreign calls; a `Device` value fixes what each of them answers during one
    poll cycle, so the decoders can be stated as functions of it. */
module Chip {

  newtype byte = x: int | 0 <= x < 256

  datatype Option<T> = None | Some(value: T) {
    function GetOr(default: T): T
    {
      match this
      case Some(v) => v
      case None => default
    }
  }

  /** The `Region` record handed to `readmem`: a memory space name and an address. */
  datatype Region = Region(name: string, addr: int)

  /** One `readmem` request: a region and the number of bytes asked for. */
  datatype Window = Window(region: Region, len: nat)

  /** The registers the patched firmware call hands back. Their width is not
      visible to the decoders; they are taken to be 8-bit. */
  datatype Registers = Registers(r2: byte, r3: byte, r4: byte, r5: byte, r6: byte, a: byte)

  /** What the chip answers in one cycle: the bytes each memory read returns
      (a window that is not in `mem` reads as empty, i.e. unavailable) and the
      registers each firmware entry address returns (an address that is not in
      `exec` makes the call fail). */
  datatype Device = Device(mem: map<Window, seq<byte>>, exec: map<int, Registers>)

  function ReadMem(dev: Device, w: Window): seq<byte>
  {
    if w in dev.mem then dev.mem[w] else []
  }

  /** A read either fails (empty buffer) or delivers the full requested length. */
  predicate Answers(dev: Device, w: Window)
  {
    |ReadMem(dev, w)| == 0 || |ReadMem(dev, w)| == w.len
  }

  function PatchExecFunc(dev: Device, addr: int): Option<Registers>
  {
    if addr in dev.exec then Some(dev.exec[addr]) else None
  }

  /** The `hi*256 + lo` pairs the decoders read: the result is a 16-bit value
      whose low byte is `lo` and whose high byte is `hi`. */
  function LittleEndian16(lo: byte, hi: byte): (v: nat)
    ensures v < 0x1_0000
    ensures v % 256 == lo as int && v / 256 == hi as int
  {
    hi as int * 256 + lo as int
  }
}
