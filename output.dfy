/** The status record every decoder fills in (`OutputData`), as a mutable
    object and as the value it holds. */
module Output {

  /** The seven fields of `OutputData`, as one value. */
  datatype Snapshot = Snapshot(
    width: int,
    height: int,
    signal: string,
    time: int,
    frameId: int,
    colorspace: string,
    format: string)

  /** `OutputData{}`: every field at its zero value. */
  const Zero := Snapshot(0, 0, "", 0, 0, "", "")

  const Yes := "yes"
  const No := "no"
  const Colorspaces: set<string> := {"RGB", "Y422", "Y444"}
  const Formats: set<string> := {"DVI", "HDMI"}

  /** The caller-owned record the decoders write field by field. */
  class OutputData {
    var width: int
    var height: int
    var signal: string
    var time: int
    var frameId: int
    var colorspace: string
    var format: string

    constructor ()
      ensures Value() == Zero
    {
      width, height, signal := 0, 0, "";
      time, frameId := 0, 0;
      colorspace, format := "", "";
    }

    function Value(): Snapshot
      reads this
    {
      Snapshot(width, height, signal, time, frameId, colorspace, format)
    }
  }
}
