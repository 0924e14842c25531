/** The `status` command's polling loop: choose a decoder by region name,
    read into a fresh record each cycle, emit it on success, and either stop,
    exit with status 1, or keep polling. The loop in loop mode never ends; the
    model observes it over a finite sequence of cycles, each given by the
    clock reading that stamps it and what the chip answers during it. */
module Poller {
  import opened Chip
  import opened Output
  import opened Decoders

  /** The command's options. `json` and `filename` only choose how an emitted
      record is written out, which is not part of this model. `loop` is the
      sleep interval between cycles; zero means a single read. */
  datatype StatusCmd = StatusCmd(json: bool, loop: int, filename: string, region: string)

  /** The six region names the command recognises. */
  const RegionNames: seq<string> := ["murderous", "flaky", "unknown", "fazant", "bertold", "bertold_scaler"]

  function Name(decoder: Decoder): string
  {
    match decoder
    case Murderous => "murderous"
    case Flaky => "flaky"
    case Unknown => "unknown"
    case Fazant => "fazant"
    case Bertold(beforeScaler) => if beforeScaler then "bertold" else "bertold_scaler"
  }

  /** The region switch: each listed name selects the decoder it names, and
      every other name falls back to flaky. */
  function Select(region: string): (decoder: Decoder)
    ensures region in RegionNames ==> Name(decoder) == region
    ensures region !in RegionNames ==> decoder == Flaky
  {
    if region == "murderous" then Murderous
    else if region == "flaky" then Flaky
    else if region == "unknown" then Unknown
    else if region == "fazant" then Fazant
    else if region == "bertold" then Bertold(true)
    else if region == "bertold_scaler" then Bertold(false)
    else Flaky
  }

  /** Every decoder is reachable by its own name. */
  lemma SelectName(decoder: Decoder)
    ensures Name(decoder) in RegionNames
    ensures Select(Name(decoder)) == decoder
  {
  }

  /** What happens after one read attempt. */
  datatype Outcome = Stop | Exit(code: int) | Continue

  function Next(read: bool, loop: int): (o: Outcome)
    ensures o == Continue <==> loop != 0
    ensures o == Stop <==> read && loop == 0
    ensures o == Exit(1) <==> !read && loop == 0
  {
    if !read then
      if loop == 0 then Exit(1) else Continue
    else if loop == 0 then Stop
    else Continue
  }

  /** One cycle: the clock reading and what the chip answers. */
  datatype Cycle = Cycle(now: int, dev: Device)

  /** How the command ended: it returned normally (status 0), it exited with a
      status, or it was still polling when the observed cycles ran out. */
  datatype Termination = Finished | Exited(code: int) | Polling

  /** The records the command emitted, in order, and how it ended. */
  datatype Trace = Trace(emitted: seq<Snapshot>, term: Termination)

  /** The record a cycle starts from: all zero but the time stamp. */
  function Fresh(now: int): Snapshot
  {
    Zero.(time := now)
  }

  predicate AllSupported(decoder: Decoder, cycles: seq<Cycle>)
  {
    forall i :: 0 <= i < |cycles| ==> Supported(decoder, cycles[i].dev)
  }

  function DecodeCycle(decoder: Decoder, c: Cycle): Decoded
    requires Supported(decoder, c.dev)
  {
    Decode(decoder, c.dev, Fresh(c.now))
  }

  /** What the selected decoder makes of each observed cycle, in order. */
  function Outcomes(decoder: Decoder, cycles: seq<Cycle>): (results: seq<Decoded>)
    requires AllSupported(decoder, cycles)
    ensures |results| == |cycles|
    decreases |cycles|
  {
    if cycles == [] then [] else [DecodeCycle(decoder, cycles[0])] + Outcomes(decoder, cycles[1..])
  }

  lemma {:induction false} OutcomeAt(decoder: Decoder, cycles: seq<Cycle>, i: nat)
    requires AllSupported(decoder, cycles) && i < |cycles|
    ensures Outcomes(decoder, cycles)[i] == DecodeCycle(decoder, cycles[i])
    decreases i
  {
    if i > 0 {
      OutcomeAt(decoder, cycles[1..], i - 1);
    }
  }

  /** The command's behaviour, given the outcome of each cycle's read. The
      loop only needs to know whether a read succeeded and what it produced. */
  function Poll(loop: int, results: seq<Decoded>): (t: Trace)
    ensures |t.emitted| <= |results|
    ensures t.term.Exited? ==> t.term.code == 1 && t.emitted == [] && loop == 0
    ensures t.term.Finished? ==> |t.emitted| == 1 && loop == 0
    decreases |results|
  {
    if results == [] then Trace([], Polling)
    else
      var d := results[0];
      var shown := if d.ok then [d.snap] else [];
      match Next(d.ok, loop)
      case Stop => Trace(shown, Finished)
      case Exit(code) => Trace([], Exited(code))
      case Continue =>
        var rest := Poll(loop, results[1..]);
        Trace(shown + rest.emitted, rest.term)
  }

  /** The records of the successful reads, in order. */
  function Successes(results: seq<Decoded>): seq<Snapshot>
    decreases |results|
  {
    if results == [] then []
    else (if results[0].ok then [results[0].snap] else []) + Successes(results[1..])
  }

  /** Records emitted before a trace continues with `t`. */
  function Prepend(emitted: seq<Snapshot>, t: Trace): Trace
  {
    Trace(emitted + t.emitted, t.term)
  }

  lemma PrependPrepend(a: seq<Snapshot>, b: seq<Snapshot>, t: Trace)
    ensures Prepend(a, Prepend(b, t)) == Prepend(a + b, t)
  {
    assert a + (b + t.emitted) == (a + b) + t.emitted;
  }

  /** One step of the loop, from cycle `i` on. */
  lemma PollStep(loop: int, results: seq<Decoded>, i: nat)
    requires i < |results|
    ensures !results[i].ok && loop == 0 ==> Poll(loop, results[i..]) == Trace([], Exited(1))
    ensures results[i].ok && loop == 0 ==> Poll(loop, results[i..]) == Trace([results[i].snap], Finished)
    ensures loop != 0 ==>
              Poll(loop, results[i..]) == Prepend(if results[i].ok then [results[i].snap] else [], Poll(loop, results[i + 1..]))
  {
    assert results[i..][0] == results[i];
    assert results[i..][1..] == results[i + 1..];
  }

  /** One read attempt: a fresh zero record, stamped with the cycle's time,
      filled in by the selected decoder. */
  method Attempt(decoder: Decoder, c: Cycle) returns (read: bool, snap: Snapshot)
    requires Supported(decoder, c.dev)
    ensures Decoded(read, snap) == DecodeCycle(decoder, c)
  {
    var output := new OutputData();
    output.time := c.now;
    read := ReadWith(decoder, c.dev, output);
    snap := output.Value();
  }

  /** The `StatusCmd.Run` loop over the observed cycles. */
  method Run(cmd: StatusCmd, cycles: seq<Cycle>) returns (emitted: seq<Snapshot>, term: Termination)
    requires AllSupported(Select(cmd.region), cycles)
    ensures Trace(emitted, term) == Poll(cmd.loop, Outcomes(Select(cmd.region), cycles))
  {
    var decoder := Select(cmd.region);
    ghost var results := Outcomes(decoder, cycles);
    emitted, term := [], Polling;
    var next := true;
    var i := 0;
    while next && i < |cycles|
      invariant 0 <= i <= |cycles|
      invariant next ==> term == Polling
      invariant next ==> Poll(cmd.loop, results) == Prepend(emitted, Poll(cmd.loop, results[i..]))
      invariant !next ==> Trace(emitted, term) == Poll(cmd.loop, results)
    {
      var read, snap := Attempt(decoder, cycles[i]);
      OutcomeAt(decoder, cycles, i);
      PollStep(cmd.loop, results, i);
      i := i + 1;

      if !read {
        if cmd.loop == 0 {
          term := Exited(1);
          return;
        } else {
          assert emitted + [] == emitted;
          PrependPrepend(emitted, [], Poll(cmd.loop, results[i..]));
          continue;
        }
      }

      PrependPrepend(emitted, [snap], Poll(cmd.loop, results[i..]));
      emitted := emitted + [snap];

      if cmd.loop == 0 {
        next := false;
        term := Finished;
      }
    }
    if next {
      assert results[i..] == [];
    }
  }

  // ---------------------------------------------------------------------
  // properties of the loop

  /** A single read ends the command after the first cycle: with the record
      on success, with status 1 and nothing emitted on failure. */
  lemma SingleShot(results: seq<Decoded>)
    requires results != []
    ensures Poll(0, results) == if results[0].ok then Trace([results[0].snap], Finished) else Trace([], Exited(1))
  {
  }

  /** In loop mode failures are swallowed: the command never ends, and it
      emits exactly the records of the successful cycles. */
  lemma {:induction false} LoopNeverEnds(loop: int, results: seq<Decoded>)
    requires loop != 0
    ensures Poll(loop, results).term == Polling
    ensures Poll(loop, results).emitted == Successes(results)
    decreases |results|
  {
    if results != [] {
      LoopNeverEnds(loop, results[1..]);
    }
  }

  /** `s` is the record of some successful read. */
  predicate Produced(results: seq<Decoded>, s: Snapshot)
  {
    exists j :: 0 <= j < |results| && results[j].ok && results[j].snap == s
  }

  /** The loop emits only records that some read produced. */
  lemma {:induction false} EmittedAreSuccesses(loop: int, results: seq<Decoded>)
    ensures forall k :: 0 <= k < |Poll(loop, results).emitted| ==> Produced(results, Poll(loop, results).emitted[k])
    decreases |results|
  {
    if results != [] {
      var t := Poll(loop, results);
      var rest := Poll(loop, results[1..]);
      EmittedAreSuccesses(loop, results[1..]);
      forall k | 0 <= k < |t.emitted|
        ensures Produced(results, t.emitted[k])
      {
        if results[0].ok && k == 0 {
          assert results[0].snap == t.emitted[k];
        } else {
          var k' := if results[0].ok then k - 1 else k;
          assert t.emitted[k] == rest.emitted[k'];
          assert Produced(results[1..], rest.emitted[k']);
          var j' :| 0 <= j' < |results| - 1 && results[1..][j'].ok && results[1..][j'].snap == rest.emitted[k'];
          assert results[j' + 1].ok && results[j' + 1].snap == t.emitted[k];
        }
      }
    } else {
      assert Poll(loop, results).emitted == [];
    }
  }

  /** The fields a decoder does not populate keep their zero value. */
  predicate UnpopulatedZero(decoder: Decoder, s: Snapshot)
  {
    && (!decoder.Bertold? ==> s.frameId == 0)
    && (!decoder.Flaky? ==> s.colorspace == "" && s.format == "")
  }

  /** `s` is what the decoder read in some successful cycle, stamped with
      that cycle's time. */
  predicate ReadInCycle(decoder: Decoder, cycles: seq<Cycle>, s: Snapshot)
    requires AllSupported(decoder, cycles)
  {
    exists j :: 0 <= j < |cycles| && DecodeCycle(decoder, cycles[j]) == Decoded(true, s) && s.time == cycles[j].now
  }

  /** Every emitted record is the record a successful cycle read, carries that
      cycle's time stamp, and keeps the zero value in the fields its decoder
      does not populate. */
  lemma EmittedRecords(decoder: Decoder, loop: int, cycles: seq<Cycle>)
    requires AllSupported(decoder, cycles)
    ensures forall k :: 0 <= k < |Poll(loop, Outcomes(decoder, cycles)).emitted| ==>
      && ReadInCycle(decoder, cycles, Poll(loop, Outcomes(decoder, cycles)).emitted[k])
      && UnpopulatedZero(decoder, Poll(loop, Outcomes(decoder, cycles)).emitted[k])
  {
    var results := Outcomes(decoder, cycles);
    EmittedAreSuccesses(loop, results);
    forall k | 0 <= k < |Poll(loop, results).emitted|
      ensures ReadInCycle(decoder, cycles, Poll(loop, results).emitted[k])
      ensures UnpopulatedZero(decoder, Poll(loop, results).emitted[k])
    {
      assert Produced(results, Poll(loop, results).emitted[k]);
      var j :| 0 <= j < |results| && results[j].ok && results[j].snap == Poll(loop, results).emitted[k];
      OutcomeAt(decoder, cycles, j);
      assert DecodeCycle(decoder, cycles[j]) == Decoded(true, Poll(loop, results).emitted[k]);
    }
  }

  /** Region "unknown", a single read, and an empty first read: status 1 and
      nothing emitted. */
  lemma UnknownSingleShotFails(c: Cycle)
    requires UnknownDefined(c.dev) && ReadMem(c.dev, UnknownDims) == []
    ensures Poll(0, Outcomes(Select("unknown"), [c])) == Trace([], Exited(1))
  {
  }

  /** Region "flaky" in loop mode, a failed cycle followed by a good one: one
      record emitted, from the second cycle, and the command keeps polling. */
  lemma FlakyLoopRecovers(bad: Cycle, good: Cycle)
    requires FlakyDefined(bad.dev) && FlakyDefined(good.dev)
    requires ReadMem(bad.dev, FlakyDims) == []
    requires ReadMem(good.dev, FlakyDims) != [] && ReadMem(good.dev, SignalFlag) != []
    ensures Poll(50, Outcomes(Select("flaky"), [bad, good])) == Trace([DecodeCycle(Flaky, good).snap], Polling)
  {
  }
}
