/** The viewer's playback state (class `QLogViewer` without its widgets): a
    step clamped to [0, MAXIMUM_STEP], a running flag, and the stream cursor
    the timer advances by that step. The timeline's start and end markers are
    widget values and are passed in by the slot that reads them. */
module Playback {

  import opened Pocolog
  import opened LogStreams
  import opened LogReaders

  /** `MAXIMUM_STEP`, the step box's maximum; its minimum is 0. */
  const MaximumStep: int := 15
  const MinimumStep: int := 0

  predicate InStepRange(step: int) {
    MinimumStep <= step <= MaximumStep
  }

  /** The conversion `(size_t)` of an `int` marker: a negative value wraps
      around modulo 2^64. */
  function SizeT(x: int32): nat {
    if x < 0 then x + 0x1_0000_0000_0000_0000 else x
  }

  /** The back button: one step slower, never below 0. */
  function StepBack(step: int): int {
    if step > 0 then step - 1 else step
  }

  /** The next button: one step faster, never above `MaximumStep`. */
  function StepForward(step: int): int {
    if step < MaximumStep then step + 1 else step
  }

  lemma StepButtonsKeepRange(step: int)
    requires InStepRange(step)
    ensures InStepRange(StepBack(step)) && InStepRange(StepForward(step))
  {
  }

  /** Inside the range the two buttons undo each other. */
  lemma StepButtonsAreInverse(step: int)
    requires InStepRange(step)
    ensures step < MaximumStep ==> StepBack(StepForward(step)) == step
    ensures step > MinimumStep ==> StepForward(StepBack(step)) == step
  {
  }

  /** The step after `k` presses of the back button. */
  function StepBackTimes(step: int, k: nat): int
    decreases k
  {
    if k == 0 then step else StepBackTimes(StepBack(step), k - 1)
  }

  /** The step after `k` presses of the next button. */
  function StepForwardTimes(step: int, k: nat): int
    decreases k
  {
    if k == 0 then step else StepForwardTimes(StepForward(step), k - 1)
  }

  /** However often the back button is pressed, the step stays in range, and
      enough presses bring it to 0 and hold it there. */
  lemma {:induction false} BackButtonSaturates(step: int, k: nat)
    requires InStepRange(step)
    ensures InStepRange(StepBackTimes(step, k))
    ensures StepBackTimes(step, k) == if k <= step then step - k else 0
    decreases k
  {
    if k > 0 {
      BackButtonSaturates(StepBack(step), k - 1);
    }
  }

  /** However often the next button is pressed, the step stays in range, and
      enough presses bring it to `MaximumStep` and hold it there. */
  lemma {:induction false} NextButtonSaturates(step: int, k: nat)
    requires InStepRange(step)
    ensures InStepRange(StepForwardTimes(step, k))
    ensures StepForwardTimes(step, k) == if step + k <= MaximumStep then step + k else MaximumStep
    decreases k
  {
    if k > 0 {
      NextButtonSaturates(StepForward(step), k - 1);
    }
  }

  /** The move `updateSample` makes before it calls the viewer's `update()`:
      an index below both the sample count and the end marker moves on by the
      step; any other index, including one already past a bound, stays. */
  function Advance(index: nat, step: nat, total: nat, endMarker: int32): nat {
    if index < total && index < SizeT(endMarker) then index + step else index
  }

  /** `updateSample`'s own move takes the index forward by the step exactly
      when the index is below both the sample count and the end marker, and
      never moves it back. */
  lemma AdvanceMovesOnlyBelowBounds(index: nat, step: nat, total: nat, endMarker: int32)
    ensures Advance(index, step, total, endMarker) >= index
    ensures Advance(index, step, total, endMarker) > index <==> step > 0 && index < total && index < SizeT(endMarker)
    ensures Advance(index, step, total, endMarker) == index || Advance(index, step, total, endMarker) == index + step
  {
  }

  function Min(a: int, b: int): int {
    if a < b then a else b
  }

  function Max(a: int, b: int): int {
    if a < b then b else a
  }

  /** The index after `k` calls of `updateSample`, counting only its own move. */
  function Ticks(index: nat, step: nat, total: nat, endMarker: int32, k: nat): nat
    decreases k
  {
    if k == 0 then index else Ticks(Advance(index, step, total, endMarker), step, total, endMarker, k - 1)
  }

  /** However often `updateSample` moves the index, it overshoots the smaller
      of the sample count and the end marker by less than one step, unless it
      started past that already. */
  lemma {:induction false} PlaybackStopsNearEnd(index: nat, step: nat, total: nat, endMarker: int32, k: nat)
    ensures Ticks(index, step, total, endMarker, k) <= Max(index, Min(total, SizeT(endMarker)) - 1 + step)
    ensures Ticks(index, step, total, endMarker, k) >= index
    decreases k
  {
    if k > 0 {
      var next := Advance(index, step, total, endMarker);
      PlaybackStopsNearEnd(next, step, total, endMarker, k - 1);
    }
  }

  /** One whole tick of a viewer whose `update()` reads one sample with
      `nextSample`, as the sonar viewer's does: after `updateSample`'s move,
      `LogStream::next` reads at the cursor and moves it on by one more. */
  function ReadingTick(index: nat, step: nat, total: nat, endMarker: int32): nat {
    var moved := Advance(index, step, total, endMarker);
    if index < total && index < SizeT(endMarker) then moved + 1 else moved
  }

  /** The index after `k` whole ticks of such a viewer. */
  function ReadingTicks(index: nat, step: nat, total: nat, endMarker: int32, k: nat): nat
    decreases k
  {
    if k == 0 then index else ReadingTicks(ReadingTick(index, step, total, endMarker), step, total, endMarker, k - 1)
  }

  /** With the read of such a viewer each moving tick goes one further, so the
      index overshoots the smaller bound by at most the step, unless it started
      past that already. */
  lemma {:induction false} ReadingPlaybackStopsNearEnd(index: nat, step: nat, total: nat, endMarker: int32, k: nat)
    ensures ReadingTicks(index, step, total, endMarker, k) <= Max(index, Min(total, SizeT(endMarker)) + step)
    ensures ReadingTicks(index, step, total, endMarker, k) >= index
    decreases k
  {
    if k > 0 {
      var next := ReadingTick(index, step, total, endMarker);
      ReadingPlaybackStopsNearEnd(next, step, total, endMarker, k - 1);
    }
  }

  /** Where the play button puts the index: up to the start marker if below
      it, otherwise where it is. */
  function PlayFrom(index: nat, startMarker: int32): nat {
    if index < SizeT(startMarker) then SizeT(startMarker) else index
  }

  /** Play never moves the index back, leaves it at or past the start marker,
      and puts it at one of the two. */
  lemma PlayFromNeverLowers(index: nat, startMarker: int32)
    ensures PlayFrom(index, startMarker) >= index
    ensures PlayFrom(index, startMarker) >= SizeT(startMarker)
    ensures PlayFrom(index, startMarker) == index || PlayFrom(index, startMarker) == SizeT(startMarker)
  {
  }

  class LogViewer {
    var reader: LogReader?
    var streamName: string
    var stream: LogStream
    var rate: int
    var step: int
    var running: bool

    ghost predicate Valid()
      reads this
    {
      InStepRange(step)
    }

    constructor ()
      ensures Valid() && step == 0 && !running && reader == null
      ensures fresh(stream) && stream.data == null
    {
      reader := null;
      streamName := "";
      stream := new LogStream.Empty();
      step := 0;
      running := false;
    }

    /** Binds the viewer to `streamName` of `reader`; a name the reader does
        not resolve throws after the reader and the name are recorded. */
    method Construct(reader: LogReader, streamName: string, rate: int) returns (ok: bool)
      modifies this
      ensures ok <==> streamName in reader.logFile.streams
      ensures this.reader == reader && this.streamName == streamName
      ensures ok ==> fresh(stream) && stream.data == reader.logFile.streams[streamName] && stream.current == 0
      ensures ok ==> this.rate == rate
      ensures !ok ==> stream == old(stream) && this.rate == old(this.rate)
      ensures step == old(step) && running == old(running)
    {
      this.reader := reader;
      this.streamName := streamName;
      var s := reader.Stream(streamName);
      if s.None? {
        return false;
      }
      stream := s.value;
      this.rate := rate;
      ok := true;
    }

    /** The timer slot: advances the cursor by the step while it is below
        both the sample count and the end marker. The step buttons and the
        step box keep the step in range (`Valid`), so it is never negative. */
    method UpdateSample(endMarker: int32)
      requires Valid() && stream.data != null
      modifies stream
      ensures stream.current == Advance(old(stream.current), step, stream.TotalSamples(), endMarker)
    {
      if stream.CurrentSampleIndex() < stream.TotalSamples() && stream.CurrentSampleIndex() < SizeT(endMarker) {
        stream.SetCurrentSampleIndex(stream.CurrentSampleIndex() + step);
      }
    }

    method BackButtonClicked()
      modifies this`step
      ensures step == StepBack(old(step))
      ensures old(Valid()) ==> Valid()
    {
      if step > 0 {
        step := step - 1;
      }
    }

    method NextButtonClicked()
      modifies this`step
      ensures step == StepForward(old(step))
      ensures old(Valid()) ==> Valid()
    {
      if step < MaximumStep {
        step := step + 1;
      }
    }

    method PlayButtonClicked(startMarker: int32)
      modifies this`running, stream
      ensures running
      ensures stream.current == PlayFrom(old(stream.current), startMarker)
    {
      if stream.CurrentSampleIndex() < SizeT(startMarker) {
        stream.SetCurrentSampleIndex(SizeT(startMarker));
      }
      running := true;
    }

    method StopButtonClicked()
      modifies this`running
      ensures !running
    {
      running := false;
    }

    /** The step box's value-changed slot. Once the viewer is constructed the
        box only reports values of [0, MAXIMUM_STEP], and then the step stays
        in range. */
    method SetStepValue(value: int)
      modifies this`step
      ensures step == value
      ensures Valid() <==> InStepRange(value)
    {
      step := value;
    }

    /** The timeline's slider-moved slot: the cursor jumps to the slider. */
    method SliderMoved(index: int32)
      modifies stream
      ensures stream.current == SizeT(index)
    {
      stream.SetCurrentSampleIndex(SizeT(index));
    }
  }
}
