/** What exporting a range of one stream produces, as a function of the
    source file, the stream's file index and decode path, and the progress
    callback's answers. The exporting loop itself is `WriteSamples`, which
    `LogReader.ExportStream` runs and which is proved to produce exactly this. */
module Export {

  import opened Pocolog

  /** The errors that abort an export; each is thrown by the exporter or by
      the library it calls. */
  datatype ExportError =
    | CannotOpenLogFile
    | StreamNotFound
    | SampleOutOfIndex(sampleNr: int)
    | HeaderReadFailed(sampleNr: int)
    | PayloadReadFailed(sampleNr: int)

  /** How an export ends: the whole range was visited, the callback asked to
      stop after writing sample `at`, or an error aborted it. */
  datatype ExportStatus = Finished | Stopped(at: int) | Failed(error: ExportError)

  /** What one index of the range contributes. */
  datatype Outcome = Aborted(error: ExportError) | Skipped | Kept(record: Record)

  /** The sample records written after the declaration, the sample numbers
      they come from, and how the loop ended. */
  datatype Run = Run(records: seq<Record>, written: seq<int>, status: ExportStatus)

  /** Index `n` of the range: the header is read `SampleHeaderSize` bytes
      before the payload offset the file index gives, then exactly the
      header's `dataSize` payload bytes at that offset; the decode path then
      decides whether the sample is written, and with what bytes. */
  function VisitSample(src: seq<byte>, ds: InputDataStream, headerOf: seq<byte> -> SampleHeader, n: int): Outcome {
    match ds.SamplePos(n)
    case None => Aborted(SampleOutOfIndex(n))
    case Some(pos) =>
      match ReadAt(src, pos - SampleHeaderSize, SampleHeaderSize)
      case None => Aborted(HeaderReadFailed(n))
      case Some(raw) =>
        var header := headerOf(raw);
        match ReadAt(src, pos, header.dataSize)
        case None => Aborted(PayloadReadFailed(n))
        case Some(buffer) =>
          var (valid, filled) := ds.sampleData(buffer, n);
          if valid then Kept(SampleRecord(0, Realtime(header), Logical(header), filled)) else Skipped
  }

  /** The indices `n` up to `final` - 1, in ascending order. */
  function ExportFrom(
    src: seq<byte>, ds: InputDataStream, headerOf: seq<byte> -> SampleHeader,
    n: int, final: int, fcn: Option<int -> bool>): Run
    decreases final - n
  {
    if n >= final then Run([], [], Finished)
    else
      match VisitSample(src, ds, headerOf, n)
      case Aborted(e) => Run([], [], Failed(e))
      case Skipped => ExportFrom(src, ds, headerOf, n + 1, final, fcn)
      case Kept(rec) =>
        if fcn.Some? && !fcn.value(n) then Run([rec], [n], Stopped(n))
        else
          var rest := ExportFrom(src, ds, headerOf, n + 1, final, fcn);
          Run([rec] + rest.records, [n] + rest.written, rest.status)
  }

  /** `r` behind records and sample numbers already written. */
  function Prepend(records: seq<Record>, written: seq<int>, r: Run): Run {
    Run(records + r.records, written + r.written, r.status)
  }

  /** An aborting index ends the run with its error and nothing more. */
  lemma AbortedStep(
    src: seq<byte>, ds: InputDataStream, headerOf: seq<byte> -> SampleHeader,
    n: int, final: int, fcn: Option<int -> bool>)
    requires n < final && VisitSample(src, ds, headerOf, n).Aborted?
    ensures ExportFrom(src, ds, headerOf, n, final, fcn) ==
      Run([], [], Failed(VisitSample(src, ds, headerOf, n).error))
  {
  }

  /** A kept index whose callback answer is "stop" ends the run with it. */
  lemma StoppedStep(
    src: seq<byte>, ds: InputDataStream, headerOf: seq<byte> -> SampleHeader,
    n: int, final: int, fcn: Option<int -> bool>,
    records: seq<Record>, written: seq<int>, rec: Record)
    requires n < final && VisitSample(src, ds, headerOf, n) == Kept(rec)
    requires fcn.Some? && !fcn.value(n)
    ensures Prepend(records, written, ExportFrom(src, ds, headerOf, n, final, fcn)) ==
      Run(records + [rec], written + [n], Stopped(n))
  {
  }

  /** A kept index whose callback lets the run go on is followed by the rest
      of the range. */
  lemma KeptStep(
    src: seq<byte>, ds: InputDataStream, headerOf: seq<byte> -> SampleHeader,
    n: int, final: int, fcn: Option<int -> bool>,
    records: seq<Record>, written: seq<int>, rec: Record)
    requires n < final && VisitSample(src, ds, headerOf, n) == Kept(rec)
    requires !(fcn.Some? && !fcn.value(n))
    ensures Prepend(records, written, ExportFrom(src, ds, headerOf, n, final, fcn)) ==
      Prepend(records + [rec], written + [n], ExportFrom(src, ds, headerOf, n + 1, final, fcn))
  {
    var rest := ExportFrom(src, ds, headerOf, n + 1, final, fcn);
    assert records + ([rec] + rest.records) == (records + [rec]) + rest.records;
    assert written + ([n] + rest.written) == (written + [n]) + rest.written;
  }

  predicate StrictlyAscending(s: seq<int>) {
    forall i, j :: 0 <= i < j < |s| ==> s[i] < s[j]
  }

  /** The number of indices in [lo, hi). */
  function RangeLength(lo: int, hi: int): nat {
    if lo < hi then hi - lo else 0
  }

  /** A kept sample is written with stream id 0, the header's two timestamps
      and whatever the decode path left in the buffer, where the header sits
      `SampleHeaderSize` bytes before the indexed payload offset and the
      buffer handed to the decode path is exactly the header's `dataSize`
      bytes from that offset. */
  lemma KeptSampleLayout(src: seq<byte>, ds: InputDataStream, headerOf: seq<byte> -> SampleHeader, n: int)
    requires VisitSample(src, ds, headerOf, n).Kept?
    ensures 0 <= n < ds.Size()
    ensures var pos := ds.positions[n];
      && SampleHeaderSize <= pos
      && var header := headerOf(src[pos - SampleHeaderSize..pos]);
      && pos + header.dataSize <= |src|
      && var (valid, filled) := ds.sampleData(src[pos..pos + header.dataSize], n);
      && valid
      && VisitSample(src, ds, headerOf, n).record ==
         SampleRecord(0, Time(header.realtimeSec, header.realtimeUsec), Time(header.timestampSec, header.timestampUsec), filled)
  {
  }

  /** The records are sample records for the written indices, which ascend
      strictly inside [n, final), one record per index, each the one its
      index produces; at most the length of the range is written. */
  lemma {:induction false} RunShape(
    src: seq<byte>, ds: InputDataStream, headerOf: seq<byte> -> SampleHeader,
    n: int, final: int, fcn: Option<int -> bool>)
    ensures var r := ExportFrom(src, ds, headerOf, n, final, fcn);
      && |r.records| == |r.written| <= RangeLength(n, final)
      && StrictlyAscending(r.written)
      && (forall k :: 0 <= k < |r.written| ==> n <= r.written[k] < final)
      && (forall k :: 0 <= k < |r.written| ==>
            VisitSample(src, ds, headerOf, r.written[k]) == Kept(r.records[k]))
      && (forall k :: 0 <= k < |r.records| ==> r.records[k].SampleRecord? && r.records[k].streamId == 0)
    decreases final - n
  {
    if n < final {
      RunShape(src, ds, headerOf, n + 1, final, fcn);
    }
  }

  /** The run ends Finished only after visiting every index of the range: each
      one was written or skipped by the decode path, the written ones are
      exactly those the decode path accepted, and no callback asked to stop. */
  lemma {:induction false} FinishedVisitsWholeRange(
    src: seq<byte>, ds: InputDataStream, headerOf: seq<byte> -> SampleHeader,
    n: int, final: int, fcn: Option<int -> bool>)
    requires ExportFrom(src, ds, headerOf, n, final, fcn).status.Finished?
    ensures var r := ExportFrom(src, ds, headerOf, n, final, fcn);
      && (forall m :: n <= m < final ==> !VisitSample(src, ds, headerOf, m).Aborted?)
      && (forall m :: n <= m < final ==> (m in r.written <==> VisitSample(src, ds, headerOf, m).Kept?))
      && (forall m :: m in r.written ==> fcn.None? || fcn.value(m))
    decreases final - n
  {
    if n < final {
      FinishedVisitsWholeRange(src, ds, headerOf, n + 1, final, fcn);
      RunShape(src, ds, headerOf, n + 1, final, fcn);
    }
  }

  /** A stop happens right after the sample it is asked for is written: that
      sample is the last one, every earlier written sample got a "continue"
      answer, and without a callback there is never a stop. */
  lemma {:induction false} StopKeepsThatSample(
    src: seq<byte>, ds: InputDataStream, headerOf: seq<byte> -> SampleHeader,
    n: int, final: int, fcn: Option<int -> bool>)
    requires ExportFrom(src, ds, headerOf, n, final, fcn).status.Stopped?
    ensures var r := ExportFrom(src, ds, headerOf, n, final, fcn);
      && fcn.Some?
      && |r.written| > 0
      && r.written[|r.written| - 1] == r.status.at
      && !fcn.value(r.status.at)
      && (forall k :: 0 <= k < |r.written| - 1 ==> fcn.value(r.written[k]))
    decreases final - n
  {
    if n < final && !VisitSample(src, ds, headerOf, n).Aborted? {
      var r := ExportFrom(src, ds, headerOf, n, final, fcn);
      if VisitSample(src, ds, headerOf, n).Skipped? {
        StopKeepsThatSample(src, ds, headerOf, n + 1, final, fcn);
      } else if !(fcn.Some? && !fcn.value(n)) {
        StopKeepsThatSample(src, ds, headerOf, n + 1, final, fcn);
        var rest := ExportFrom(src, ds, headerOf, n + 1, final, fcn);
        assert r.written == [n] + rest.written;
      }
    }
  }

  /** An error aborts at one index of the range: every index before it was
      visited without error, everything written lies before it, and the
      records written so far stay in place: every index before it that the
      decode path accepted was written, and each written one got "go on". */
  lemma FailureKeepsPrefix(
    src: seq<byte>, ds: InputDataStream, headerOf: seq<byte> -> SampleHeader,
    n: int, final: int, fcn: Option<int -> bool>)
    requires ExportFrom(src, ds, headerOf, n, final, fcn).status.Failed?
    ensures var r := ExportFrom(src, ds, headerOf, n, final, fcn);
      exists m :: n <= m < final
        && VisitSample(src, ds, headerOf, m) == Aborted(r.status.error)
        && (forall m' :: n <= m' < m ==> !VisitSample(src, ds, headerOf, m').Aborted?)
        && (forall k :: 0 <= k < |r.written| ==> r.written[k] < m)
        && (forall m' :: n <= m' < m ==> (m' in r.written <==> VisitSample(src, ds, headerOf, m').Kept?))
        && (forall m' :: m' in r.written ==> fcn.None? || fcn.value(m'))
  {
    var r := ExportFrom(src, ds, headerOf, n, final, fcn);
    FailureAbortsOnce(src, ds, headerOf, n, final, fcn);
    var m :| n <= m < final
      && VisitSample(src, ds, headerOf, m) == Aborted(r.status.error)
      && (forall m' :: n <= m' < m ==> !VisitSample(src, ds, headerOf, m').Aborted?)
      && (forall k :: 0 <= k < |r.written| ==> r.written[k] < m);
    FailureWritesAccepted(src, ds, headerOf, n, final, fcn, m);
  }

  /** A failed run aborts at a first failing index, before which it wrote. */
  lemma {:induction false} FailureAbortsOnce(
    src: seq<byte>, ds: InputDataStream, headerOf: seq<byte> -> SampleHeader,
    n: int, final: int, fcn: Option<int -> bool>)
    requires ExportFrom(src, ds, headerOf, n, final, fcn).status.Failed?
    ensures var r := ExportFrom(src, ds, headerOf, n, final, fcn);
      exists m :: n <= m < final
        && VisitSample(src, ds, headerOf, m) == Aborted(r.status.error)
        && (forall m' :: n <= m' < m ==> !VisitSample(src, ds, headerOf, m').Aborted?)
        && (forall k :: 0 <= k < |r.written| ==> r.written[k] < m)
    decreases final - n
  {
    var r := ExportFrom(src, ds, headerOf, n, final, fcn);
    if VisitSample(src, ds, headerOf, n).Aborted? {
      assert r.written == [];
    } else {
      FailureAbortsOnce(src, ds, headerOf, n + 1, final, fcn);
      var rest := ExportFrom(src, ds, headerOf, n + 1, final, fcn);
      var m :| n + 1 <= m < final
        && VisitSample(src, ds, headerOf, m) == Aborted(rest.status.error)
        && (forall m' :: n + 1 <= m' < m ==> !VisitSample(src, ds, headerOf, m').Aborted?)
        && (forall k :: 0 <= k < |rest.written| ==> rest.written[k] < m);
      assert r.status == rest.status;
      assert r.written == rest.written || r.written == [n] + rest.written;
      assert forall k :: 0 <= k < |r.written| ==> r.written[k] < m;
    }
  }

  /** In a failed run whose first failing index is `m`, the indices before
      `m` that the decode path accepted are exactly the written ones, and
      each written one got "go on". */
  lemma {:induction false} FailureWritesAccepted(
    src: seq<byte>, ds: InputDataStream, headerOf: seq<byte> -> SampleHeader,
    n: int, final: int, fcn: Option<int -> bool>, m: int)
    requires ExportFrom(src, ds, headerOf, n, final, fcn).status.Failed?
    requires n <= m < final && VisitSample(src, ds, headerOf, m).Aborted?
    requires forall m' :: n <= m' < m ==> !VisitSample(src, ds, headerOf, m').Aborted?
    ensures var r := ExportFrom(src, ds, headerOf, n, final, fcn);
      && (forall m' :: n <= m' < m ==> (m' in r.written <==> VisitSample(src, ds, headerOf, m').Kept?))
      && (forall m' :: m' in r.written ==> fcn.None? || fcn.value(m'))
    decreases final - n
  {
    var r := ExportFrom(src, ds, headerOf, n, final, fcn);
    if n == m {
      assert r.written == [];
    } else {
      FailureWritesAccepted(src, ds, headerOf, n + 1, final, fcn, m);
      RunShape(src, ds, headerOf, n + 1, final, fcn);
      var rest := ExportFrom(src, ds, headerOf, n + 1, final, fcn);
      assert n !in rest.written;
      var kept := VisitSample(src, ds, headerOf, n).Kept?;
      assert r.written == if kept then [n] + rest.written else rest.written;
    }
  }

  /** Whatever the callback answers, the export writes a prefix of what the
      export without a callback writes: stopping early never writes anything
      else, and never removes what was written before the stop. */
  lemma {:induction false} CallbackWritesPrefix(
    src: seq<byte>, ds: InputDataStream, headerOf: seq<byte> -> SampleHeader,
    n: int, final: int, fcn: Option<int -> bool>)
    ensures var r := ExportFrom(src, ds, headerOf, n, final, fcn);
      var full := ExportFrom(src, ds, headerOf, n, final, None);
      && r.records <= full.records
      && r.written <= full.written
      && (!r.status.Stopped? ==> r == full)
    decreases final - n
  {
    if n < final {
      CallbackWritesPrefix(src, ds, headerOf, n + 1, final, fcn);
    }
  }

  /** A callback that answers "continue" for every index of the range is the
      same as no callback. */
  lemma {:induction false} ContinuingCallbackIsNoCallback(
    src: seq<byte>, ds: InputDataStream, headerOf: seq<byte> -> SampleHeader,
    n: int, final: int, fcn: int -> bool)
    requires forall m :: n <= m < final ==> fcn(m)
    ensures ExportFrom(src, ds, headerOf, n, final, Some(fcn)) == ExportFrom(src, ds, headerOf, n, final, None)
    decreases final - n
  {
    if n < final {
      ContinuingCallbackIsNoCallback(src, ds, headerOf, n + 1, final, fcn);
    }
  }

  /** Without a callback an export never stops early. */
  lemma {:induction false} NoCallbackNeverStops(
    src: seq<byte>, ds: InputDataStream, headerOf: seq<byte> -> SampleHeader,
    n: int, final: int)
    ensures !ExportFrom(src, ds, headerOf, n, final, None).status.Stopped?
    decreases final - n
  {
    if n < final {
      NoCallbackNeverStops(src, ds, headerOf, n + 1, final);
    }
  }

  /** A callback that answers "stop" for every index writes at most one
      sample, and writes one exactly when it stops. */
  lemma {:induction false} StoppingCallbackWritesAtMostOne(
    src: seq<byte>, ds: InputDataStream, headerOf: seq<byte> -> SampleHeader,
    n: int, final: int, fcn: int -> bool)
    requires forall m :: n <= m < final ==> !fcn(m)
    ensures var r := ExportFrom(src, ds, headerOf, n, final, Some(fcn));
      |r.written| <= 1 && (|r.written| == 1 <==> r.status.Stopped?)
    decreases final - n
  {
    if n < final && VisitSample(src, ds, headerOf, n).Skipped? {
      StoppingCallbackWritesAtMostOne(src, ds, headerOf, n + 1, final, fcn);
    }
  }
}
