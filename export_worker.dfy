/** The background job that saves an interval of the viewed stream
    (`ExportStreamWorker`): it runs the reader's export with a progress
    callback that answers "go on" until the job is canceled. */
module ExportWorker {

  import opened Pocolog
  import opened Export
  import opened LogReaders

  /** The callback the worker hands to the export: every sample number gets
      the answer "go on" unless the job is canceled. */
  function ContinueUnless(canceled: bool): int -> bool {
    sampleNr => !canceled
  }

  class ExportStreamWorker {
    const reader: LogReader
    const filename: string
    const streamName: string
    const startIndex: int32
    const endIndex: int32
    var canceled: bool

    constructor (reader: LogReader, filename: string, streamName: string, startIndex: int32, endIndex: int32)
      ensures this.reader == reader && this.filename == filename && this.streamName == streamName
      ensures this.startIndex == startIndex && this.endIndex == endIndex
      ensures !canceled
    {
      this.reader := reader;
      this.filename := filename;
      this.streamName := streamName;
      this.startIndex := startIndex;
      this.endIndex := endIndex;
      canceled := false;
    }

    method Cancel()
      modifies this
      ensures canceled
    {
      canceled := true;
    }

    /** The progress callback: go on exactly while the job is not canceled. */
    method ExportStreamCallback(sampleNr: int) returns (proceed: bool)
      ensures proceed == ContinueUnless(canceled)(sampleNr)
      ensures proceed <==> !canceled
    {
      proceed := !canceled;
    }

    /** Exports `startIndex` .. `endIndex` - 1 of the stream into a new log.
        A job that is not canceled exports as if there were no callback; a
        canceled one stops right after the first sample it writes. */
    method ExportInterval(fs: map<string, seq<byte>>, headerOf: seq<byte> -> SampleHeader)
      returns (log: seq<Record>, status: ExportStatus)
      ensures DeclaresStream(log, ExportedDescription(reader.logFile, streamName))
      ensures canceled ==> |log| <= 2 && (|log| == 2 <==> status.Stopped?)
      ensures !canceled ==> !status.Stopped?
      ensures !canceled && ExportedDescription(reader.logFile, streamName).fileName in fs && streamName in reader.logFile.streams ==>
        var run := ExportFrom(fs[ExportedDescription(reader.logFile, streamName).fileName],
                              reader.logFile.streams[streamName], headerOf, startIndex, endIndex, None);
        log[1..] == run.records && status == run.status
    {
      var fcn := ContinueUnless(canceled);
      log, status := reader.ExportStream(fs, headerOf, streamName, startIndex, endIndex, Some(fcn));
      var desc := ExportedDescription(reader.logFile, streamName);
      if desc.fileName in fs && streamName in reader.logFile.streams {
        var src, ds := fs[desc.fileName], reader.logFile.streams[streamName];
        RunShape(src, ds, headerOf, startIndex, endIndex, Some(fcn));
        if canceled {
          StoppingCallbackWritesAtMostOne(src, ds, headerOf, startIndex, endIndex, fcn);
        } else {
          ContinuingCallbackIsNoCallback(src, ds, headerOf, startIndex, endIndex, fcn);
          NoCallbackNeverStops(src, ds, headerOf, startIndex, endIndex);
        }
      }
    }
  }
}
