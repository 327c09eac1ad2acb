/** The reader of one log file (class `LogReader`): opening a cursor on a
    stream, the stream catalogue, and exporting a range of one stream into a
    new log. */
module LogReaders {

  import opened Pocolog
  import opened Strings
  import opened Catalog
  import opened Export
  import opened LogStreams

  /** The description `exportStream` declares for `streamName`. */
  function ExportedDescription(file: LogFile, streamName: string): StreamDescription {
    Resolve(file.descriptions, streamName, DefaultDescription)
  }

  /** `log` starts with the declaration of `desc` under stream id 0. */
  predicate DeclaresStream(log: seq<Record>, desc: StreamDescription) {
    && |log| >= 1
    && log[0].Declaration?
    && log[0] == Declaration(0, desc.streamType, desc.name, desc.typeName, desc.typeDescription, log[0].metadata)
    && IsMetadataListOf(desc.metadata, log[0].metadata)
  }

  /** The sampling loop of `exportStream`: visits `startIndex` .. `finalIndex`
      - 1 in ascending order, reading each sample's header and payload from
      `src`, writing the samples the decode path accepts, and stopping at once
      when the callback answers false or a read fails. */
  method WriteSamples(
    src: seq<byte>, ds: InputDataStream, headerOf: seq<byte> -> SampleHeader,
    startIndex: int, finalIndex: int, fcn: Option<int -> bool>)
    returns (records: seq<Record>, status: ExportStatus)
    ensures var run := ExportFrom(src, ds, headerOf, startIndex, finalIndex, fcn);
      records == run.records && status == run.status
  {
    records := [];
    ghost var written: seq<int> := [];
    ghost var whole := ExportFrom(src, ds, headerOf, startIndex, finalIndex, fcn);
    var sampleNr := startIndex;
    while sampleNr < finalIndex
      invariant whole == Prepend(records, written, ExportFrom(src, ds, headerOf, sampleNr, finalIndex, fcn))
      decreases finalIndex - sampleNr
    {
      ghost var here := ExportFrom(src, ds, headerOf, sampleNr, finalIndex, fcn);
      var samplePos := ds.SamplePos(sampleNr);
      if samplePos.None? {
        status := Failed(SampleOutOfIndex(sampleNr));
        AbortedStep(src, ds, headerOf, sampleNr, finalIndex, fcn);
        return;
      }
      var raw := ReadAt(src, samplePos.value - SampleHeaderSize, SampleHeaderSize);
      if raw.None? {
        status := Failed(HeaderReadFailed(sampleNr));
        AbortedStep(src, ds, headerOf, sampleNr, finalIndex, fcn);
        return;
      }
      var header := headerOf(raw.value);
      var buffer := ReadAt(src, samplePos.value, header.dataSize);
      if buffer.None? {
        status := Failed(PayloadReadFailed(sampleNr));
        AbortedStep(src, ds, headerOf, sampleNr, finalIndex, fcn);
        return;
      }
      var realtime, logical := Realtime(header), Logical(header);
      var (valid, filled) := ds.sampleData(buffer.value, sampleNr);
      if valid {
        var rec := SampleRecord(0, realtime, logical, filled);
        assert VisitSample(src, ds, headerOf, sampleNr) == Kept(rec);
        if fcn.Some? && !fcn.value(sampleNr) {
          StoppedStep(src, ds, headerOf, sampleNr, finalIndex, fcn, records, written, rec);
          records := records + [rec];
          written := written + [sampleNr];
          status := Stopped(sampleNr);
          return;
        }
        KeptStep(src, ds, headerOf, sampleNr, finalIndex, fcn, records, written, rec);
        records := records + [rec];
        written := written + [sampleNr];
      } else {
        assert VisitSample(src, ds, headerOf, sampleNr) == Skipped;
      }
      sampleNr := sampleNr + 1;
    }
    status := Finished;
  }

  class LogReader {
    const logFile: LogFile

    constructor (logFile: LogFile)
      ensures this.logFile == logFile
    {
      this.logFile := logFile;
    }

    /** A new cursor on the data stream called `name`, at index 0; a name the
        log file does not resolve is an error. */
    method Stream(name: string) returns (r: Option<LogStream>)
      ensures r.Some? <==> name in logFile.streams
      ensures r.Some? ==> fresh(r.value) && r.value.data == logFile.streams[name] && r.value.current == 0
    {
      if name in logFile.streams {
        var s := new LogStream.Bound(logFile.streams[name]);
        r := Some(s);
      } else {
        r := None;
      }
    }

    /** Looks `name` up among the data streams; `desc` is returned unchanged
        when none has that name. */
    method LoadStreamDescription(name: string, desc: StreamDescription) returns (r: StreamDescription)
      ensures (exists i :: 0 <= i < |logFile.descriptions| && IsDataNamed(logFile.descriptions[i], name)) ==>
        exists i :: 0 <= i < |logFile.descriptions| && r == logFile.descriptions[i]
          && IsDataNamed(r, name)
          && forall j :: 0 <= j < i ==> !IsDataNamed(logFile.descriptions[j], name)
      ensures (forall i :: 0 <= i < |logFile.descriptions| ==> !IsDataNamed(logFile.descriptions[i], name)) ==> r == desc
      ensures r == Resolve(logFile.descriptions, name, desc)
    {
      var descriptions := logFile.descriptions;
      r := desc;
      var i := 0;
      while i < |descriptions|
        invariant 0 <= i <= |descriptions|
        invariant forall j :: 0 <= j < i ==> !IsDataNamed(descriptions[j], name)
        invariant r == desc
      {
        if descriptions[i].streamType == DataStreamType {
          if descriptions[i].name == name {
            r := descriptions[i];
            assert FindDataStream(descriptions, name) == Some(i);
            return;
          }
        }
        i := i + 1;
      }
    }

    /** The metadata of `desc` as a list, one entry per key in ascending key
        order (the iteration order of the library's map). */
    method GetMetadata(desc: StreamDescription) returns (list: seq<StreamMetadata>)
      ensures IsMetadataListOf(desc.metadata, list)
    {
      var m := desc.metadata;
      list := [];
      var rest := m.Keys;
      while rest != {}
        invariant rest <= m.Keys
        invariant |list| + |rest| == |m|
        invariant KeysAscending(list)
        invariant forall i :: 0 <= i < |list| ==> list[i].key in m && list[i].key !in rest && m[list[i].key] == list[i].value
        invariant forall k :: k in m && k !in rest ==> exists i :: 0 <= i < |list| && list[i].key == k
        invariant forall i, k :: 0 <= i < |list| && k in rest ==> Less(list[i].key, k)
        decreases rest
      {
        var k := MinKey(rest);
        ghost var prev := list;
        list := list + [StreamMetadata(k, m[k])];
        rest := rest - {k};
        forall k' | k' in m && k' !in rest
          ensures exists i :: 0 <= i < |list| && list[i].key == k'
        {
          if k' == k {
            assert list[|prev|].key == k';
          } else {
            var i :| 0 <= i < |prev| && prev[i].key == k';
            assert list[i].key == k';
          }
        }
      }
    }

    /** The data-stream descriptions of the log file, in file order. */
    method GetDescriptions() returns (result: seq<StreamDescription>)
      ensures result == DataDescriptions(logFile.descriptions)
    {
      var descriptions := logFile.descriptions;
      result := [];
      var i := 0;
      while i < |descriptions|
        invariant 0 <= i <= |descriptions|
        invariant result + DataDescriptions(descriptions[i..]) == DataDescriptions(descriptions)
      {
        DataDescriptionsStep(descriptions, i);
        if descriptions[i].streamType == DataStreamType {
          result := result + [descriptions[i]];
        }
        i := i + 1;
      }
      assert descriptions[i..] == [];
    }

    /** Writes into a new log the declaration of `streamName` under stream id
        0, then the samples `startIndex` .. `finalIndex` - 1 of that stream
        that the decode path accepts, read from the stream's backing file in
        `fs` (file name to contents). `fcn` is the optional progress callback,
        asked after each written sample whether to go on. Returns the records
        written, which an error or a stop leaves in place. */
    method ExportStream(
      fs: map<string, seq<byte>>, headerOf: seq<byte> -> SampleHeader,
      streamName: string, startIndex: int32, finalIndex: int32, fcn: Option<int -> bool>)
      returns (log: seq<Record>, status: ExportStatus)
      ensures DeclaresStream(log, ExportedDescription(logFile, streamName))
      ensures forall i :: 1 <= i < |log| ==> log[i].SampleRecord? && log[i].streamId == 0
      ensures |log| - 1 <= RangeLength(startIndex, finalIndex)
      ensures ExportedDescription(logFile, streamName).fileName !in fs ==>
        |log| == 1 && status == Failed(CannotOpenLogFile)
      ensures ExportedDescription(logFile, streamName).fileName in fs && streamName !in logFile.streams ==>
        |log| == 1 && status == Failed(StreamNotFound)
      ensures ExportedDescription(logFile, streamName).fileName in fs && streamName in logFile.streams ==>
        var run := ExportFrom(fs[ExportedDescription(logFile, streamName).fileName],
                              logFile.streams[streamName], headerOf, startIndex, finalIndex, fcn);
        log[1..] == run.records && status == run.status
    {
      var desc := LoadStreamDescription(streamName, DefaultDescription);
      var metadata := GetMetadata(desc);
      log := [Declaration(0, desc.streamType, desc.name, desc.typeName, desc.typeDescription, metadata)];
      if desc.fileName !in fs {
        status := Failed(CannotOpenLogFile);
        return;
      }
      var src := fs[desc.fileName];
      var s := Stream(streamName);
      if s.None? {
        status := Failed(StreamNotFound);
        return;
      }
      var ds := s.value.data;
      var records;
      records, status := WriteSamples(src, ds, headerOf, startIndex, finalIndex, fcn);
      log := log + records;
      assert log[1..] == records;
      RunShape(src, ds, headerOf, startIndex, finalIndex, fcn);
    }
  }
}
