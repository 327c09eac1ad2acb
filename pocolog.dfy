/** The interface of the log container library the reader is built on.

    Only what the reader and the viewer observe is modelled: the stream
    catalogue of an opened log file, each data stream's file index and its
    decode path, the fixed-size sample header that precedes every payload in
    the backing file, and the two record kinds an exported log is made of.
    The binary layout of these records belongs to the container format and is
    not modelled. */
module Pocolog {

  newtype byte = x: int | 0 <= x < 0x100

  type int32 = x: int | -0x8000_0000 <= x < 0x8000_0000
  type uint32 = x: nat | x < 0x1_0000_0000

  datatype Option<+T> = None | Some(value: T)

  /** The stream kinds of a log file; only data streams carry samples. */
  datatype StreamType = DataStreamType | ControlStreamType | UnknownStreamType

  /** One (key, value) pair of a stream's metadata, as written into a declaration. */
  datatype StreamMetadata = StreamMetadata(key: string, value: string)

  /** Identity and schema of one stream of a log file. `metadata` is the
      library's key/value dictionary, `fileName` the file that backs the stream. */
  datatype StreamDescription = StreamDescription(
    name: string,
    streamType: StreamType,
    typeName: string,
    typeDescription: string,
    metadata: map<string, string>,
    fileName: string)

  /** A default-constructed description: what `exportStream` works with when no
      data stream has the requested name. */
  const DefaultDescription := StreamDescription("", UnknownStreamType, "", "", map[], "")

  predicate IsData(d: StreamDescription) {
    d.streamType == DataStreamType
  }

  /** A timestamp as the (seconds, microseconds) pair it is built from. */
  datatype Time = Time(seconds: int, microseconds: int)

  /** The fixed-size header that precedes each sample's payload in the backing file. */
  datatype SampleHeader = SampleHeader(
    dataSize: uint32,
    realtimeSec: int32,
    realtimeUsec: int32,
    timestampSec: int32,
    timestampUsec: int32)

  /** Size in bytes of the library's header record, `sizeof(SampleHeaderData)`;
      its value belongs to the library and is left open. */
  const SampleHeaderSize: nat

  function Realtime(h: SampleHeader): Time {
    Time(h.realtimeSec, h.realtimeUsec)
  }

  function Logical(h: SampleHeader): Time {
    Time(h.timestampSec, h.timestampUsec)
  }

  /** The records of a log being written: a stream declaration or a sample. */
  datatype Record =
    | Declaration(
        streamId: int,
        streamType: StreamType,
        name: string,
        typeName: string,
        typeDescription: string,
        metadata: seq<StreamMetadata>)
    | SampleRecord(streamId: int, realtime: Time, logical: Time, payload: seq<byte>)

  /** A data stream of an opened log file. `positions[n]` is the payload offset
      of sample `n` in the backing file (the stream's file index); `sampleData`
      is the decode path: given a buffer and a sample number it reports whether
      the sample is valid and what the buffer holds afterwards. */
  class InputDataStream {
    const positions: seq<nat>
    const sampleData: (seq<byte>, int) -> (bool, seq<byte>)

    constructor (positions: seq<nat>, sampleData: (seq<byte>, int) -> (bool, seq<byte>))
      ensures this.positions == positions && this.sampleData == sampleData
    {
      this.positions := positions;
      this.sampleData := sampleData;
    }

    /** The number of samples of the stream. */
    function Size(): nat {
      |positions|
    }

    /** The file index lookup; an index outside the stream is an error. */
    function SamplePos(n: int): Option<nat> {
      if 0 <= n < |positions| then Some(positions[n]) else None
    }
  }

  /** An opened log file: its stream descriptions in file order, and the data
      streams that a lookup by name resolves to. */
  datatype LogFile = LogFile(
    descriptions: seq<StreamDescription>,
    streams: map<string, InputDataStream>)

  /** A seek followed by a read of `count` bytes on a binary input file: it
      leaves the stream good only when all `count` bytes lie inside the file. */
  function ReadAt(file: seq<byte>, pos: int, count: nat): (r: Option<seq<byte>>)
    ensures r.Some? <==> 0 <= pos && pos + count <= |file|
    ensures r.Some? ==> |r.value| == count && forall k :: 0 <= k < count ==> r.value[k] == file[pos + k]
  {
    if 0 <= pos && pos + count <= |file| then Some(file[pos..pos + count]) else None
  }
}
