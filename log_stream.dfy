/** The replay cursor over one data stream (class `LogStream`). */
module LogStreams {

  import opened Pocolog

  /** A bounded read cursor: `data` is the stream it reads (null for a
      default-constructed cursor), `current` the index `next` reads. */
  class LogStream {
    const data: InputDataStream?
    var current: nat

    /** The default constructor binds no stream and leaves the index
        uninitialised, so nothing is promised about `current`. */
    constructor Empty()
      ensures data == null
    {
      data := null;
    }

    /** The constructor `LogReader::stream` uses: bound to `ds`, cursor at 0. */
    constructor Bound(ds: InputDataStream)
      ensures data == ds && current == 0
    {
      data := ds;
      current := 0;
    }

    /** The number of samples of the bound stream. */
    function TotalSamples(): (r: nat)
      requires data != null
      ensures r == data.Size()
    {
      data.Size()
    }

    function CurrentSampleIndex(): nat
      reads this
    {
      current
    }

    method SetCurrentSampleIndex(index: nat)
      modifies this
      ensures current == index && CurrentSampleIndex() == index
    {
      current := index;
    }

    method Reset()
      modifies this
      ensures current == 0
    {
      current := 0;
    }

    /** Reads sample `index` into a sample of type T. `zero` is the all-zero
        value of T that the output is cleared to first; `getSample` is the
        library's typed decode of the bound stream. */
    method ReadSample<T>(getSample: nat -> T, zero: T, index: nat) returns (ok: bool, sample: T)
      requires data != null
      ensures ok <==> index < TotalSamples()
      ensures ok ==> sample == getSample(index)
      ensures !ok ==> sample == zero
    {
      sample := zero;
      ok := false;
      if index < TotalSamples() {
        sample := getSample(index);
        ok := true;
      }
    }

    /** Reads at the cursor, then moves the cursor one step on, whether or
        not the read succeeded. */
    method Next<T>(getSample: nat -> T, zero: T) returns (ok: bool, sample: T)
      requires data != null
      modifies this
      ensures current == old(current) + 1
      ensures ok <==> old(current) < TotalSamples()
      ensures sample == if ok then getSample(old(current)) else zero
    {
      var index := current;
      current := current + 1;
      ok, sample := ReadSample(getSample, zero, index);
    }
  }
}
