# rock_replay_cpp — a Dafny model of the log reader, the range exporter and the viewer's state machines

rock_replay_cpp replays pocolog log files. Its reader (`LogReader`) locates a
named data stream in a multi-stream log, lists the data streams, and exports
a half-open range `[start_index, final_index)` of one stream into a new log.
A new log is one stream declaration under id 0, followed by the samples the
decode path accepts. Each sample is read straight from the stream's backing
file: its header sits a fixed header size before the payload offset that the
stream's file index gives. An optional progress callback can stop the export
after any written sample. The viewer (`QLogViewer`) walks a stream with a
cursor (`LogStream`). It moves the cursor by a step that is clamped to
`[0, MAXIMUM_STEP]` with `MAXIMUM_STEP = 15`. It groups `task.port` stream
names for the stream selector, saves intervals through a cancellable worker
(`ExportStreamWorker`), and picks a viewer factory from a type-name registry
in which the first registration wins.

The project has these modules:

- `Pocolog` (pocolog.dfy) holds the pocolog types the core uses:
  - stream descriptions, sample headers, and the records of a log being written;
  - `InputDataStream`, with its file index and decode path;
  - `ReadAt`, a seek followed by a checked read.
  The library itself is not modelled: its behaviour is taken as given.
- `Strings` (strings.dfy) is the `std::map<std::string, …>` key
  order (lexicographic, proved a strict total order) and `std::string::find`
  for one character.
- `LogStreams` (log_stream.dfy) is class `LogStream`.
- `Catalog` (catalog.dfy) is the stream catalogue as functions:
  - the first-match lookup restricted to data streams;
  - the data-stream filter;
  - the metadata list of a metadata map.
- `Export` (export.dfy) is the reference definition of an export:
  - `VisitSample` says what one index contributes: an error, a skip, or a record;
  - `ExportFrom` runs the whole range and returns the records written, the
    sample numbers they come from, and how the export ended;
  - lemmas state what such a run looks like.
- `LogReaders` (log_reader.dfy) is class `LogReader`. Its sampling loop is
  `WriteSamples`, which is proved to produce exactly `ExportFrom`.
- `Playback` (playback.dfy) is the viewer's playback state, class `LogViewer`.
- `StreamSelector` (stream_selector.dfy) is the grouping of stream names by task.
- `ExportWorker` (export_worker.dfy) is class `ExportStreamWorker`.
- `WidgetRegistry` (widget_registry.dfy) is the factory registry, and
  `createLogViewer<T>`.

Foreign inputs are parameters:

- The file system is a map from file name to contents (`fs`). The new log is
  the returned record sequence.
- The byte layout of the sample header is a function from the header's bytes
  to its fields (`headerOf`). The header size is the constant
  `SampleHeaderSize`, `sizeof(SampleHeaderData)`. Its value belongs to the
  library and is left open.
- `getSampleData` is the stream's `sampleData` oracle. It returns whether the
  sample is valid and what the buffer holds afterwards. The record carries
  that buffer.
- The typed sample decode of `LogStream::read_sample` is a function
  `getSample` together with the type's all-zero value.
- The timeline's start and end markers and the slider position are arguments
  of the slots that read them.
- The progress callback is `Option<int -> bool>`, where `None` is a null
  callback. The loop asks it at most once per index, so a function of the
  sample number can express any sequence of answers.

Where the code behaves differently from what a reader might expect, the model follows the code:

- The callback is called only after a sample has been written, not after
  every index.
- The range is not clamped. An index outside the stream aborts the export
  with `SampleOutOfIndex`.
- `exportStream` returns nothing and reports errors only by throwing, after
  the records written so far are in the output file. The model returns those
  records and a status (`Finished`, `Stopped(at)` or `Failed(error)`) so that
  partial output can be stated.
- Cancelling after the k-th written sample keeps that sample: the export
  holds exactly the samples written up to and including the one whose
  callback answered "stop".

## Model

| member | source | states |
|---|---|---|
| LogStreams.LogStream.Empty | src/LogReader.hpp:56-59 | a default cursor is bound to no stream; its index is left unspecified |
| LogStreams.LogStream.Bound | src/LogReader.hpp:67-70 | the cursor `LogReader::stream` builds is bound to the given stream with its index at 0 |
| LogStreams.LogStream.TotalSamples | src/LogReader.hpp:41-44 | the sample count is the bound stream's size; the stream is a constant, so cursor moves cannot change it |
| LogStreams.LogStream.SetCurrentSampleIndex | src/LogReader.hpp:46-54 | after setting index i, `current_sample_index()` returns i |
| LogStreams.LogStream.Reset | src/LogReader.hpp:36-39 | the cursor goes back to 0; the bound stream is unchanged |
| LogStreams.LogStream.ReadSample | src/LogReader.hpp:18-28 | success iff the index is below the sample count; on success the sample is that index's sample, otherwise the all-zero value |
| LogStreams.LogStream.Next | src/LogReader.hpp:30-34 | reads at the old index and moves the cursor on by exactly one, also when the read fails |
| Strings.LessTransitive | src/LogReader.cpp:114-115 | the key order of `std::map<std::string, …>` is transitive (irreflexivity, asymmetry and totality are proved beside it) |
| Strings.LessTotal | src/LogReader.cpp:114-115 | two different keys are always ordered one way or the other |
| Strings.FirstIndexOf | src/QLogViewer.cpp:70 | None iff the character does not occur; otherwise the index of its first occurrence |
| Catalog.FindDataStream | src/LogReader.cpp:89-100 | the first data-type description whose name is exactly the given one; None iff there is no such description; descriptions of other types are passed over even if their name matches |
| Catalog.DataDescriptions | src/LogReader.cpp:128-142 | keeps only data-type descriptions, each data-type description occurs in the result, and the result is a subsequence of the input in its original order |
| Catalog.DataDescriptionsKeepsEveryCopy | src/LogReader.cpp:130-136 | every data-type description occurs in the result exactly as often as in the input; with the two clauses above this fixes the result as the filter |
| Catalog.Resolve | src/LogReader.cpp:85-106 | the description `loadStreamDescription` leaves: a data-type description of the log with that name when one exists, otherwise the given one; which one is first is stated by `FindDataStream` |
| Catalog.ResolveAgreesWithCatalog | src/LogReader.cpp:85-143 | the lookup fails iff no listed data stream has the name; if it succeeds, it finds the same description as the first match in the listed data streams |
| Catalog.MinKey | src/LogReader.cpp:114-115 | the key a map iteration visits next: a member of the remaining keys, below every other one |
| Catalog.MetadataListUnique | src/LogReader.cpp:108-123 | a metadata map has exactly one list with one entry per key, every pair kept, in ascending key order |
| Pocolog.ReadAt | src/LogReader.cpp:52-54 | a seek and read leave the stream good iff all `count` bytes lie inside the file, and then yield exactly the bytes from `pos` on |
| Export.VisitSample | src/LogReader.cpp:46-76 | what one index does: abort with the error of the first failing step (index, header read, payload read), skip when the decode path rejects the sample, or the record written; its layout is stated by `KeptSampleLayout` |
| Export.ExportFrom | src/LogReader.cpp:44-82 | the reference export of indices `n` .. `final` - 1 in order, stopping at the first error or at the first "stop" answer after a written sample; its properties are the lemmas `RunShape`, `FinishedVisitsWholeRange`, `StopKeepsThatSample`, `FailureKeepsPrefix` and the callback lemmas below |
| Export.KeptSampleLayout | src/LogReader.cpp:46-76 | a written sample's header is read `SampleHeaderSize` bytes before its indexed offset; exactly `data_size` payload bytes are read at that offset; the record has id 0, the header's realtime and logical (sec, usec) pairs, and the bytes the decode path left |
| Export.RunShape | src/LogReader.cpp:44-82 | written indices strictly ascend inside the range; there is one sample record with id 0 per written index, each the one its index produces; at most `final − start` are written |
| Export.FinishedVisitsWholeRange | src/LogReader.cpp:44-82 | a run that ends normally visited every index without error; the written indices are exactly those the decode path accepted; no callback asked to stop |
| Export.StopKeepsThatSample | src/LogReader.cpp:69-81 | a stop needs a callback; it comes right after writing the sample it names, which is kept; every earlier written sample got "go on" |
| Export.FailureKeepsPrefix | src/LogReader.cpp:44-82 | an error aborts at the first failing index; everything written lies before it and stays in place: before it, an index is written iff the decode path accepted it, and every written index got "go on" |
| Export.FailureAbortsOnce | src/LogReader.cpp:44-64 | a failed run has a first failing index whose error it reports; nothing before it aborted and everything written lies before it |
| Export.FailureWritesAccepted | src/LogReader.cpp:66-80 | up to the first failing index of a failed run, an index is written iff the decode path accepted it, and each written index got "go on" |
| Export.CallbackWritesPrefix | src/LogReader.cpp:78-80 | with any callback the export writes a prefix of what it writes without one, and the same thing unless it stopped |
| Export.ContinuingCallbackIsNoCallback | src/LogReader.cpp:78-80 | a callback that always answers "go on" behaves exactly like a null callback |
| Export.NoCallbackNeverStops | src/LogReader.cpp:78-80 | a null callback never stops the loop |
| Export.StoppingCallbackWritesAtMostOne | src/LogReader.cpp:78-80 | a callback that always answers "stop" leads to at most one written sample, and to exactly one iff the export stopped |
| LogReaders.WriteSamples | src/LogReader.cpp:44-82 | the sampling loop writes exactly the records of the reference export and ends with its status |
| LogReaders.LogReader.constructor | src/LogReader.hpp:81-84 | the reader holds the given log file |
| LogReaders.LogReader.Stream | src/LogReader.hpp:90-101 | a new cursor on the named stream with its index at 0; a name the log file does not know is an error |
| LogReaders.LogReader.LoadStreamDescription | src/LogReader.cpp:85-106 | yields the first data-type description with exactly that name; yields the given description unchanged when there is none |
| LogReaders.LogReader.GetMetadata | src/LogReader.cpp:108-123 | one (key, value) entry per map entry, pairs kept, keys strictly ascending, length equal to the map's size |
| LogReaders.LogReader.GetDescriptions | src/LogReader.cpp:125-143 | exactly the data-type descriptions, in file order: the result is `DataDescriptions`, every copy kept (`DataDescriptionsKeepsEveryCopy`) |
| LogReaders.LogReader.ExportStream | src/LogReader.cpp:9-83 | the first record is the one declaration, with id 0 and the resolved description's type, names, type description and metadata list; after it come only sample records with id 0, at most `final − start` of them; a source file that cannot be opened or a stream that cannot be found fails after the declaration; otherwise the samples and the status are those of the reference export |
| Playback.SizeT | src/QLogViewer.cpp:341 | the `(size_t)` conversion of an `int` marker, wrapping negative values modulo 2^64; used by `UpdateSample`, `PlayButtonClicked` and `SliderMoved` |
| Playback.StepBack | src/QLogViewer.cpp:350-351 | the back button's new step; its range, inverse and saturation are `StepButtonsKeepRange`, `StepButtonsAreInverse` and `BackButtonSaturates` |
| Playback.StepForward | src/QLogViewer.cpp:364-365 | the next button's new step; its range, inverse and saturation are `StepButtonsKeepRange`, `StepButtonsAreInverse` and `NextButtonSaturates` |
| Playback.Advance | src/QLogViewer.cpp:340-343 | the move `updateSample` makes before it calls `update()`: on by the step below both bounds, otherwise (an index already past a bound included) no move; stated by `AdvanceMovesOnlyBelowBounds` and, over many calls, `PlaybackStopsNearEnd` |
| Playback.PlayFrom | src/QLogViewer.cpp:356-357 | where play puts the cursor; stated by `PlayFromNeverLowers` |
| Playback.StepButtonsKeepRange | src/QLogViewer.cpp:348-366 | both step buttons keep the step inside [0, 15] |
| Playback.StepButtonsAreInverse | src/QLogViewer.cpp:348-366 | inside the range, back undoes next and next undoes back |
| Playback.BackButtonSaturates | src/QLogViewer.cpp:348-352 | k presses of back lower the step by k down to 0 and never below |
| Playback.NextButtonSaturates | src/QLogViewer.cpp:362-366 | k presses of next raise the step by k up to `MAXIMUM_STEP` and never above |
| Playback.AdvanceMovesOnlyBelowBounds | src/QLogViewer.cpp:336-346 | the move `updateSample` makes before it calls `update()` never takes the index back; it takes it forward, by exactly the step, iff the index is below both the sample count and the end marker (and the step is positive) |
| Playback.PlaybackStopsNearEnd | src/QLogViewer.cpp:326-346 | counting only the moves `updateSample` makes before `update()`, however often it runs the index never passes the smaller of the sample count and the end marker by a full step, unless it started past that bound; it never goes back |
| Playback.ReadingTick | src/QSonarLogViewer.cpp:13-24 | one whole tick of a viewer whose `update()` reads one sample through `nextSample` (src/QLogViewer.hpp:142-145), and so `LogStream::next` (src/LogReader.hpp:31-34): a moving tick goes on by the step plus one, any other tick stays; over many ticks the resulting bound on the index is `ReadingPlaybackStopsNearEnd` |
| Playback.ReadingPlaybackStopsNearEnd | src/QSonarLogViewer.cpp:13-24 | with that read, however many ticks run the index passes the smaller of the sample count and the end marker by at most the step, unless it started past that bound; it never goes back |
| Playback.PlayFromNeverLowers | src/QLogViewer.cpp:356-357 | play never lowers the index, leaves it at or past the start marker, and puts it at one of the two |
| Playback.LogViewer.constructor | src/QLogViewer.cpp:178-189 | a new viewer has step 0, is not running, has no reader, and has an unbound cursor |
| Playback.LogViewer.Construct | src/QLogViewer.cpp:480-502 | records the reader and the stream name; succeeds iff the stream exists, and then holds a fresh cursor at 0 on it and the given rate |
| Playback.LogViewer.UpdateSample | src/QLogViewer.cpp:336-346 | with the step in range, the cursor makes the move `Advance` states, the one before `update()` is called |
| Playback.LogViewer.BackButtonClicked | src/QLogViewer.cpp:348-352 | the step drops by one only when it is positive; a step in range stays in range |
| Playback.LogViewer.NextButtonClicked | src/QLogViewer.cpp:362-366 | the step rises by one only when it is below `MAXIMUM_STEP`; a step in range stays in range |
| Playback.LogViewer.PlayButtonClicked | src/QLogViewer.cpp:354-360 | running is set, and the cursor is raised to the start marker if it is below it |
| Playback.LogViewer.StopButtonClicked | src/QLogViewer.cpp:368-372 | running is cleared |
| Playback.LogViewer.SetStepValue | src/QLogViewer.cpp:460-463 | the step takes the step box's value; it is in range iff the value lies in [0, 15], the box's range (src/QLogViewer.cpp:499-500) |
| Playback.LogViewer.SliderMoved | src/QLogViewer.cpp:454-458 | the cursor jumps to the slider index, converted to `size_t` |
| StreamSelector.SplitStreamName | src/QLogViewer.cpp:69-76 | None iff the name has no dot; otherwise a dot-free task and a port with `task + "." + port` equal to the name |
| StreamSelector.JoinThenSplit | src/QLogViewer.cpp:74-75 | joining a dot-free task and a port as the selector does splits back into exactly that task and port |
| StreamSelector.PortsOfConcatenation | src/QLogViewer.cpp:77 | the rows of a task are appended in description order: listing two runs of descriptions lists the first run's rows, then the second's |
| StreamSelector.PortsNameTheirStream | src/QLogViewer.cpp:74-77 | every row under a task comes from a description named `task + "." + port` with that row's type name |
| StreamSelector.GroupingListsEveryTask | src/QLogViewer.cpp:67-79 | the grouping has a key for exactly the tasks of the dotted names, and under each the rows of that task in order |
| StreamSelector.Grouping | src/QLogViewer.cpp:67-79 | the map the loop has built after a prefix of the descriptions; stated by `GroupingListsEveryTask` |
| StreamSelector.GroupStreams | src/QLogViewer.cpp:64-79 | from the reader's data-stream descriptions (`getDescriptions`) the loop builds that grouping: names without a dot are left out; each task maps to its ports in description order |
| ExportWorker.ContinueUnless | src/QLogViewer.cpp:40-45 | the answer `exportStreamCallback` gives for every sample number, the negation of the cancel flag; `ExportStreamCallback` is proved to answer the same |
| ExportWorker.ExportStreamWorker.constructor | src/QLogViewer.hpp:35-49 | a new worker holds the given reader, file name, stream name and indices unchanged, and is not canceled |
| ExportWorker.ExportStreamWorker.Cancel | src/QLogViewer.cpp:35-38 | sets the cancel flag; nothing clears it again |
| ExportWorker.ExportStreamWorker.ExportStreamCallback | src/QLogViewer.cpp:40-45 | answers "go on" iff the worker is not canceled |
| ExportWorker.ExportStreamWorker.ExportInterval | src/QLogViewer.cpp:17-33 | a worker that is not canceled exports exactly as with no callback and never stops; a canceled one writes at most one sample and stops iff it wrote one |
| WidgetRegistry.Insert | src/QLogViewer.hpp:206-211 | `std::map::insert`: the key is present afterwards; an existing entry is never replaced; every other key keeps its entry |
| WidgetRegistry.RegisterAll | src/QLogViewer.cpp:11-15 | the registry after a series of `RegisterQLogViewer` registrations in order; stated by `RegisterAllKeys` and `FirstRegistrationWins` |
| WidgetRegistry.RegisterAllKeys | src/QLogViewer.cpp:11-15 | after a series of registrations exactly the registered types are added, and no earlier entry changes |
| WidgetRegistry.FirstRegistrationWins | src/QLogViewer.hpp:206-211 | when a type is registered several times, its factory is the first one registered |
| WidgetRegistry.WidgetMap.constructor | src/QLogViewer.hpp:198-204 | the registry starts empty |
| WidgetRegistry.WidgetMap.AddWidget | src/QLogViewer.hpp:206-211 | the registry becomes `Insert` of the old registry |
| WidgetRegistry.WidgetMap.Lookup | src/QLogViewer.cpp:166-172 | finds the factory registered for a type; a type nobody registered is the "Not implemented" error |
| WidgetRegistry.CreateLogViewer | src/QLogViewer.hpp:134-139 | the unspecialised factory always throws "Not implemented" |

## Left out

- pocolog internals: `LogFile`, the file index, `getSampleData`, `getSample`, `Output` and `FileStream` are inputs with the behaviour stated in `Pocolog`, not models of the library.
- The default `StreamDescription`: its contents are not part of this model. It is taken to have an empty name and file name, an unknown stream type and no metadata (`DefaultDescription`).
- The byte layout and endianness of the sample header, and the record encoding of the written log: the header's fields come from the parameter `headerOf`. The written log is a sequence of records, not bytes.
- Opening the output file: its errors are not checked by the source and are not modelled. The output is the returned record sequence.
- LogReaders.LogReader.Stream: the null result of the `dynamic_cast` for a stream that is not a data stream is not modelled. The stream map holds data streams only.
- Qt widgets, layouts, dialogs, the progress dialog and the signal/slot wiring are UI. This includes the spin box limits set in `construct`, the slider and the current-index box, `copyStart`/`copyEnd`, `saveIntervalButtonClicked`, `currentIndexEditingFinished` and `sliderReleased`.
- `QStreamSelector::itemDoubleClicked` and the dialog that `getStreamName` shows: these depend on `QTreeWidget` index semantics.
- The worker thread and canceling during an export: these are concurrency. ExportWorker.ExportStreamWorker.ExportInterval reads the cancel flag once, as a single thread would.
- `updateProgress` throttling and its signal: these depend on the wall clock and on floating-point seconds.
- `base::Time`: times are (seconds, microseconds) pairs, with no arithmetic.
- `std::cout` diagnostics.
- The static registration macro and its initialisation order: WidgetRegistry.RegisterAll takes the registrations in a given order.
- The virtual `update()` that `updateSample` calls after moving the cursor: it belongs to the concrete viewers. The base version only throws. Playback.ReadingTick models the one concrete viewer's `update()`, which reads one sample and moves the cursor once more.
- Playback.AdvanceMovesOnlyBelowBounds: states only the move `updateSample` itself makes; a concrete viewer's `update()` reads through `nextSample` and `LogStream::next` and moves the cursor one further on every moving tick (that whole tick is `ReadingTick`).
- Playback.PlaybackStopsNearEnd: counts only `updateSample`'s own moves; with a concrete viewer's read the bound is one larger, as `ReadingPlaybackStopsNearEnd` states.
- LogReaders.LogReader.ExportStream: assumes the output file differs from the stream's backing file; exporting onto that file truncates the source when the output is opened (src/LogReader.cpp:22), before it is read, which the model does not capture since the source is read from `fs` unchanged.
- Playback.LogViewer.UpdateSample: the `size_t` sum of the index and the step is not wrapped at 2^64. Only a negative marker converted to `size_t` is wrapped explicitly (`SizeT`).
- LogStreams.LogStream.Next: the `size_t` increment of the index is not wrapped at 2^64.
- `QLogViewer::create`: the stream selection and the file-path overload of `construct` are left out. Only the registry lookup (`Lookup`) and `construct` with a reader are modelled.
- src/QSonarLogViewer.hpp and src/main.cpp: these are not part of this model. Of src/QSonarLogViewer.cpp only the cursor movement of `update()` is modelled (`ReadingTick`); `createWidget` and the sonar widget are UI.
