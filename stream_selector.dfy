/** The grouping the stream selector shows (`QStreamSelector::getStreamName`):
    every data stream whose name has a dot is listed under the task before
    the first dot, as its port after that dot, with its type name. */
module StreamSelector {

  import opened Pocolog
  import opened Strings
  import opened Catalog
  import opened LogReaders

  datatype TaskPort = TaskPort(task: string, port: string)

  /** One child row of a task: port name and type name. */
  datatype PortEntry = PortEntry(port: string, typeName: string)

  /** Splits a stream name at its first dot. */
  function SplitStreamName(name: string): (r: Option<TaskPort>)
    ensures r.None? <==> '.' !in name
    ensures r.Some? ==> r.value.task + "." + r.value.port == name && '.' !in r.value.task
  {
    match FirstIndexOf(name, '.')
    case None => None
    case Some(i) =>
      assert name == name[..i] + "." + name[i + 1..];
      Some(TaskPort(name[..i], name[i + 1..]))
  }

  /** Joining a dot-free task name and any port name splits back into the two. */
  lemma JoinThenSplit(task: string, port: string)
    requires '.' !in task
    ensures SplitStreamName(task + "." + port) == Some(TaskPort(task, port))
  {
    var name := task + "." + port;
    assert name[|task|] == '.';
    var i := FirstIndexOf(name, '.').value;
    assert name[..i] == task;
    assert name[i + 1..] == port;
  }

  /** The row a description adds under task `t`: one when its name splits
      into `t` and a port, none otherwise. */
  function RowOf(d: StreamDescription, t: string): seq<PortEntry> {
    match SplitStreamName(d.name)
    case Some(tp) => if tp.task == t then [PortEntry(tp.port, d.typeName)] else []
    case None => []
  }

  /** The rows listed under task `t`, in the order of the descriptions. */
  function PortsOfTask(ds: seq<StreamDescription>, t: string): seq<PortEntry>
    decreases |ds|
  {
    if |ds| == 0 then [] else PortsOfTask(ds[..|ds| - 1], t) + RowOf(ds[|ds| - 1], t)
  }

  /** The stream `d` is listed under task `t`. */
  predicate ListedUnder(d: StreamDescription, t: string) {
    SplitStreamName(d.name).Some? && SplitStreamName(d.name).value.task == t
  }

  /** Some stream of `ds` is listed under task `t`. */
  predicate HasTask(ds: seq<StreamDescription>, t: string) {
    exists i :: 0 <= i < |ds| && ListedUnder(ds[i], t)
  }

  /** Listing a concatenation lists the two parts one after the other, so the
      ports of a task appear in the order of their descriptions. */
  lemma {:induction false} PortsOfConcatenation(a: seq<StreamDescription>, b: seq<StreamDescription>, t: string)
    ensures PortsOfTask(a + b, t) == PortsOfTask(a, t) + PortsOfTask(b, t)
    decreases |b|
  {
    if |b| > 0 {
      var b' := b[..|b| - 1];
      assert (a + b)[..|a + b| - 1] == a + b';
      assert (a + b)[|a + b| - 1] == b[|b| - 1];
      PortsOfConcatenation(a, b', t);
    } else {
      assert a + b == a;
    }
  }

  /** Every row listed under task `t` comes from a stream called
      `t + "." + port` with that type name. */
  lemma {:induction false} PortsNameTheirStream(ds: seq<StreamDescription>, t: string, k: nat)
    requires k < |PortsOfTask(ds, t)|
    ensures exists i :: 0 <= i < |ds| && ds[i].name == t + "." + PortsOfTask(ds, t)[k].port &&
                        ds[i].typeName == PortsOfTask(ds, t)[k].typeName
    decreases |ds|
  {
    var front := ds[..|ds| - 1];
    if k < |PortsOfTask(front, t)| {
      PortsNameTheirStream(front, t, k);
      var i :| 0 <= i < |front| && front[i].name == t + "." + PortsOfTask(front, t)[k].port &&
               front[i].typeName == PortsOfTask(front, t)[k].typeName;
      assert ds[i] == front[i];
    }
  }

  /** The map `getStreamName` has built after the descriptions `ds`. */
  function Grouping(ds: seq<StreamDescription>): map<string, seq<PortEntry>>
    decreases |ds|
  {
    if |ds| == 0 then map[]
    else
      var m, d := Grouping(ds[..|ds| - 1]), ds[|ds| - 1];
      match SplitStreamName(d.name)
      case None => m
      case Some(tp) => m[tp.task := (if tp.task in m then m[tp.task] else []) + [PortEntry(tp.port, d.typeName)]]
  }

  /** The grouping has a key for exactly the tasks some stream is listed
      under, and holds under each the rows of that task in description order. */
  lemma {:induction false} GroupingListsEveryTask(ds: seq<StreamDescription>)
    ensures forall t :: t in Grouping(ds) <==> HasTask(ds, t)
    ensures forall t :: t in Grouping(ds) ==> Grouping(ds)[t] == PortsOfTask(ds, t)
    decreases |ds|
  {
    if |ds| == 0 {
    } else {
      var i := |ds| - 1;
      var front := ds[..i];
      assert ds[..i + 1] == ds;
      GroupingListsEveryTask(front);
      forall t
        ensures t in Grouping(ds) <==> HasTask(ds, t)
        ensures t in Grouping(ds) ==> Grouping(ds)[t] == PortsOfTask(ds, t)
      {
        GroupingStep(ds, i, t);
        if !HasTask(front, t) {
          NoTaskNoPorts(front, t);
        }
      }
    }
  }

  /** The grouping `getStreamName` builds from the reader's data-stream
      descriptions before showing the dialog: one key per task, its port rows
      in description order. */
  method GroupStreams(reader: LogReader) returns (streamMap: map<string, seq<PortEntry>>)
    ensures forall t :: t in streamMap <==> HasTask(DataDescriptions(reader.logFile.descriptions), t)
    ensures forall t :: t in streamMap ==> streamMap[t] == PortsOfTask(DataDescriptions(reader.logFile.descriptions), t)
  {
    var ds := reader.GetDescriptions();
    streamMap := map[];
    var i := 0;
    while i < |ds|
      invariant 0 <= i <= |ds|
      invariant streamMap == Grouping(ds[..i])
    {
      GroupingExtends(ds, i);
      var split := SplitStreamName(ds[i].name);
      if split.Some? {
        var task, port := split.value.task, split.value.port;
        var ports := if task in streamMap then streamMap[task] else [];
        streamMap := streamMap[task := ports + [PortEntry(port, ds[i].typeName)]];
      }
      i := i + 1;
    }
    assert ds[..i] == ds;
    GroupingListsEveryTask(ds);
  }

  /** The grouping after `i + 1` descriptions is the one after `i`, with the
      row of the description at `i` appended under its task. */
  lemma GroupingExtends(ds: seq<StreamDescription>, i: nat)
    requires i < |ds|
    ensures Grouping(ds[..i + 1]) ==
      match SplitStreamName(ds[i].name)
      case None => Grouping(ds[..i])
      case Some(tp) =>
        var m := Grouping(ds[..i]);
        m[tp.task := (if tp.task in m then m[tp.task] else []) + [PortEntry(tp.port, ds[i].typeName)]]
  {
    assert ds[..i + 1][..i] == ds[..i];
  }

  /** What the description at `i` adds to the grouping of the ones before it. */
  lemma GroupingStep(ds: seq<StreamDescription>, i: nat, t: string)
    requires i < |ds|
    ensures HasTask(ds[..i + 1], t) <==> HasTask(ds[..i], t) || RowOf(ds[i], t) != []
    ensures PortsOfTask(ds[..i + 1], t) == PortsOfTask(ds[..i], t) + RowOf(ds[i], t)
  {
    var pre, ext := ds[..i], ds[..i + 1];
    assert ext[..i] == pre && ext[i] == ds[i];
    HasTaskStep(pre, ext, t);
  }

  /** Adding one description adds a task exactly when that description lists
      a row under it. */
  lemma HasTaskStep(pre: seq<StreamDescription>, ext: seq<StreamDescription>, t: string)
    requires |ext| == |pre| + 1 && ext[..|pre|] == pre
    ensures HasTask(ext, t) <==> HasTask(pre, t) || RowOf(ext[|pre|], t) != []
  {
    var i := |pre|;
    assert RowOf(ext[i], t) != [] <==> ListedUnder(ext[i], t);
    if HasTask(ext, t) && !ListedUnder(ext[i], t) {
      var j :| 0 <= j < |ext| && ListedUnder(ext[j], t);
      assert pre[j] == ext[j];
    }
    if HasTask(pre, t) {
      var j :| 0 <= j < |pre| && ListedUnder(pre[j], t);
      assert ext[j] == pre[j];
    }
  }

  /** A task no stream is listed under has no rows. */
  lemma {:induction false} NoTaskNoPorts(ds: seq<StreamDescription>, t: string)
    requires !HasTask(ds, t)
    ensures PortsOfTask(ds, t) == []
    decreases |ds|
  {
    if |ds| > 0 {
      var front := ds[..|ds| - 1];
      assert forall j :: 0 <= j < |front| ==> front[j] == ds[j];
      NoTaskNoPorts(front, t);
    }
  }
}
