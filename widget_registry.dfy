/** The registry of viewer factories keyed by type name (`widgetMap` and
    `addWidget` of `QLogViewer`, filled by `RegisterQLogViewer` objects), and
    the lookup `create` does with it. A factory is any value of type `F`. */
module WidgetRegistry {

  import opened Pocolog

  /** `std::map::insert`: a key already present keeps its value. */
  function Insert<F>(m: map<string, F>, key: string, f: F): (r: map<string, F>)
    ensures r.Keys == m.Keys + {key}
    ensures key in m ==> r[key] == m[key]
    ensures key !in m ==> r[key] == f
    ensures forall k :: k in m && k != key ==> r[k] == m[k]
  {
    if key in m then m else m[key := f]
  }

  datatype Registration<F> = Registration(typeName: string, factory: F)

  /** The map after the registrations `regs`, made in this order. */
  function RegisterAll<F>(m: map<string, F>, regs: seq<Registration<F>>): map<string, F>
    decreases |regs|
  {
    if |regs| == 0 then m else RegisterAll(Insert(m, regs[0].typeName, regs[0].factory), regs[1..])
  }

  /** Registering never removes a type, and every registered type is present. */
  lemma {:induction false} RegisterAllKeys<F>(m: map<string, F>, regs: seq<Registration<F>>)
    ensures RegisterAll(m, regs).Keys == m.Keys + set i | 0 <= i < |regs| :: regs[i].typeName
    ensures forall k :: k in m ==> RegisterAll(m, regs)[k] == m[k]
    decreases |regs|
  {
    if |regs| > 0 {
      var m' := Insert(m, regs[0].typeName, regs[0].factory);
      RegisterAllKeys(m', regs[1..]);
      var later := set i | 0 <= i < |regs[1..]| :: regs[1..][i].typeName;
      var all := set i | 0 <= i < |regs| :: regs[i].typeName;
      assert all == {regs[0].typeName} + later by {
        forall x | x in all
          ensures x in {regs[0].typeName} + later
        {
          var i :| 0 <= i < |regs| && regs[i].typeName == x;
          if i > 0 {
            assert regs[1..][i - 1].typeName == x;
          }
        }
      }
    }
  }

  /** When a type name is registered more than once, the first registration
      wins. */
  lemma {:induction false} FirstRegistrationWins<F>(m: map<string, F>, regs: seq<Registration<F>>, i: nat)
    requires i < |regs| && regs[i].typeName !in m
    requires forall j :: 0 <= j < i ==> regs[j].typeName != regs[i].typeName
    ensures regs[i].typeName in RegisterAll(m, regs) && RegisterAll(m, regs)[regs[i].typeName] == regs[i].factory
    decreases |regs|
  {
    RegisterAllKeys(m, regs);
    RegisterAllKeys(Insert(m, regs[0].typeName, regs[0].factory), regs[1..]);
    if i > 0 {
      FirstRegistrationWins(Insert(m, regs[0].typeName, regs[0].factory), regs[1..], i - 1);
    }
  }

  class WidgetMap<F> {
    var widgets: map<string, F>

    constructor ()
      ensures widgets == map[]
    {
      widgets := map[];
    }

    method AddWidget(typeName: string, f: F)
      modifies this
      ensures widgets == Insert(old(widgets), typeName, f)
    {
      if typeName !in widgets {
        widgets := widgets[typeName := f];
      }
    }

    /** The factory `create` calls for a type name; a name nobody registered
        is the "Not implemented" error. */
    method Lookup(typeName: string) returns (r: Option<F>)
      ensures r.Some? <==> typeName in widgets
      ensures r.Some? ==> r.value == widgets[typeName]
    {
      if typeName in widgets {
        r := Some(widgets[typeName]);
      } else {
        r := None;
      }
    }
  }

  /** How creating a viewer ends. */
  datatype Creation<V> = Created(viewer: V) | Thrown(message: string)

  /** The factory for a sample type without a viewer of its own: it always
      throws. */
  function CreateLogViewer<T, V>(): (r: Creation<V>)
    ensures r.Thrown? && r.message == "Not implemented"
  {
    Thrown("Not implemented")
  }
}
