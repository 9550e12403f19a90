/** What a controller still waits to see: utils/expectations/expectations.go, utils/handler/expectations.go. */
module Expectations {
  import opened Core
  import opened Sorting

  datatype Expectation = Expectation(create: set<Name>, delete: set<Name>)

  /** An object as the event handler sees it; `controller` is the key of its owning controller, if it has the right kind. */
  datatype Object = Object(name: Name, deleting: bool, controller: Option<Name>)

  const NOTHING := Expectation({}, {})

  /** What the controller waits for; no entry is nothing. */
  function Current(entries: map<Name, Expectation>, key: Name): Expectation {
    if key in entries then entries[key] else NOTHING
  }

  /** Nothing recorded, or nothing left to wait for. */
  predicate Discharged(entries: map<Name, Expectation>, key: Name) {
    Current(entries, key) == NOTHING
  }

  function CreateSeen(e: Expectation, name: Name): Expectation {
    e.(create := e.create - {name})
  }

  function DeleteSeen(e: Expectation, name: Name): Expectation {
    e.(delete := e.delete - {name})
  }

  class Expectations {
    var entries: map<Name, Expectation>

    constructor ()
      ensures entries == map[]
    {
      entries := map[];
    }

    method Delete(key: Name)
      modifies this
      ensures Discharged(entries, key) && entries - {key} == old(entries) - {key}
    {
      entries := entries - {key};
      assert entries - {key} == old(entries) - {key};
    }

    /** Replaces what was expected before. */
    method ExpectCreationsAndDeletions(key: Name, created: seq<Name>, deleted: seq<Name>)
      modifies this
      ensures entries - {key} == old(entries) - {key}
      ensures forall n :: n in Current(entries, key).create <==> n in created
      ensures forall n :: n in Current(entries, key).delete <==> n in deleted
    {
      entries := entries[key := Expectation(set n | n in created, set n | n in deleted)];
      assert entries - {key} == old(entries) - {key};
    }

    method CreationObserved(key: Name, created: Name)
      modifies this
      ensures Current(entries, key) == CreateSeen(old(Current(entries, key)), created) && entries - {key} == old(entries) - {key}
    {
      if key !in entries {
        assert CreateSeen(NOTHING, created) == NOTHING;
        return;
      }
      entries := entries[key := CreateSeen(entries[key], created)];
      assert entries - {key} == old(entries) - {key};
    }

    method DeletionObserved(key: Name, deleted: Name)
      modifies this
      ensures Current(entries, key) == DeleteSeen(old(Current(entries, key)), deleted) && entries - {key} == old(entries) - {key}
    {
      if key !in entries {
        assert DeleteSeen(NOTHING, deleted) == NOTHING;
        return;
      }
      entries := entries[key := DeleteSeen(entries[key], deleted)];
      assert entries - {key} == old(entries) - {key};
    }

    /** `late` says whether the recorded expectation is older than the timeout. */
    method Satisfied(key: Name, late: bool) returns (ok: bool)
      ensures ok <==> Discharged(entries, key) || late
    {
      if key !in entries {
        return true;
      }
      if late {
        return true;
      }
      return |entries[key].create| == 0 && |entries[key].delete| == 0;
    }

    /** The Create and Generic event handlers: an object that is already being deleted only counts as deleted. */
    method AddHandler(obj: Object)
      modifies this
      ensures obj.controller.None? ==> entries == old(entries)
      ensures obj.controller.Some? ==>
        var key := obj.controller.value;
        && Current(entries, key) == (if obj.deleting then DeleteSeen(old(Current(entries, key)), obj.name)
                                     else CreateSeen(old(Current(entries, key)), obj.name))
        && entries - {key} == old(entries) - {key}
    {
      if obj.deleting {
        DeleteHandler(obj);
        return;
      }
      if obj.controller.None? {
        return;
      }
      CreationObserved(obj.controller.value, obj.name);
    }

    method DeleteHandler(obj: Object)
      modifies this
      ensures obj.controller.None? ==> entries == old(entries)
      ensures obj.controller.Some? ==>
        var key := obj.controller.value;
        Current(entries, key) == DeleteSeen(old(Current(entries, key)), obj.name) && entries - {key} == old(entries) - {key}
    {
      if obj.controller.None? {
        return;
      }
      DeletionObserved(obj.controller.value, obj.name);
    }
  }

  function Drawn(draws: seq<Name>): set<Name> {
    set n | n in draws
  }

  /**
   * GenerateCreateNames: `draws` is the stream of random names; None stands for a stream that ends before
   * enough different names were drawn.
   */
  method GenerateCreateNames(count: nat, draws: seq<Name>) returns (r: Option<seq<Name>>)
    ensures r.None? <==> |Drawn(draws)| < count
    ensures r.Some? ==> |r.value| == count && NoDup(r.value) && forall n | n in r.value :: n in draws
  {
    var names: set<Name>, d := {}, 0;
    while |names| < count
      invariant 0 <= d <= |draws| && |names| <= count
      invariant names == Drawn(draws[..d])
      decreases |draws| - d
    {
      if d == |draws| {
        assert draws[..d] == draws;
        return None;
      }
      assert draws[..d + 1] == draws[..d] + [draws[d]];
      names := names + {draws[d]};
      d := d + 1;
    }
    CardSubset(names, Drawn(draws));
    var list := Listed(names);
    return Some(list);
  }
}
