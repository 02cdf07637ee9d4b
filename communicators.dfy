/** `Communicator` (legate/core/communicator.py:23-42): a cache of communicator handles keyed by
    launch volume. A handle is created by the subclass's `_initialize` on first request and
    handed to its `_finalize` when the communicator is destroyed. */
module Communicators {
  import opened Errors
  import opened Dicts

  type Volume = int

  /** Whatever `_initialize` returns. */
  type Handle = nat

  /** The calls the base class makes into its subclass. */
  datatype Event =
    | Initialized(volume: Volume)
    | Finalized(volume: Volume, handle: Handle)

  /** The volumes `_initialize` was called for, in call order. */
  function Inits(events: seq<Event>): (r: seq<Volume>)
    ensures |r| <= |events|
  {
    if events == [] then []
    else
      var last := events[|events| - 1];
      Inits(events[..|events| - 1]) + (if last.Initialized? then [last.volume] else [])
  }

  /** The `_finalize` calls `destroy` makes for the cache entries, in the cache's order. */
  function Finalizations(comms: seq<(Volume, Handle)>): (r: seq<Event>)
    ensures |r| == |comms| && forall i :: 0 <= i < |comms| ==> r[i] == Finalized(comms[i].0, comms[i].1)
  {
    seq(|comms|, i requires 0 <= i < |comms| => Finalized(comms[i].0, comms[i].1))
  }

  lemma {:induction false} InitsAppend(a: seq<Event>, b: seq<Event>)
    ensures Inits(a + b) == Inits(a) + Inits(b)
  {
    if b == [] {
      assert a + b == a;
    } else {
      var n := |b| - 1;
      InitsAppend(a, b[..n]);
      assert (a + b)[..|a| + n] == a + b[..n];
      assert (a + b)[|a| + n] == b[n];
      var tail := if b[n].Initialized? then [b[n].volume] else [];
      assert Inits(a + b) == Inits(a) + Inits(b[..n]) + tail;
    }
  }

  /** `_finalize` calls add nothing to the initialisation log. */
  lemma {:induction false} InitsFinalizations(comms: seq<(Volume, Handle)>)
    ensures Inits(Finalizations(comms)) == []
  {
    if comms != [] {
      var n := |comms| - 1;
      InitsFinalizations(comms[..n]);
      assert Finalizations(comms)[..n] == Finalizations(comms[..n]);
    }
  }

  class Communicator {
    var comms: seq<(Volume, Handle)>
    var events: seq<Event>

    /** The cache holds each volume once, and `_initialize` has been called exactly for the
        cached volumes, once each, in the order they were cached. */
    ghost predicate Valid()
      reads this
    {
      DistinctKeys(comms) && Inits(events) == KeyList(comms)
    }

    /** `Communicator.__init__` */
    constructor ()
      ensures Valid() && comms == [] && events == []
    {
      comms := [];
      events := [];
    }

    /** `get_communicator(volume)`: a cached volume returns its handle; a new one calls
        `_initialize(volume)`, whose result is `initialized`, and caches it at the end. */
    method GetCommunicator(volume: Volume, initialized: Handle) returns (h: Handle)
      requires Valid()
      modifies this
      ensures Valid()
      ensures Find(old(comms), volume).Some? ==>
                h == old(comms)[Find(old(comms), volume).value].1 && comms == old(comms) && events == old(events)
      ensures Find(old(comms), volume).None? ==>
                h == initialized && comms == old(comms) + [(volume, initialized)] && events == old(events) + [Initialized(volume)]
      ensures Find(comms, volume).Some? && comms[Find(comms, volume).value].1 == h
      ensures forall v :: v != volume ==> Find(comms, v) == Find(old(comms), v)
    {
      var found := Find(comms, volume);
      if found.None? {
        PutShape(comms, volume, initialized);
        PutKeys(comms, volume, initialized);
        FindPutSame(comms, volume, initialized);
        forall v | v != volume ensures Find(Put(comms, volume, initialized), v) == Find(comms, v) {
          FindPutOther(comms, volume, initialized, v);
        }
        InitsAppend(events, [Initialized(volume)]);
        comms := Put(comms, volume, initialized);
        events := events + [Initialized(volume)];
      }
      h := comms[Find(comms, volume).value].1;
    }

    /** `destroy`: `_finalize(volume, handle)` for every cached entry, in insertion order. The
        cache is not cleared, so a later `get_communicator` returns a finalised handle. */
    method Destroy()
      requires Valid()
      modifies this`events
      ensures Valid() && events == old(events) + Finalizations(comms)
    {
      var i := 0;
      while i < |comms|
        invariant 0 <= i <= |comms|
        invariant events == old(events) + Finalizations(comms[..i])
      {
        assert Finalizations(comms[..i + 1]) == Finalizations(comms[..i]) + [Finalized(comms[i].0, comms[i].1)];
        events := events + [Finalized(comms[i].0, comms[i].1)];
        i := i + 1;
      }
      assert comms[..i] == comms;
      InitsFinalizations(comms);
      InitsAppend(old(events), Finalizations(comms));
    }
  }
}
