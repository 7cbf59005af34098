/** The sharded table as an object: the table behaves as one flat map. */
module WaitObject {
  import opened Wrappers

  const SHARDS := 64

  type Id = nat

  /** A channel of capacity one. */
  class Chan<V> {
    var buf: seq<V>
    var closed: bool

    constructor ()
      ensures buf == [] && !closed
    {
      buf, closed := [], false;
    }
  }

  class WaitList<V> {
    const e: array<map<Id, Chan<V>>>

    /** Each identifier is stored in its own shard, with an open empty channel nobody shares. */
    ghost predicate Valid()
      reads this, e, Channels()
    {
      && e.Length == SHARDS
      && (forall j: nat, id: Id :: j < SHARDS && id in e[j] ==>
            id % SHARDS == j && e[j][id].buf == [] && !e[j][id].closed)
      && (forall id: Id, other: Id :: id != other && id in e[id % SHARDS] && other in e[other % SHARDS] ==>
            e[id % SHARDS][id] != e[other % SHARDS][other])
    }

    ghost function Channels(): set<Chan<V>>
      reads this, e
    {
      set j: nat, id: Id | j < e.Length && id in e[j] :: e[j][id]
    }

    /** The flat view: what a single map would return. */
    ghost function Lookup(id: Id): Option<Chan<V>>
      reads this, e
      requires e.Length == SHARDS
    {
      if id in e[id % SHARDS] then Some(e[id % SHARDS][id]) else None
    }

    constructor ()
      ensures Valid() && fresh(e) && forall id: Id :: Lookup(id) == None
    {
      e := new map<Id, Chan<V>>[SHARDS](i => map[]);
    }

    /** None stands for the panic on a duplicate identifier. */
    method Register(id: Id) returns (ch: Option<Chan<V>>)
      requires Valid()
      modifies e
      ensures Valid()
      ensures ch.None? <==> old(Lookup(id)).Some?
      ensures ch.Some? ==> fresh(ch.value) && Lookup(id) == ch
      ensures forall other: Id :: other != id || ch.None? ==> Lookup(other) == old(Lookup(other))
    {
      var idx := id % SHARDS;
      var newCh := new Chan<V>();
      if id in e[idx] {
        return None;
      }
      e[idx] := e[idx][id := newCh];
      return Some(newCh);
    }

    /** The entry goes, and its channel, if any, gets x and is closed. */
    method Trigger(id: Id, x: V)
      requires Valid()
      modifies e, Channels()
      ensures Valid() && Lookup(id) == None
      ensures forall other: Id :: other != id ==> Lookup(other) == old(Lookup(other))
      ensures old(Lookup(id)).Some? ==> old(Lookup(id)).value.buf == [x] && old(Lookup(id)).value.closed
    {
      var idx := id % SHARDS;
      var ch := if id in e[idx] then Some(e[idx][id]) else None;
      e[idx] := e[idx] - {id};
      if ch.Some? {
        ch.value.buf := ch.value.buf + [x];
        ch.value.closed := true;
      }
    }

    method IsRegistered(id: Id) returns (ok: bool)
      requires Valid()
      ensures ok <==> Lookup(id).Some?
    {
      ok := id in e[id % SHARDS];
    }
  }
}
