/** The net thread's index of core connections: by id, and by type in creation order. */
module ConnectionIndex {
  import opened Basics
  import opened Bytes

  type Id = nat
  /** The bytes of a type name. */
  type Name = seq<byte>

  /** A core connection, standing for the pointer to it; id and type never change. */
  datatype Connection = Connection(id: Id, kind: Name)

  datatype Index = Index(byId: map<Id, Connection>, byType: map<Name, seq<Connection>>, nextId: Id) {
    function OfType(kind: Name): seq<Connection> {
      if kind in byType then byType[kind] else []
    }

    /** The list of a type holds a connection once if it is live and of that type, else not at all. */
    ghost predicate Listed(kind: Name, c: Connection) {
      multiset(OfType(kind))[c] == if c.id in byId && byId[c.id] == c && c.kind == kind then 1 else 0
    }

    /** The two maps agree: the list of a type holds each live connection of that type exactly once, and
        nothing else; ids are never reused. */
    ghost predicate Valid() {
      && (forall id | id in byId :: byId[id].id == id && id < nextId)
      && (forall kind, c :: Listed(kind, c))
    }
  }

  const EMPTY := Index(map[], map[], 1)

  function Create(ix: Index, kind: Name): Index {
    var c := Connection(ix.nextId, kind);
    Index(ix.byId[c.id := c], ix.byType[kind := ix.OfType(kind) + [c]], ix.nextId + 1)
  }

  /** std::list::remove: every occurrence goes. */
  function Remove(list: seq<Connection>, c: Connection): (r: seq<Connection>) {
    if list == [] then []
    else (if list[0] == c then [] else [list[0]]) + Remove(list[1..], c)
  }

  function Destroy(ix: Index, id: Id): Index {
    if id !in ix.byId then ix
    else
      var c := ix.byId[id];
      var byType := if c.kind in ix.byType then ix.byType[c.kind := Remove(ix.byType[c.kind], c)] else ix.byType;
      Index(ix.byId - {c.id}, byType, ix.nextId)
  }

  /** The connections a broadcast reaches, in list order. */
  function Targets(list: seq<Connection>, excluded: seq<Id>): seq<Connection> {
    if list == [] then []
    else (if list[0].id in excluded then [] else [list[0]]) + Targets(list[1..], excluded)
  }

  lemma {:induction false} RemoveCounts(list: seq<Connection>, c: Connection, d: Connection)
    ensures multiset(Remove(list, c))[d] == if d == c then 0 else multiset(list)[d]
  {
    if list != [] {
      RemoveCounts(list[1..], c, d);
      assert list == [list[0]] + list[1..];
    }
  }

  lemma {:induction false} TargetsCounts(list: seq<Connection>, excluded: seq<Id>, d: Connection)
    ensures multiset(Targets(list, excluded))[d] == if d.id in excluded then 0 else multiset(list)[d]
  {
    if list != [] {
      TargetsCounts(list[1..], excluded, d);
      assert list == [list[0]] + list[1..];
    }
  }

  lemma {:induction false} TargetsSnoc(list: seq<Connection>, c: Connection, excluded: seq<Id>)
    ensures Targets(list + [c], excluded) == Targets(list, excluded) + if c.id in excluded then [] else [c]
  {
    if list == [] {
      assert list + [c] == [c];
    } else {
      TargetsSnoc(list[1..], c, excluded);
      assert (list + [c])[1..] == list[1..] + [c];
    }
  }

  lemma EmptyValid()
    ensures EMPTY.Valid()
  {
    assert forall kind :: EMPTY.OfType(kind) == [];
  }

  lemma CreateKeepsValid(ix: Index, kind: Name)
    requires ix.Valid()
    ensures Create(ix, kind).Valid() && ix.nextId !in ix.byId
  {
    var ix' := Create(ix, kind);
    var c := Connection(ix.nextId, kind);
    forall k, d ensures ix'.Listed(k, d) {
      assert ix.Listed(k, d);
      assert multiset(ix.OfType(kind) + [c]) == multiset(ix.OfType(kind)) + multiset{c};
    }
  }

  lemma DestroyAt(ix: Index, id: Id, kind: Name, d: Connection)
    requires id in ix.byId && ix.byId[id].id == id && ix.Listed(kind, d)
    ensures Destroy(ix, id).Listed(kind, d)
  {
    var c, ix' := ix.byId[id], Destroy(ix, id);
    if kind == c.kind {
      RemoveCounts(ix.OfType(kind), c, d);
      assert ix'.OfType(kind) == Remove(ix.OfType(kind), c);
    } else {
      assert ix'.OfType(kind) == ix.OfType(kind);
    }
  }

  lemma DestroyKeepsValid(ix: Index, id: Id)
    requires ix.Valid()
    ensures Destroy(ix, id).Valid()
    ensures Destroy(ix, id).byId == ix.byId - {id}
  {
    if id in ix.byId {
      forall kind, d ensures Destroy(ix, id).Listed(kind, d) {
        assert ix.Listed(kind, d);
        DestroyAt(ix, id, kind, d);
      }
    }
  }

  /** A broadcast to a type reaches every live connection of that type that is not excluded exactly once,
      and reaches nothing else. */
  lemma ReachesExactlyOnce(ix: Index, kind: Name, excluded: seq<Id>, c: Connection)
    requires ix.Valid()
    ensures multiset(Targets(ix.OfType(kind), excluded))[c]
            == if c.id in ix.byId && ix.byId[c.id] == c && c.kind == kind && c.id !in excluded then 1 else 0
  {
    TargetsCounts(ix.OfType(kind), excluded, c);
    assert ix.Listed(kind, c);
  }

  /** One message handed to one connection. */
  datatype Delivery<M> = Delivery(to: Connection, message: M)

  function Deliveries<M>(to: seq<Connection>, message: M): seq<Delivery<M>> {
    seq(|to|, i requires 0 <= i < |to| => Delivery(to[i], message))
  }

  class CoreConnectionMgr<M> {
    var byId: map<Id, Connection>
    var byType: map<Name, seq<Connection>>
    var nextId: Id
    /** What has been handed to connections so far. */
    var sent: seq<Delivery<M>>

    function View(): Index
      reads this
    {
      Index(byId, byType, nextId)
    }

    constructor ()
      ensures View() == EMPTY && View().Valid() && sent == []
    {
      byId, byType, nextId, sent := map[], map[], 1, [];
      new;
      EmptyValid();
    }

    method CreateCoreConnection(kind: Name) returns (c: Connection)
      requires View().Valid()
      modifies this
      ensures View() == Create(old(View()), kind) && View().Valid() && sent == old(sent)
      ensures c.id !in old(byId) && byId == old(byId)[c.id := c] && c.kind == kind
    {
      CreateKeepsValid(View(), kind);
      c := Connection(nextId, kind);
      nextId := nextId + 1;
      byId := byId[c.id := c];
      byType := byType[kind := (if kind in byType then byType[kind] else []) + [c]];
    }

    method DestroyCoreConnection(id: Id)
      requires View().Valid()
      modifies this
      ensures View() == Destroy(old(View()), id) && View().Valid() && sent == old(sent)
      ensures byId == old(byId) - {id}
    {
      DestroyKeepsValid(View(), id);
      if id !in byId {
        return;
      }
      var c := byId[id];
      if c.kind in byType {
        var list := byType[c.kind];
        byType := byType[c.kind := Remove(list, c)];
      }
      byId := byId - {c.id};
    }

    method GetCoreConnectionBySocketId(id: Id) returns (c: Option<Connection>)
      requires View().Valid()
      ensures c.Some? <==> id in byId
      ensures c.Some? ==> c.value.id == id && c.value == byId[id]
    {
      c := if id in byId then Some(byId[id]) else None;
    }

    method SendTo(c: Connection, message: M)
      modifies this`sent
      ensures sent == old(sent) + Deliveries([c], message)
    {
      sent := sent + [Delivery(c, message)];
    }

    method Broadcast(kind: Name, message: M, excluded: seq<Id>)
      modifies this`sent
      ensures sent == old(sent) + Deliveries(Targets(View().OfType(kind), excluded), message)
    {
      if kind !in byType {
        return;
      }
      var list := byType[kind];
      for i := 0 to |list|
        invariant sent == old(sent) + Deliveries(Targets(list[..i], excluded), message)
      {
        var found := false;
        var j := 0;
        while j < |excluded| && !found
          invariant j <= |excluded|
          invariant found <==> list[i].id in excluded[..j]
        {
          found := excluded[j] == list[i].id;
          j := j + 1;
        }
        assert found <==> list[i].id in excluded by {
          if !found { assert excluded[..j] == excluded; }
        }
        TargetsSnoc(list[..i], list[i], excluded);
        assert list[..i + 1] == list[..i] + [list[i]];
        if !found {
          SendTo(list[i], message);
        }
      }
      assert list[..|list|] == list;
    }
  }
}
