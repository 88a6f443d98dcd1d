/** The registry of requests that await a response: a map by session id, and for every holder a list of
    its sessions; a pending entry remembers its node in that list. */
module PendingResponses {
  import opened Basics

  type SessionId = nat
  type HolderId = nat
  /** The identity of a list node: what a list iterator points at. */
  type NodeId = nat

  datatype Node = Node(node: NodeId, session: SessionId)

  datatype Pending = Pending(session: SessionId, toService: nat, holder: HolderId, position: NodeId)

  datatype Registry = Registry(
    pending: map<SessionId, Pending>, lists: map<HolderId, seq<Node>>,
    lastSession: SessionId, nextNode: NodeId)
  {
    function List(h: HolderId): seq<Node> { if h in lists then lists[h] else [] }

    /** The map and the lists agree: a node stands in h's list exactly when it is the stored iterator of
        a pending session of holder h, and no node stands there twice. */
    ghost predicate Valid() {
      && 0 !in lists
      && (forall id | id in pending :: pending[id].session == id)
      && (forall h, n :: n in List(h) <==> Owned(h, n))
      && (forall h :: Distinct(List(h)))
      && (forall h, n :: n in List(h) ==> n.node < nextNode)
    }

    predicate Owned(h: HolderId, n: Node) {
      && h != 0 && n.session in pending
      && pending[n.session].holder == h && pending[n.session].position == n.node
    }
  }

  ghost predicate Distinct(list: seq<Node>) {
    forall i, j | 0 <= i < j < |list| :: list[i].node != list[j].node
  }

  const EMPTY := Registry(map[], map[], 0, 0)

  function NextSession(last: SessionId): SessionId {
    var id := (last + 1) % UINT64_COUNT;
    if id == 0 then 1 else id
  }

  /** None when the session is already pending. */
  function Add(r: Registry, toService: nat, id: SessionId, h: HolderId): Option<Registry> {
    if id in r.pending then None
    else if h == 0 then Some(r.(pending := r.pending[id := Pending(id, toService, h, 0)]))
    else Some(r.(pending := r.pending[id := Pending(id, toService, h, r.nextNode)],
                 lists := r.lists[h := r.List(h) + [Node(r.nextNode, id)]],
                 nextNode := r.nextNode + 1))
  }

  /** Erasing the node an iterator points at. */
  function Erase(list: seq<Node>, node: NodeId): (r: seq<Node>) {
    if list == [] then []
    else if list[0].node == node then list[1..]
    else [list[0]] + Erase(list[1..], node)
  }

  function Take(r: Registry, id: SessionId): Registry {
    if id !in r.pending then r
    else
      var p := r.pending[id];
      var r' := r.(pending := r.pending - {id});
      if p.holder != 0 && p.holder in r.lists
      then r'.(lists := r.lists[p.holder := Erase(r.lists[p.holder], p.position)])
      else r'
  }

  function Sessions(list: seq<Node>): set<SessionId> {
    set n | n in list :: n.session
  }

  function Cancel(r: Registry, h: HolderId): Registry {
    if h !in r.lists then r
    else r.(pending := r.pending - Sessions(r.lists[h]), lists := r.lists - {h})
  }

  // ----- the registry stays consistent

  lemma {:induction false} Erased(list: seq<Node>, node: NodeId)
    requires Distinct(list)
    ensures forall n :: n in Erase(list, node) <==> n in list && n.node != node
    ensures Distinct(Erase(list, node))
  {
    if list != [] {
      assert forall n :: n in list <==> n == list[0] || n in list[1..];
      assert forall i | 0 <= i < |list[1..]| :: list[1..][i] == list[i + 1];
      if list[0].node != node {
        Erased(list[1..], node);
        var rest := Erase(list[1..], node);
        forall j | 0 <= j < |rest| ensures rest[j].node != list[0].node {
          assert rest[j] in rest && rest[j] in list[1..];
          var k :| 0 <= k < |list[1..]| && list[1..][k] == rest[j];
          assert list[k + 1].node != list[0].node;
        }
      }
    }
  }

  lemma EmptyValid()
    ensures EMPTY.Valid()
  {
    assert forall h :: EMPTY.List(h) == [];
  }

  lemma AddKeepsValid(r: Registry, toService: nat, id: SessionId, h: HolderId)
    requires r.Valid() && id !in r.pending
    ensures Add(r, toService, id, h).value.Valid()
  {
    var r' := Add(r, toService, id, h).value;
    forall k ensures Distinct(r'.List(k)) && forall n :: n in r'.List(k) ==> n.node < r'.nextNode {
      assert Distinct(r.List(k));
      assert forall i | 0 <= i < |r.List(k)| :: r.List(k)[i] in r.List(k);
    }
    forall k, n ensures n in r'.List(k) <==> r'.Owned(k, n) {
      assert n in r.List(k) <==> r.Owned(k, n);
      if k == h != 0 {
        assert n in r'.List(k) <==> n in r.List(k) || n == Node(r.nextNode, id);
      }
    }
  }

  lemma TakeKeepsValid(r: Registry, id: SessionId)
    requires r.Valid() && id in r.pending
    ensures Take(r, id).Valid()
  {
    var r' := Take(r, id);
    var p := r.pending[id];
    if p.holder != 0 {
      assert r.Owned(p.holder, Node(p.position, id));
      Erased(r.List(p.holder), p.position);
    }
    forall k ensures Distinct(r'.List(k)) && forall n :: n in r'.List(k) ==> n in r.List(k) {
      assert Distinct(r.List(k));
    }
    forall k, n ensures n in r'.List(k) <==> r'.Owned(k, n) {
      assert n in r.List(k) <==> r.Owned(k, n);
    }
  }

  lemma CancelKeepsValid(r: Registry, h: HolderId)
    requires r.Valid()
    ensures Cancel(r, h).Valid()
  {
    var r' := Cancel(r, h);
    CancelExact(r, h);
    forall k ensures Distinct(r'.List(k)) {
      assert Distinct(r.List(k));
    }
    forall k, n ensures n in r'.List(k) <==> r'.Owned(k, n) {
      assert n in r.List(k) <==> r.Owned(k, n);
    }
  }

  /** Cancelling a holder removes its sessions and no others, and leaves every other holder's list, and
      every remaining entry, as it was. */
  lemma CancelExact(r: Registry, h: HolderId)
    requires r.Valid()
    ensures var r' := Cancel(r, h);
            && (forall id :: id in r'.pending <==> id in r.pending && (h == 0 || r.pending[id].holder != h))
            && (forall id | id in r'.pending :: r'.pending[id] == r.pending[id])
            && (forall k | k != h :: r'.List(k) == r.List(k))
            && r'.List(h) == []
  {
    forall id ensures id in Cancel(r, h).pending <==> id in r.pending && (h == 0 || r.pending[id].holder != h) {
      if id in r.pending {
        var n := Node(r.pending[id].position, id);
        assert n in r.List(h) <==> r.Owned(h, n);
        if h in r.lists && id in Sessions(r.lists[h]) {
          var m :| m in r.lists[h] && m.session == id;
          assert r.Owned(h, m);
        }
      }
    }
  }

  /** Add, then take: the same registry, but for an emptied list that stays and a spent node. */
  lemma TakeUndoesAdd(r: Registry, toService: nat, id: SessionId, h: HolderId)
    requires r.Valid() && id !in r.pending
    ensures var r' := Take(Add(r, toService, id, h).value, id);
            r'.pending == r.pending && forall k :: r'.List(k) == r.List(k)
  {
    if h != 0 {
      EraseLast(r.List(h), Node(r.nextNode, id));
    }
  }

  lemma {:induction false} EraseLast(list: seq<Node>, n: Node)
    requires forall m <- list :: m.node != n.node
    ensures Erase(list + [n], n.node) == list
  {
    if list != [] {
      assert (list + [n])[1..] == list[1..] + [n];
      EraseLast(list[1..], n);
    }
  }

  /** The part of the service object that keeps the registry. */
  class CoreService {
    var pending: map<SessionId, Pending>
    var lists: map<HolderId, seq<Node>>
    var lastSession: SessionId
    var nextNode: NodeId

    function View(): Registry
      reads this
    {
      Registry(pending, lists, lastSession, nextNode)
    }

    constructor ()
      ensures View() == EMPTY && View().Valid()
    {
      pending, lists, lastSession, nextNode := map[], map[], 0, 0;
      new;
      EmptyValid();
    }

    method GenSessionId() returns (id: SessionId)
      requires lastSession < UINT64_COUNT
      modifies this`lastSession
      ensures id == lastSession == NextSession(old(lastSession)) && 0 < id < UINT64_COUNT
    {
      lastSession := (lastSession + 1) % UINT64_COUNT;
      if lastSession == 0 {
        lastSession := 1;
      }
      id := lastSession;
    }

    method AddPendingResponseInfo(toService: nat, id: SessionId, h: HolderId) returns (added: Option<Pending>)
      requires View().Valid()
      modifies this
      ensures added.None? <==> id in old(pending)
      ensures added.None? ==> View() == old(View())
      ensures added.Some? ==> Some(View()) == Add(old(View()), toService, id, h) && added.value == pending[id]
      ensures View().Valid()
    {
      if id in pending {
        return None;
      }
      AddKeepsValid(View(), toService, id, h);
      var p := Pending(id, toService, h, 0);
      if h != 0 {
        var list := if h in lists then lists[h] else [];
        p := p.(position := nextNode);
        lists := lists[h := list + [Node(nextNode, id)]];
        nextNode := nextNode + 1;
      }
      pending := pending[id := p];
      added := Some(p);
    }

    method GetPendingResponseInfo(id: SessionId) returns (taken: Option<Pending>)
      requires View().Valid()
      modifies this
      ensures taken == if id in old(pending) then Some(old(pending[id])) else None
      ensures View() == Take(old(View()), id) && View().Valid()
    {
      if id !in pending {
        return None;
      }
      TakeKeepsValid(View(), id);
      var p := pending[id];
      pending := pending - {id};
      if p.holder != 0 && p.holder in lists {
        lists := lists[p.holder := Erase(lists[p.holder], p.position)];
      }
      taken := Some(p);
    }

    method DelPendingResponseInfo(h: HolderId)
      requires View().Valid()
      modifies this
      ensures View() == Cancel(old(View()), h) && View().Valid()
    {
      CancelKeepsValid(View(), h);
      if h !in lists {
        return;
      }
      var list := lists[h];
      for i := 0 to |list|
        invariant pending == old(pending) - Sessions(list[..i])
        invariant lists == old(lists) && lastSession == old(lastSession) && nextNode == old(nextNode)
      {
        assert list[..i + 1] == list[..i] + [list[i]];
        assert Sessions(list[..i + 1]) == Sessions(list[..i]) + {list[i].session};
        if list[i].session in pending {
          pending := pending - {list[i].session};
        }
      }
      assert list[..|list|] == list;
      lists := lists - {h};
    }
  }
}
