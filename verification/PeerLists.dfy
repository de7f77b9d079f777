/** Each peer's `allowedips_list`: the nodes carrying that peer, each once, in the order
    they were attached. A peer missing from the map has the empty list. */
module PeerLists {
  import opened Options
  import opened AllowedIpsTrie

  type Lists = map<Peer, seq<Ptr>>

  function ListOf(lists: Lists, peer: Peer): (l: seq<Ptr>) {
    if peer in lists then lists[peer] else []
  }

  ghost predicate NoDup(l: seq<Ptr>) {
    forall i, j :: 0 <= i < j < |l| ==> l[i] != l[j]
  }

  function PeerAt(nodes: map<Ptr, Node>, p: Ptr): (peer: Option<Peer>) {
    if p in nodes then nodes[p].peer else None
  }

  /** `l` holds each node that carries `peer`, once. */
  ghost predicate Lists1(nodes: map<Ptr, Node>, l: seq<Ptr>, peer: Peer) {
    NoDup(l) && forall p :: p in l <==> PeerAt(nodes, p) == Some(peer)
  }

  ghost predicate ListOk(nodes: map<Ptr, Node>, lists: Lists, peer: Peer) {
    Lists1(nodes, ListOf(lists, peer), peer)
  }

  ghost predicate ListsOk(nodes: map<Ptr, Node>, lists: Lists) {
    forall peer {:trigger ListOk(nodes, lists, peer)} :: ListOk(nodes, lists, peer)
  }

  /** `list_del` of a node that may be on the list. */
  function Without(l: seq<Ptr>, p: Ptr): (r: seq<Ptr>)
    ensures forall q :: q in r <==> q in l && q != p
  {
    if l == [] then []
    else
      assert l == [l[0]] + l[1..];
      if l[0] == p then Without(l[1..], p) else [l[0]] + Without(l[1..], p)
  }

  lemma {:induction false} WithoutNoDup(l: seq<Ptr>, p: Ptr)
    requires NoDup(l)
    ensures NoDup(Without(l, p))
  {
    if l != [] {
      WithoutNoDup(l[1..], p);
      var r := Without(l[1..], p);
      forall k | 0 <= k < |r| ensures r[k] != l[0] {
        assert r[k] in l[1..];
      }
    }
  }

  lemma {:induction false} WithoutAbsent(l: seq<Ptr>, p: Ptr)
    requires p !in l
    ensures Without(l, p) == l
  {
    if l != [] { WithoutAbsent(l[1..], p); }
  }

  /** Take a node off its peer's list, if it carries one. */
  function Detach(lists: Lists, peer: Option<Peer>, p: Ptr): (r: Lists)
    ensures forall q: Peer :: ListOf(r, q) == if peer == Some(q) then Without(ListOf(lists, q), p) else ListOf(lists, q)
  {
    if peer.Some? then lists[peer.value := Without(ListOf(lists, peer.value), p)] else lists
  }

  function Attach(lists: Lists, peer: Peer, p: Ptr): (r: Lists)
    ensures forall q: Peer :: ListOf(r, q) == if peer == q then ListOf(lists, q) + [p] else ListOf(lists, q)
  {
    lists[peer := ListOf(lists, peer) + [p]]
  }

  /** The peers of all nodes but `p` are the same in both slabs. */
  ghost predicate PeersSameBut(nodes: map<Ptr, Node>, nodes': map<Ptr, Node>, p: Ptr) {
    forall q :: q != p ==> PeerAt(nodes, q) == PeerAt(nodes', q)
  }

  lemma DetachOk(nodes: map<Ptr, Node>, nodes': map<Ptr, Node>, lists: Lists, p: Ptr)
    requires ListsOk(nodes, lists) && p in nodes && PeersSameBut(nodes, nodes', p)
    requires PeerAt(nodes', p).None?
    ensures ListsOk(nodes', Detach(lists, nodes[p].peer, p))
  {
    var lists' := Detach(lists, nodes[p].peer, p);
    forall peer: Peer ensures ListOk(nodes', lists', peer) {
      var l := ListOf(lists, peer);
      assert ListOk(nodes, lists, peer);
      WithoutNoDup(l, p);
      if nodes[p].peer == Some(peer) {
        assert Lists1(nodes', Without(l, p), peer);
      } else {
        assert Lists1(nodes', l, peer);
      }
    }
  }

  lemma AttachOk(nodes: map<Ptr, Node>, nodes': map<Ptr, Node>, lists: Lists, p: Ptr)
    requires ListsOk(nodes, lists) && PeersSameBut(nodes, nodes', p)
    requires PeerAt(nodes, p).None?
    requires p in nodes' && nodes'[p].peer.Some?
    ensures ListsOk(nodes', Attach(lists, nodes'[p].peer.value, p))
  {
    var lists' := Attach(lists, nodes'[p].peer.value, p);
    forall peer: Peer ensures ListOk(nodes', lists', peer) {
      assert ListOk(nodes, lists, peer);
    }
  }

  lemma {:induction false} WithoutLast(l: seq<Ptr>, p: Ptr)
    requires p !in l
    ensures Without(l + [p], p) == l
  {
    if l == [] {
      assert l + [p] == [p];
    } else {
      assert (l + [p])[1..] == l[1..] + [p];
      WithoutLast(l[1..], p);
    }
  }

  /** Taking a failed insert's node off the list again restores every list. */
  lemma UndoAttach(nodes: map<Ptr, Node>, lists: Lists, peer: Peer, p: Ptr)
    requires ListsOk(nodes, lists) && p !in nodes
    ensures forall q: Peer :: ListOf(Detach(Attach(lists, peer, p), Some(peer), p), q) == ListOf(lists, q)
    ensures ListsOk(nodes, Detach(Attach(lists, peer, p), Some(peer), p))
  {
    var lists' := Detach(Attach(lists, peer, p), Some(peer), p);
    assert ListOk(nodes, lists, peer);
    WithoutLast(ListOf(lists, peer), p);
    forall q ensures ListOk(nodes, lists', q) {
      assert ListOk(nodes, lists, q);
    }
  }

  /** Taking the head off a duplicate-free list leaves its tail, so the entry saved for the
      next iteration is still the next one. */
  lemma WithoutHead(l: seq<Ptr>)
    requires NoDup(l) && l != []
    ensures Without(l, l[0]) == l[1..]
  {
    forall i | 0 <= i < |l[1..]| ensures l[1..][i] != l[0] { }
    WithoutAbsent(l[1..], l[0]);
  }

  ghost predicate TakenOffOne(nodes: map<Ptr, Node>, l0: seq<Ptr>, l: seq<Ptr>, done: set<Ptr>, peer: Peer) {
    forall p :: p in l <==> p in l0 && !(p in done && PeerAt(nodes, p) == Some(peer))
  }

  /** `lists` is `lists0` with the nodes of `done` taken off the lists of their peers. */
  ghost predicate TakenOff(nodes: map<Ptr, Node>, lists0: Lists, lists: Lists, done: set<Ptr>) {
    forall peer: Peer :: TakenOffOne(nodes, ListOf(lists0, peer), ListOf(lists, peer), done, peer)
  }

  lemma TakeOff(nodes: map<Ptr, Node>, lists0: Lists, lists: Lists, done: set<Ptr>, p: Ptr)
    requires TakenOff(nodes, lists0, lists, done) && p in nodes
    ensures TakenOff(nodes, lists0, Detach(lists, nodes[p].peer, p), done + {p})
  {
    var lists' := Detach(lists, nodes[p].peer, p);
    forall peer: Peer ensures TakenOffOne(nodes, ListOf(lists0, peer), ListOf(lists', peer), done + {p}, peer) {
      assert TakenOffOne(nodes, ListOf(lists0, peer), ListOf(lists, peer), done, peer);
    }
  }
}
