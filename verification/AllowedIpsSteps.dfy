/** The five ways an insert relinks the table and the one way a remove does, each shown to
    keep the whole table good and to change the prefix map in exactly one entry. */
module AllowedIpsSteps {
  import opened Options
  import opened AllowedIpsTrie
  import opened AllowedIpsUpdates
  import opened PeerLists

  /** The table is well formed, denotes `m`, and the peer lists name exactly its entries. */
  ghost predicate Good(t: Trie, lists: Lists, m: PrefixMap) {
    WF(t) && Denotes(t, m) && ListsOk(t.nodes, lists)
  }

  lemma PeersFollow(t: Trie, t': Trie, p: Ptr, out: set<Ptr>)
    requires OthersSame(t, t', out) && p in out
    requires forall q :: q in out && q != p ==>
               (q in t.nodes ==> t.nodes[q].peer.None?) && (q in t'.nodes ==> t'.nodes[q].peer.None?)
    ensures PeersSameBut(t.nodes, t'.nodes, p)
  {
  }

  // ---- insert -------------------------------------------------------------------

  function SetPeer(t: Trie, p: Ptr, peer: Option<Peer>): (t': Trie)
    requires p in t.nodes
  {
    t.(nodes := t.nodes[p := t.nodes[p].(peer := peer)])
  }

  lemma SetPeerKeeps(t: Trie, p: Ptr, peer: Option<Peer>)
    requires Linked(t) && p in t.nodes
    ensures var t' := SetPeer(t, p, peer);
            && Linked(t') && OthersSame(t, t', {p})
            && (forall q {:trigger Earned(t', q)} :: (q != p || peer.Some?) && Earned(t, q) ==> Earned(t', q))
  {
    var t' := SetPeer(t, p, peer);
    forall c ensures CellOk(t', c) {
      assert CellOk(t, c);
    }
    forall q ensures NodeOk(t', q) {
      assert NodeOk(t, q);
    }
  }

  lemma ExactStep(t: Trie, lists: Lists, m: PrefixMap, p: Ptr, peer: Peer)
    requires Good(t, lists, m) && p in t.nodes && t.nodes[p].cidr <= |t.nodes[p].bits|
    ensures Good(SetPeer(t, p, Some(peer)), Attach(Detach(lists, t.nodes[p].peer, p), peer, p),
                 m[PrefixOf(t.nodes[p]) := peer])
  {
    var t' := SetPeer(t, p, Some(peer));
    SetPeerKeeps(t, p, Some(peer));
    forall q ensures Earned(t', q) { assert Earned(t, q); }
    DenotesAfterAdd(t, t', m, {p}, p);
    var none := SetPeer(t, p, None);
    DetachOk(t.nodes, none.nodes, lists, p);
    AttachOk(none.nodes, t'.nodes, Detach(lists, t.nodes[p].peer, p), p);
  }

  lemma LeafStep(t: Trie, lists: Lists, m: PrefixMap, p: Ptr, n: Node)
    requires Good(t, lists, m) && p !in t.nodes && n.peer.Some?
    requires Fits(t, n.up, n) && n.cidr <= |n.bits| == Width(n.fam) && n.up !in t.links
    ensures Good(Hang(t, p, n), Attach(lists, n.peer.value, p), m[PrefixOf(n) := n.peer.value])
  {
    var t' := Hang(t, p, n);
    HangKeeps(t, p, n);
    forall q ensures Earned(t', q) { assert Earned(t, q); }
    DenotesAfterAdd(t, t', m, {p}, p);
    AttachOk(t.nodes, t'.nodes, lists, p);
  }

  lemma SlipStep(t: Trie, lists: Lists, m: PrefixMap, p: Ptr, n: Node, d: Ptr, b: bool)
    requires Good(t, lists, m) && p !in t.nodes && n.peer.Some? && d in t.nodes
    requires Fits(t, n.up, n) && n.cidr <= |n.bits| == Width(n.fam)
    requires Get(t, n.up) == Some(d) && Below(n, t.nodes[d], b)
    ensures Good(SlipIn(t, p, n, d, b), Attach(lists, n.peer.value, p), m[PrefixOf(n) := n.peer.value])
  {
    var t' := SlipIn(t, p, n, d, b);
    SlipInKeeps(t, p, n, d, b);
    forall q ensures Earned(t', q) { assert Earned(t, q); }
    DenotesAfterAdd(t, t', m, {p}, p);
    AttachOk(t.nodes, t'.nodes, lists, p);
  }

  /** A peerless node `g` above `d`, with the new entry `p` as its other branch. */
  lemma GlueStep(t: Trie, lists: Lists, m: PrefixMap, g: Ptr, gn: Node, d: Ptr, b: bool, p: Ptr, n: Node)
    requires Good(t, lists, m) && p !in t.nodes && g !in t.nodes && p != g && n.peer.Some? && d in t.nodes
    requires gn.peer.None? && Fits(t, gn.up, gn) && gn.cidr <= |gn.bits| == Width(gn.fam)
    requires Get(t, gn.up) == Some(d) && Below(gn, t.nodes[d], b)
    requires n.up == BitCell(g, !b) && Below(gn, n, !b) && n.cidr <= |n.bits| == Width(n.fam)
    ensures Good(Hang(SlipIn(t, g, gn, d, b), p, n), Attach(lists, n.peer.value, p), m[PrefixOf(n) := n.peer.value])
  {
    var t1 := SlipIn(t, g, gn, d, b);
    SlipInKeeps(t, g, gn, d, b);
    var t2 := Hang(t1, p, n);
    HangKeeps(t1, p, n);
    forall q ensures Earned(t2, q) { assert Earned(t, q); assert q != g ==> Earned(t1, q); }
    assert OthersSame(t, t2, {g, p});
    DenotesAfterAdd(t, t2, m, {g, p}, p);
    PeersFollow(t, t2, p, {g, p});
    AttachOk(t.nodes, t2.nodes, lists, p);
  }

  // ---- remove -------------------------------------------------------------------

  /** `free_parent`: a childless node whose parent only branches takes the parent with it. */
  predicate FreesParent(t: Trie, p: Ptr)
    requires p in t.nodes
  {
    && BitCell(p, false) !in t.links && BitCell(p, true) !in t.links
    && t.nodes[p].up.BitCell?
    && t.nodes[p].up.node in t.nodes && t.nodes[t.nodes[p].up.node].peer.None?
  }

  /** The table after `remove_node`. */
  ghost function Removed(t: Trie, p: Ptr): (t': Trie)
    requires Linked(t) && p in t.nodes
  {
    SetPeerKeeps(t, p, None);
    var t1 := SetPeer(t, p, None);
    if BitCell(p, false) in t.links && BitCell(p, true) in t.links then t1
    else
      CutKeeps(t1, p);
      var t2 := Cut(t1, p);
      if !FreesParent(t, p) then t2
      else
        OnlyKidAllocated(t2, t.nodes[p].up.node);
        ParentLives(t, p);
        Cut(t2, t.nodes[p].up.node)
  }

  lemma ParentLives(t: Trie, p: Ptr)
    requires Linked(t) && p in t.nodes && t.nodes[p].up.BitCell?
    ensures t.nodes[p].up.node in t.nodes && t.nodes[p].up.node != p
  {
    assert NodeOk(t, p) && CellOk(t, t.nodes[p].up);
  }

  lemma RemovedKeepsShape(t: Trie, p: Ptr)
    requires WF(t) && p in t.nodes
    ensures WF(Removed(t, p))
    ensures OthersSame(t, Removed(t, p), if FreesParent(t, p) then {p, t.nodes[p].up.node} else {p})
    ensures p in Removed(t, p).nodes ==> Removed(t, p).nodes[p].peer.None?
    ensures FreesParent(t, p) ==> t.nodes[p].up.node !in Removed(t, p).nodes
  {
    var t1 := SetPeer(t, p, None);
    SetPeerKeeps(t, p, None);
    forall q ensures Earned(t, q) && (q != p ==> Earned(t1, q)) { assert Earned(t, q); assert q != p ==> Earned(t1, q); }
    if BitCell(p, false) in t.links && BitCell(p, true) in t.links {
      forall q ensures Earned(t1, q) { assert Earned(t, q); }
    } else {
      CutKeeps(t1, p);
      var t2 := Cut(t1, p);
      if !FreesParent(t, p) {
        if t.nodes[p].up.BitCell? { ParentLives(t, p); }
        forall q ensures Earned(t2, q) { assert q != p ==> Earned(t1, q); }
      } else {
        var q0 := t.nodes[p].up.node;
        ParentLives(t, p);
        assert Earned(t, q0);
        CutKeeps(t2, q0);
        var t3 := Cut(t2, q0);
        forall q ensures Earned(t3, q) { assert q != p ==> Earned(t1, q); assert q != q0 ==> Earned(t2, q); }
      }
    }
  }

  lemma RemoveStep(t: Trie, lists: Lists, m: PrefixMap, p: Ptr)
    requires Good(t, lists, m) && p in t.nodes && t.nodes[p].cidr <= |t.nodes[p].bits|
    ensures Good(Removed(t, p), Detach(lists, t.nodes[p].peer, p),
                 if t.nodes[p].peer.Some? then m - {PrefixOf(t.nodes[p])} else m)
  {
    var t' := Removed(t, p);
    RemovedKeepsShape(t, p);
    var out := if FreesParent(t, p) then {p, t.nodes[p].up.node} else {p};
    PeersFollow(t, t', p, out);
    DetachOk(t.nodes, t'.nodes, lists, p);
    if t.nodes[p].peer.Some? {
      DenotesAfterRemove(t, t', m, out, p);
    } else {
      assert Earned(t, p);
      assert SetPeer(t, p, None) == t;
    }
  }
}
