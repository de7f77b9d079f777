/** What one relinking of the allowed-IPs trie keeps: hanging a leaf, slipping a node in
    above an existing one, and cutting out a node with at most one child. Every insert and
    remove is one or two of these. */
module AllowedIpsUpdates {
  import opened Options
  import opened BitKeys
  import opened AllowedIpsTrie

  /** Everything about a node that decides what the trie denotes. */
  predicate SameEntry(a: Node, b: Node) {
    a.(up := b.up) == b
  }

  ghost predicate OthersSame(t: Trie, t': Trie, out: set<Ptr>) {
    && (forall p :: p in t.nodes && p !in out ==> p in t'.nodes && SameEntry(t.nodes[p], t'.nodes[p]))
    && (forall p :: p in t'.nodes && p !in out ==> p in t.nodes)
  }

  /** A pointer that is not allocated owns no cell. */
  lemma NoCells(t: Trie, p: Ptr, b: bool)
    requires Linked(t) && p !in t.nodes
    ensures BitCell(p, b) !in t.links
  {
    assert CellOk(t, BitCell(p, b));
  }

  // ---- hanging a leaf ---------------------------------------------------------

  function Hang(t: Trie, p: Ptr, n: Node): (t': Trie) {
    Trie(t.nodes[p := n], t.links[n.up := p])
  }

  lemma HangKeeps(t: Trie, p: Ptr, n: Node)
    requires Linked(t) && p !in t.nodes
    requires Fits(t, n.up, n) && n.cidr <= |n.bits| == Width(n.fam) && n.up !in t.links
    ensures var t' := Hang(t, p, n);
            && Linked(t') && OthersSame(t, t', {p})
            && (forall q {:trigger Earned(t', q)} :: q != p && Earned(t, q) ==> Earned(t', q))
  {
    var t' := Hang(t, p, n);
    forall c ensures CellOk(t', c) {
      assert CellOk(t, c);
    }
    forall q ensures NodeOk(t', q) {
      assert NodeOk(t, q);
    }
  }

  // ---- slipping a node in above `d` ------------------------------------------

  function SlipIn(t: Trie, p: Ptr, n: Node, d: Ptr, b: bool): (t': Trie)
    requires d in t.nodes
  {
    Trie(t.nodes[p := n][d := t.nodes[d].(up := BitCell(p, b))],
         t.links[n.up := p][BitCell(p, b) := d])
  }

  lemma SlipInKeeps(t: Trie, p: Ptr, n: Node, d: Ptr, b: bool)
    requires Linked(t) && p !in t.nodes && d in t.nodes
    requires Fits(t, n.up, n) && n.cidr <= |n.bits| == Width(n.fam)
    requires Get(t, n.up) == Some(d) && Below(n, t.nodes[d], b)
    ensures var t' := SlipIn(t, p, n, d, b);
            && Linked(t') && OthersSame(t, t', {p}) && t'.nodes[p] == n
            && BitCell(p, !b) !in t'.links
            && (forall q {:trigger Earned(t', q)} :: q != p && Earned(t, q) ==> Earned(t', q))
  {
    var t' := SlipIn(t, p, n, d, b);
    NoCells(t, p, b);
    NoCells(t, p, !b);
    assert CellOk(t, n.up);
    forall c ensures CellOk(t', c) {
      assert CellOk(t, c);
      if c in t'.links && c != n.up && c != BitCell(p, b) {
        assert t.links[c] != d;
      }
    }
    forall q ensures NodeOk(t', q) {
      assert NodeOk(t, q);
    }
  }

  // ---- cutting a node out ------------------------------------------------------

  /** `node->bit[!node->bit[0]]`: the only child of a node with at most one. */
  function OnlyKid(t: Trie, p: Ptr): (k: Option<Ptr>) {
    if BitCell(p, false) in t.links then Get(t, BitCell(p, false)) else Get(t, BitCell(p, true))
  }

  function Cut(t: Trie, p: Ptr): (t': Trie)
    requires p in t.nodes
    requires OnlyKid(t, p).Some? ==> OnlyKid(t, p).value in t.nodes
  {
    var up := t.nodes[p].up;
    var links := t.links - {BitCell(p, false), BitCell(p, true)};
    match OnlyKid(t, p)
    case None => Trie(t.nodes - {p}, links - {up})
    case Some(k) => Trie(t.nodes[k := t.nodes[k].(up := up)] - {p}, links[up := k])
  }

  lemma BelowTrans(n: Node, c: Node, g: Node, b: bool, b': bool)
    requires Below(n, c, b) && Below(c, g, b')
    ensures Below(n, g, b)
  {
  }

  lemma OnlyKidAllocated(t: Trie, p: Ptr)
    requires Linked(t)
    ensures OnlyKid(t, p).Some? ==> OnlyKid(t, p).value in t.nodes
  {
    assert CellOk(t, BitCell(p, false)) && CellOk(t, BitCell(p, true));
  }

  lemma CutCells(t: Trie, p: Ptr, c: Cell)
    requires Linked(t) && p in t.nodes
    requires BitCell(p, false) !in t.links || BitCell(p, true) !in t.links
    ensures (OnlyKidAllocated(t, p); CellOk(Cut(t, p), c))
  {
    var up := t.nodes[p].up;
    var k := OnlyKid(t, p);
    var side := BitCell(p, false) !in t.links;
    assert NodeOk(t, p) && CellOk(t, up) && CellOk(t, BitCell(p, side)) && CellOk(t, c);
    if k.Some? && up.BitCell? {
      BelowTrans(t.nodes[up.node], t.nodes[p], t.nodes[k.value], up.bit, side);
    }
  }

  lemma CutNodes(t: Trie, p: Ptr, q: Ptr)
    requires Linked(t) && p in t.nodes
    requires BitCell(p, false) !in t.links || BitCell(p, true) !in t.links
    ensures (OnlyKidAllocated(t, p); NodeOk(Cut(t, p), q))
  {
    OnlyKidAllocated(t, p);
    assert NodeOk(t, p) && NodeOk(t, q);
    if q in t.nodes { assert CellOk(t, t.nodes[q].up); }
  }

  /** Cutting out a node with at most one child keeps the links and every other entry; only
      a branching parent of a childless node loses its second branch. */
  lemma CutKeeps(t: Trie, p: Ptr)
    requires Linked(t) && p in t.nodes
    requires BitCell(p, false) !in t.links || BitCell(p, true) !in t.links
    ensures OnlyKid(t, p).Some? ==> OnlyKid(t, p).value in t.nodes
    ensures var t' := Cut(t, p);
            && Linked(t') && OthersSame(t, t', {p}) && p !in t'.nodes
            && (forall q {:trigger Earned(t', q)} ::
                  Earned(t, q) && !(OnlyKid(t, p).None? && t.nodes[p].up.BitCell? && t.nodes[p].up.node == q
                                    && q in t.nodes && t.nodes[q].peer.None?)
                  ==> Earned(t', q))
  {
    OnlyKidAllocated(t, p);
    var t' := Cut(t, p);
    forall c ensures CellOk(t', c) {
      CutCells(t, p, c);
    }
    forall q ensures NodeOk(t', q) {
      CutNodes(t, p, q);
    }
  }

  // ---- what each does to the prefix map ---------------------------------------

  lemma SamePrefixSameNode(t: Trie, p: Ptr, q: Ptr)
    requires Linked(t) && p in t.nodes && q in t.nodes
    requires t.nodes[p].cidr <= |t.nodes[p].bits| && t.nodes[q].cidr <= |t.nodes[q].bits|
    requires PrefixOf(t.nodes[p]) == PrefixOf(t.nodes[q])
    ensures p == q
  {
    assert NodeOk(t, p) && NodeOk(t, q);
    assert t.nodes[p].cidr == |PrefixOf(t.nodes[p]).pfx|;
    AgreeIsSamePrefix(t.nodes[p].bits, t.nodes[q].bits, t.nodes[p].cidr);
    OnPath(t, p, q, t.nodes[p].bits);
  }

  /** New entry `p`; every other pointer in `out` carries no peer. */
  lemma DenotesAfterAdd(t: Trie, t': Trie, m: PrefixMap, out: set<Ptr>, p: Ptr)
    requires Denotes(t, m) && Linked(t') && OthersSame(t, t', out)
    requires p in t'.nodes && p in out && t'.nodes[p].peer.Some?
    requires t'.nodes[p].cidr <= |t'.nodes[p].bits|
    requires forall q :: q in out && q != p ==> q !in t.nodes && (q in t'.nodes ==> t'.nodes[q].peer.None?)
    requires p in t.nodes ==> t.nodes[p].(peer := t'.nodes[p].peer) == t'.nodes[p]
    ensures Denotes(t', m[PrefixOf(t'.nodes[p]) := t'.nodes[p].peer.value])
  {
    var x := PrefixOf(t'.nodes[p]);
    var m' := m[x := t'.nodes[p].peer.value];
    forall q | q in t'.nodes && t'.nodes[q].peer.Some?
      ensures t'.nodes[q].cidr <= |t'.nodes[q].bits|
      ensures PrefixOf(t'.nodes[q]) in m' && m'[PrefixOf(t'.nodes[q])] == t'.nodes[q].peer.value
    {
      assert NodeOk(t', q);
      if q != p {
        assert q in t.nodes && SameEntry(t.nodes[q], t'.nodes[q]);
        if PrefixOf(t'.nodes[q]) == x { SamePrefixSameNode(t', p, q); }
      }
    }
    forall y | y in m' ensures exists q :: Holds(t', y, m'[y], q) {
      if y == x {
        assert Holds(t', y, m'[y], p);
      } else {
        var q :| Holds(t, y, m[y], q);
        assert Holds(t', y, m'[y], q);
      }
    }
  }

  /** Entry `p` is gone or has lost its peer; every other pointer in `out` carried none. */
  lemma DenotesAfterRemove(t: Trie, t': Trie, m: PrefixMap, out: set<Ptr>, p: Ptr)
    requires Linked(t) && Denotes(t, m) && OthersSame(t, t', out)
    requires p in t.nodes && p in out && t.nodes[p].cidr <= |t.nodes[p].bits|
    requires p in t'.nodes ==> t'.nodes[p].peer.None?
    requires forall q :: q in out && q != p ==> q !in t'.nodes && (q in t.nodes ==> t.nodes[q].peer.None?)
    ensures Denotes(t', m - {PrefixOf(t.nodes[p])})
  {
    var x := PrefixOf(t.nodes[p]);
    var m' := m - {x};
    forall q | q in t'.nodes && t'.nodes[q].peer.Some?
      ensures t'.nodes[q].cidr <= |t'.nodes[q].bits|
      ensures PrefixOf(t'.nodes[q]) in m' && m'[PrefixOf(t'.nodes[q])] == t'.nodes[q].peer.value
    {
      assert q in t.nodes && SameEntry(t.nodes[q], t'.nodes[q]);
      if PrefixOf(t.nodes[q]) == x { SamePrefixSameNode(t, p, q); }
    }
    forall y | y in m' ensures exists q :: Holds(t', y, m'[y], q) {
      var q :| Holds(t, y, m[y], q);
      assert Holds(t', y, m'[y], q);
    }
  }
}
