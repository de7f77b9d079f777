/** The mutable table of panel/awgsrc/src/allowedips.c: node slab, pointer cells and the
    per-peer lists of nodes, with the plain prefix map they stand for as a ghost field. */
module AllowedIps {
  import opened Options
  import opened BitKeys
  import opened AllowedIpsTrie
  import opened AllowedIpsUpdates
  import opened AllowedIpsSteps
  import opened AllowedIpsWalk
  import opened PeerLists

  datatype Status = Ok | Invalid | NoMemory

  /** A search for `key` may stand on node `at`, or on no node yet. */
  ghost predicate Standing(t: Trie, f: Family, key: Key, at: Option<Ptr>) {
    at.Some? ==> at.value in t.nodes && t.nodes[at.value].fam == f && Matches(t.nodes[at.value], key)
  }

  /** The cell the search looks into next: the root cell or the key's side of `at`. */
  ghost predicate NextCell(t: Trie, f: Family, key: Key, at: Option<Ptr>, c: Cell) {
    match at
    case None => c == RootCell(f)
    case Some(p) => p in t.nodes && t.nodes[p].cidr < |key| && c == BitCell(p, key[t.nodes[p].cidr])
  }

  /** Cell `c` does not lead to a matching node of at most `cidr` bits. */
  ghost predicate DeadEnd(t: Trie, key: Key, cidr: nat, c: Cell) {
    c in t.links && t.links[c] in t.nodes ==>
      !(t.nodes[t.links[c]].cidr <= cidr && Matches(t.nodes[t.links[c]], key))
  }

  /** Past a dead end there are no matching nodes of at most `cidr` bits. */
  lemma PastDeadEnd(t: Trie, f: Family, key: Key, cidr: nat, at: Option<Ptr>, c: Cell, p: Ptr)
    requires Linked(t) && |key| == Width(f) && Standing(t, f, key, at) && NextCell(t, f, key, at, c)
    requires DeadEnd(t, key, cidr, c)
    requires p in t.nodes && t.nodes[p].fam == f && Matches(t.nodes[p], key) && t.nodes[p].cidr <= cidr
    ensures at.Some? && t.nodes[p].cidr <= t.nodes[at.value].cidr
  {
    RootIsLeast(t, p);
    if at.Some? && t.nodes[at.value].cidr < t.nodes[p].cidr { OnPath(t, at.value, p, key); }
  }

  /** One step down the path passes no matching node. */
  lemma StepDown(t: Trie, f: Family, key: Key, at: Option<Ptr>, c: Cell, p: Ptr)
    requires Linked(t) && |key| == Width(f) && Standing(t, f, key, at) && NextCell(t, f, key, at, c)
    requires c in t.links && Standing(t, f, key, Some(t.links[c]))
    requires p in t.nodes && t.nodes[p].fam == f && Matches(t.nodes[p], key)
    requires t.nodes[p].cidr <= t.nodes[t.links[c]].cidr
    ensures p == t.links[c] || (at.Some? && t.nodes[p].cidr <= t.nodes[at.value].cidr)
  {
    RootIsLeast(t, p);
    OnPath(t, p, t.links[c], key);
    if at.Some? && t.nodes[at.value].cidr < t.nodes[p].cidr { OnPath(t, at.value, p, key); }
  }

  /** `found` is the longest match among the nodes passed down to `last`. */
  ghost predicate Best(t: Trie, f: Family, key: Key, last: Option<Ptr>, found: Option<Ptr>) {
    && Standing(t, f, key, last) && Standing(t, f, key, found)
    && (found.Some? ==> t.nodes[found.value].peer.Some?)
    && forall p :: p in t.nodes && t.nodes[p].fam == f && t.nodes[p].peer.Some? && Matches(t.nodes[p], key)
         && last.Some? && t.nodes[p].cidr <= t.nodes[last.value].cidr
         ==> found.Some? && t.nodes[p].cidr <= t.nodes[found.value].cidr
  }

  lemma BestStep(t: Trie, f: Family, key: Key, last: Option<Ptr>, c: Cell, found: Option<Ptr>)
    requires Linked(t) && |key| == Width(f) && Best(t, f, key, last, found) && NextCell(t, f, key, last, c)
    requires c in t.links && Standing(t, f, key, Some(t.links[c]))
    ensures Best(t, f, key, Some(t.links[c]), if t.nodes[t.links[c]].peer.Some? then Some(t.links[c]) else found)
  {
    forall p | p in t.nodes && t.nodes[p].fam == f && Matches(t.nodes[p], key)
                 && t.nodes[p].cidr <= t.nodes[t.links[c]].cidr
      ensures p == t.links[c] || (last.Some? && t.nodes[p].cidr <= t.nodes[last.value].cidr)
    {
      StepDown(t, f, key, last, c, p);
    }
  }

  lemma BestAtEnd(t: Trie, m: PrefixMap, f: Family, key: Key, last: Option<Ptr>, c: Cell, found: Option<Ptr>)
    requires Linked(t) && Denotes(t, m) && |key| == Width(f) && Best(t, f, key, last, found)
    requires || (last.Some? && t.nodes[last.value].cidr == |key|)
             || (NextCell(t, f, key, last, c) && DeadEnd(t, key, |key|, c))
    ensures LongestMatch(m, f, key, |key|) == if found.Some? then t.nodes[found.value].peer else None
  {
    forall p | p in t.nodes && t.nodes[p].fam == f && t.nodes[p].peer.Some? && Matches(t.nodes[p], key)
      ensures found.Some? && t.nodes[p].cidr <= t.nodes[found.value].cidr
    {
      if !(last.Some? && t.nodes[last.value].cidr == |key|) {
        PastDeadEnd(t, f, key, |key|, last, c, p);
      }
    }
    FoundIsLongest(t, m, f, key, found, |key|);
  }

  /** Where `node_placement` stops: on the node of exactly this prefix, or on the deepest
      node above it. */
  ghost predicate Placed(t: Trie, f: Family, key: Key, cidr: nat, exact: bool, at: Option<Ptr>) {
    && Standing(t, f, key, at)
    && (if exact then at.Some? && t.nodes[at.value].cidr == cidr
        else
          && (at.Some? ==> t.nodes[at.value].cidr < cidr)
          && exists c :: NextCell(t, f, key, at, c) && DeadEnd(t, key, cidr, c))
  }

  /** The order in which the pointers are written makes no difference to the result. */
  lemma GlueShape(t: Trie, g: Ptr, gn: Node, d: Ptr, b: bool, p: Ptr, n: Node)
    requires d in t.nodes && p !in t.nodes && g !in t.nodes && p != g
    ensures var nodes1 := t.nodes[g := gn][p := n];
            var nodes2 := nodes1[d := nodes1[d].(up := BitCell(g, !b))];
            var nodes3 := nodes2[p := nodes2[p].(up := BitCell(g, b))];
            Trie(nodes3, t.links[gn.up := g][BitCell(g, !b) := d][BitCell(g, b) := p])
            == Hang(SlipIn(t, g, gn, d, !b), p, n.(up := BitCell(g, b)))
  {
  }

  /** The new entry fits the cell where the search stopped. */
  lemma EntryFits(t: Trie, f: Family, key: Key, at: Option<Ptr>, cell: Cell, n: Node)
    requires Linked(t) && |key| == Width(f) && Standing(t, f, key, at) && NextCell(t, f, key, at, cell)
    requires n.fam == f && n.bits == key && n.cidr <= |key|
    requires at.Some? ==> t.nodes[at.value].cidr < n.cidr
    ensures Fits(t, cell, n)
  {
  }

  /** What hangs in that cell goes below the new entry when it shares the whole new prefix. */
  lemma DownUnderEntry(t: Trie, f: Family, key: Key, cidr: nat, cell: Cell, n: Node)
    requires Linked(t) && cidr <= |key| == Width(f) && DeadEnd(t, key, cidr, cell) && cell in t.links
    requires n.fam == f && n.bits == key && n.cidr == cidr && Fits(t, cell, n)
    ensures t.links[cell] in t.nodes && |t.nodes[t.links[cell]].bits| == |key|
    ensures cidr <= CommonBits(t.nodes[t.links[cell]].bits, key) ==>
              cidr < |key| && Below(n, t.nodes[t.links[cell]], t.nodes[t.links[cell]].bits[cidr])
  {
    assert CellOk(t, cell) && NodeOk(t, t.links[cell]);
  }

  /** Otherwise both go below a branching node at the first bit where they differ. */
  lemma BothUnderGlue(t: Trie, f: Family, key: Key, cidr: nat, at: Option<Ptr>, cell: Cell, n: Node, gn: Node)
    requires Linked(t) && cidr <= |key| == Width(f) && DeadEnd(t, key, cidr, cell) && cell in t.links
    requires Standing(t, f, key, at) && NextCell(t, f, key, at, cell)
    requires n.fam == f && n.bits == key && n.cidr == cidr && gn.fam == f && gn.bits == key
    requires t.links[cell] in t.nodes && |t.nodes[t.links[cell]].bits| == |key|
    requires gn.cidr == CommonBits(t.nodes[t.links[cell]].bits, key) < cidr
    ensures Fits(t, cell, gn)
    ensures Below(gn, t.nodes[t.links[cell]], !key[gn.cidr]) && Below(gn, n, key[gn.cidr])
  {
    assert CellOk(t, cell) && NodeOk(t, t.links[cell]);
  }

  /** Without an exact placement the prefix is not in the map. */
  lemma NoEntryHere(t: Trie, m: PrefixMap, f: Family, key: Key, cidr: nat, at: Option<Ptr>)
    requires Linked(t) && Denotes(t, m) && cidr <= |key| == Width(f) && Placed(t, f, key, cidr, false, at)
    ensures Prefix(f, key[..cidr]) !in m
  {
    var x := Prefix(f, key[..cidr]);
    if x in m {
      var p :| Holds(t, x, m[x], p);
      assert NodeOk(t, p);
      assert |PrefixOf(t.nodes[p]).pfx| == t.nodes[p].cidr == cidr;
      AgreeIsSamePrefix(t.nodes[p].bits, key, cidr);
      var c :| NextCell(t, f, key, at, c) && DeadEnd(t, key, cidr, c);
      PastDeadEnd(t, f, key, cidr, at, c, p);
    }
  }

  /** A node's prefix is in the map exactly when the node carries a peer, and holds it. */
  lemma EntryHere(t: Trie, m: PrefixMap, p: Ptr)
    requires Linked(t) && Denotes(t, m) && p in t.nodes
    ensures t.nodes[p].cidr <= |t.nodes[p].bits|
    ensures (PrefixOf(t.nodes[p]) in m) == t.nodes[p].peer.Some?
    ensures t.nodes[p].peer.Some? ==> m[PrefixOf(t.nodes[p])] == t.nodes[p].peer.value
  {
    assert NodeOk(t, p);
    var x := PrefixOf(t.nodes[p]);
    if x in m {
      var q :| Holds(t, x, m[x], q);
      SamePrefixSameNode(t, p, q);
    }
  }

  ghost function Members(t: Trie, f: Family): (s: set<Ptr>) {
    set p | p in t.nodes && t.nodes[p].fam == f
  }

  /** The pointer cells that are not cells of the given nodes. */
  ghost function LinksOutside(links: map<Cell, Ptr>, gone: set<Ptr>): (r: map<Cell, Ptr>) {
    map c | c in links && !(c.BitCell? && c.node in gone) :: links[c]
  }

  lemma OneMoreOutside(links: map<Cell, Ptr>, gone: set<Ptr>, p: Ptr)
    ensures LinksOutside(links, gone + {p}) == LinksOutside(links, gone) - {BitCell(p, false), BitCell(p, true)}
  {
    forall c: Cell | c.BitCell? && c.node == p ensures c == BitCell(p, false) || c == BitCell(p, true) { }
  }

  /** After both families are freed nothing is left allocated or linked. */
  lemma AllFreed(t: Trie, nodes: map<Ptr, Node>, links: map<Cell, Ptr>)
    requires Linked(t)
    requires nodes == t.nodes - Members(t, V4) - Members(t, V6)
    requires links == LinksOutside(LinksOutside(t.links - {RootCell(V4), RootCell(V6)}, Members(t, V4)), Members(t, V6))
    ensures nodes == map[] && links == map[]
  {
    forall p | p in t.nodes ensures p in Members(t, V4) || p in Members(t, V6) {
      assert t.nodes[p].fam == V4 || t.nodes[p].fam == V6;
    }
    forall c | c in t.links ensures c !in links {
      assert CellOk(t, c);
      match c
      case RootCell(f) => assert f == V4 || f == V6;
      case BitCell(q, _) => assert q in t.nodes;
    }
  }

  /** ... and nothing is left on a list. */
  lemma AllTakenOff(t: Trie, l0: Lists, l1: Lists, l2: Lists, peer: Peer)
    requires ListsOk(t.nodes, l0)
    requires TakenOff(t.nodes, l0, l1, Members(t, V4)) && TakenOff(t.nodes, l1, l2, Members(t, V6))
    ensures ListOf(l2, peer) == []
  {
    assert ListOk(t.nodes, l0, peer);
    assert TakenOffOne(t.nodes, ListOf(l0, peer), ListOf(l1, peer), Members(t, V4), peer);
    assert TakenOffOne(t.nodes, ListOf(l1, peer), ListOf(l2, peer), Members(t, V6), peer);
    if |ListOf(l2, peer)| > 0 {
      var p := ListOf(l2, peer)[0];
      assert p in ListOf(l0, peer);
      match t.nodes[p].fam
      case V4 =>
      case V6 =>
    }
  }

  lemma EmptyIsGood(lists: Lists)
    requires forall peer: Peer :: ListOf(lists, peer) == []
    ensures Good(Trie(map[], map[]), lists, map[])
  {
    forall peer ensures ListOk(map[], lists, peer) {
      assert ListOf(lists, peer) == [];
    }
  }

  // ---- operations on the plain prefix map --------------------------------------

  datatype Op =
    | Insert(f: Family, key: Key, cidr: nat, peer: Option<Peer>, mem: (bool, bool))
    | Delete(f: Family, key: Key, cidr: nat, peer: Option<Peer>)
    | DeletePeer(who: Peer)
    | Clear

  predicate KeyOk(op: Op) {
    op.Insert? || op.Delete? ==> |op.key| == Width(op.f)
  }

  /** The arguments an operation refuses: a mask longer than the address, or no peer. */
  predicate Improper(op: Op) {
    (op.Insert? && op.peer.None?) || ((op.Insert? || op.Delete?) && op.cidr > |op.key|)
  }

  /** What an operation that returned `st` does to a plain map from prefixes to peers. */
  function PlainStep(m: PrefixMap, op: Op, st: Status): (m': PrefixMap)
    requires KeyOk(op)
  {
    match op
    case Insert(f, key, cidr, peer, _) =>
      if st == Ok && cidr <= |key| && peer.Some? then m[Prefix(f, key[..cidr]) := peer.value] else m
    case Delete(f, key, cidr, peer) =>
      if cidr <= |key| && Prefix(f, key[..cidr]) in m && peer == Some(m[Prefix(f, key[..cidr])])
      then m - {Prefix(f, key[..cidr])} else m
    case DeletePeer(peer) => map x | x in m && m[x] != peer :: m[x]
    case Clear => map[]
  }

  /** The status an operation may return. */
  predicate Answered(op: Op, st: Status) {
    && (st == NoMemory ==> op.Insert? && !(op.mem.0 && op.mem.1))
    && (st == Invalid <==> Improper(op))
  }

  function PlainRun(m: PrefixMap, ops: seq<Op>, sts: seq<Status>): (m': PrefixMap)
    requires |ops| == |sts| && forall op :: op in ops ==> KeyOk(op)
  {
    if ops == [] then m
    else PlainStep(PlainRun(m, ops[..|ops| - 1], sts[..|ops| - 1]), ops[|ops| - 1], sts[|ops| - 1])
  }

  lemma PlainRunMore(m: PrefixMap, ops: seq<Op>, sts: seq<Status>, op: Op, st: Status)
    requires |ops| == |sts| && (forall o :: o in ops ==> KeyOk(o)) && KeyOk(op)
    ensures PlainRun(m, ops + [op], sts + [st]) == PlainStep(PlainRun(m, ops, sts), op, st)
  {
    assert (ops + [op])[..|ops|] == ops && (sts + [st])[..|sts|] == sts;
  }

  class Table {
    var nodes: map<Ptr, Node>
    var links: map<Cell, Ptr>
    var lists: Lists
    ghost var plain: PrefixMap

    ghost function Shape(): (t: Trie)
      reads this
    {
      Trie(nodes, links)
    }

    ghost predicate Valid()
      reads this
    {
      Good(Shape(), lists, plain)
    }

    constructor ()
      ensures Valid() && plain == map[]
    {
      nodes, links, lists, plain := map[], map[], map[], map[];
    }

    function Load(c: Cell): (p: Option<Ptr>)
      reads this
    {
      if c in links then Some(links[c]) else None
    }

    /** A fresh slab object, or none when the allocator refuses. Objects in `held` are
        allocated but not linked yet. */
    method Alloc(granted: bool, held: set<Ptr>) returns (p: Option<Ptr>)
      ensures p.Some? == granted
      ensures p.Some? ==> p.value !in nodes && p.value !in held
    {
      if !granted { return None; }
      var top: Ptr, rest := 0, nodes.Keys + held;
      while rest != {}
        invariant forall q :: (q in nodes || q in held) && q !in rest ==> q < top
        decreases rest
      {
        var q :| q in rest;
        if q >= top { top := q + 1; }
        rest := rest - {q};
      }
      p := Some(top);
    }

    /** Longest-prefix search from the root. */
    method FindNode(f: Family, key: Key) returns (found: Option<Ptr>)
      requires Valid() && |key| == Width(f)
      ensures found.Some? ==> found.value in nodes && nodes[found.value].peer.Some?
      ensures (if found.Some? then nodes[found.value].peer else None) == LongestMatch(plain, f, key, |key|)
    {
      ghost var t, last: Option<Ptr>, cell := Shape(), None, RootCell(f);
      assert CellOk(t, cell);
      var node := Load(RootCell(f));
      found := None;
      if node.Some? { assert NodeOk(t, node.value); }
      while node.Some? && CommonBits(nodes[node.value].bits, key) >= nodes[node.value].cidr
        invariant NextCell(t, f, key, last, cell) && node == Get(t, cell) && Best(t, f, key, last, found)
        invariant node.Some? ==> node.value in nodes && nodes[node.value].fam == f && |nodes[node.value].bits| == |key|
                                 && nodes[node.value].cidr <= |key|
        decreases if node.Some? then |key| - nodes[node.value].cidr + 1 else 0
      {
        BestStep(t, f, key, last, cell, found);
        if nodes[node.value].peer.Some? { found := node; }
        last := node;
        if nodes[node.value].cidr == |key| { break; }
        cell := BitCell(node.value, key[nodes[node.value].cidr]);
        assert CellOk(t, cell);
        node := Load(BitCell(node.value, key[nodes[node.value].cidr]));
        if node.Some? { assert NodeOk(t, node.value); }
      }
      BestAtEnd(t, plain, f, key, last, cell, found);
    }

    method Lookup(f: Family, key: Key) returns (peer: Option<Peer>)
      requires Valid() && |key| == Width(f)
      ensures peer == LongestMatch(plain, f, key, |key|)
    {
      var node := FindNode(f, key);
      peer := if node.Some? then nodes[node.value].peer else None;
    }

    method NodePlacement(f: Family, key: Key, cidr: nat) returns (exact: bool, at: Option<Ptr>)
      requires Valid() && cidr <= |key| == Width(f)
      ensures Placed(Shape(), f, key, cidr, exact, at)
    {
      ghost var t, cell := Shape(), RootCell(f);
      assert CellOk(t, cell);
      var node := Load(RootCell(f));
      exact, at := false, None;
      if node.Some? { assert NodeOk(t, node.value); }
      while node.Some? && nodes[node.value].cidr <= cidr
            && CommonBits(nodes[node.value].bits, key) >= nodes[node.value].cidr
        invariant !exact
        invariant NextCell(t, f, key, at, cell) && node == Get(t, cell) && Standing(t, f, key, at)
        invariant at.Some? ==> nodes[at.value].cidr < cidr
        invariant node.Some? ==> node.value in nodes && nodes[node.value].fam == f && |nodes[node.value].bits| == |key|
                                 && nodes[node.value].cidr <= |key|
        decreases if node.Some? then |key| - nodes[node.value].cidr + 1 else 0
      {
        at := node;
        if nodes[node.value].cidr == cidr {
          exact := true;
          break;
        }
        cell := BitCell(node.value, key[nodes[node.value].cidr]);
        assert CellOk(t, cell);
        node := Load(BitCell(node.value, key[nodes[node.value].cidr]));
        if node.Some? { assert NodeOk(t, node.value); }
      }
      if !exact { assert DeadEnd(t, key, cidr, cell); }
    }

    /** `add`: map update, or nothing when the arguments are invalid or memory runs out.
        `mem` says which of the two possible allocations the allocator grants. */
    method Add(f: Family, key: Key, cidr: nat, peer: Option<Peer>, mem: (bool, bool)) returns (st: Status)
      requires Valid() && |key| == Width(f)
      modifies this
      ensures Valid()
      ensures st == Invalid <==> cidr > |key| || peer.None?
      ensures st == NoMemory ==> !mem.0 || !mem.1
      ensures plain == if st == Ok then old(plain)[Prefix(f, key[..cidr]) := peer.value] else old(plain)
      ensures st != Ok ==> nodes == old(nodes) && links == old(links)
      ensures st != Ok ==> forall q: Peer :: ListOf(lists, q) == ListOf(old(lists), q)
    {
      if cidr > Width(f) || peer.None? { return Invalid; }
      ghost var t, m := Shape(), plain;
      if RootCell(f) !in links {
        var node := Alloc(mem.0, {});
        if node.None? { return NoMemory; }
        var n := Node(peer, cidr, f, key, RootCell(f));
        LeafStep(t, lists, m, node.value, n);
        lists := Attach(lists, peer.value, node.value);
        nodes, links := nodes[node.value := n], links[RootCell(f) := node.value];
        plain := plain[Prefix(f, key[..cidr]) := peer.value];
        return Ok;
      }
      var exact, at := NodePlacement(f, key, cidr);
      if exact {
        assert NodeOk(t, at.value);
        AgreeIsSamePrefix(nodes[at.value].bits, key, cidr);
        ExactStep(t, lists, m, at.value, peer.value);
        lists := Attach(Detach(lists, nodes[at.value].peer, at.value), peer.value, at.value);
        nodes := nodes[at.value := nodes[at.value].(peer := peer)];
        plain := plain[Prefix(f, key[..cidr]) := peer.value];
        return Ok;
      }
      st := AddBelow(f, key, cidr, peer.value, at, mem);
    }

    /** The rest of `add`, once the prefix is known to have no node and `at` to be the
        deepest node above it. */
    method AddBelow(f: Family, key: Key, cidr: nat, peer: Peer, at: Option<Ptr>, mem: (bool, bool)) returns (st: Status)
      requires Valid() && cidr <= |key| == Width(f) && RootCell(f) in links
      requires Placed(Shape(), f, key, cidr, false, at)
      modifies this
      ensures Valid() && st != Invalid
      ensures st == NoMemory ==> !mem.0 || !mem.1
      ensures plain == if st == Ok then old(plain)[Prefix(f, key[..cidr]) := peer] else old(plain)
      ensures st != Ok ==> nodes == old(nodes) && links == old(links)
      ensures st != Ok ==> forall q: Peer :: ListOf(lists, q) == ListOf(old(lists), q)
    {
      ghost var t, m, l := Shape(), plain, lists;
      var newNode := Alloc(mem.0, {});
      if newNode.None? { return NoMemory; }
      var p := newNode.value;
      lists := Attach(lists, peer, p);
      var cell := if at.None? then RootCell(f) else BitCell(at.value, key[nodes[at.value].cidr]);
      var n := Node(Some(peer), cidr, f, key, cell);
      EntryFits(t, f, key, at, cell, n);
      if cell !in links {
        LeafStep(t, l, m, p, n);
        nodes, links := nodes[p := n], links[cell := p];
        plain := plain[Prefix(f, key[..cidr]) := peer];
        return Ok;
      }
      st := AddAbove(f, key, cidr, at, cell, p, n, mem.1, l);
    }

    /** The rest of that, once the new node `p` has a child to go above or beside. */
    method AddAbove(f: Family, key: Key, cidr: nat, at: Option<Ptr>, cell: Cell, p: Ptr, n: Node, granted: bool, ghost l: Lists)
      returns (st: Status)
      requires Good(Shape(), l, plain) && cidr <= |key| == Width(f) && cell in links && p !in nodes
      requires Placed(Shape(), f, key, cidr, false, at) && n.peer.Some? && n == Node(n.peer, cidr, f, key, cell)
      requires cell == if at.None? then RootCell(f) else BitCell(at.value, key[nodes[at.value].cidr])
      requires Fits(Shape(), cell, n) && lists == Attach(l, n.peer.value, p)
      modifies this
      ensures Valid() && st != Invalid && (st == NoMemory ==> !granted)
      ensures plain == if st == Ok then old(plain)[Prefix(f, key[..cidr]) := n.peer.value] else old(plain)
      ensures st != Ok ==> nodes == old(nodes) && links == old(links)
      ensures st != Ok ==> forall q: Peer :: ListOf(lists, q) == ListOf(l, q)
    {
      ghost var t := Shape();
      DownUnderEntry(t, f, key, cidr, cell, n);
      var down := links[cell];
      var common := CommonBits(nodes[down].bits, key);
      if cidr <= common {
        AddOver(cell, p, l, n);
        return Ok;
      }
      var node := Alloc(granted, {p});
      if node.None? {
        UndoAttach(nodes, l, n.peer.value, p);
        lists := Detach(lists, n.peer, p);
        return NoMemory;
      }
      var gn := Node(None, common, f, key, cell);
      BothUnderGlue(t, f, key, cidr, at, cell, n, gn);
      AddGlue(cell, p, node.value, gn, l, n);
      return Ok;
    }

    /** The case of `add` where the new node goes between its parent and the old child. */
    method AddOver(cell: Cell, p: Ptr, ghost l: Lists, n: Node)
      requires Good(Shape(), l, plain) && cell in links && links[cell] in nodes
      requires p !in nodes && n.peer.Some? && n.up == cell && n.cidr <= |n.bits| == Width(n.fam)
      requires |nodes[links[cell]].bits| == |n.bits| && n.cidr < |n.bits|
      requires Fits(Shape(), cell, n) && Below(n, nodes[links[cell]], nodes[links[cell]].bits[n.cidr])
      requires lists == Attach(l, n.peer.value, p)
      modifies `nodes, `links, `plain
      ensures Valid() && plain == old(plain)[PrefixOf(n) := n.peer.value]
    {
      ghost var t := Shape();
      var down := links[cell];
      nodes, links := nodes[p := n], links[cell := p];
      ConnectUnder(p, down);
      assert Shape() == SlipIn(t, p, n, down, t.nodes[down].bits[n.cidr]);
      SlipStep(t, l, plain, p, n, down, t.nodes[down].bits[n.cidr]);
      plain := plain[PrefixOf(n) := n.peer.value];
    }

    /** The last case of `add`: a branching node `g` over both the old and the new one. */
    method AddGlue(cell: Cell, p: Ptr, g: Ptr, gn: Node, ghost l: Lists, n: Node)
      requires Good(Shape(), l, plain) && cell in links && links[cell] in nodes
      requires p !in nodes && g !in nodes && p != g
      requires n.peer.Some? && n.cidr <= |n.bits| == Width(n.fam)
      requires gn.peer.None? && gn.up == cell && gn.bits == n.bits && gn.cidr < |gn.bits|
      requires |nodes[links[cell]].bits| == |gn.bits|
      requires Fits(Shape(), cell, gn) && Below(gn, nodes[links[cell]], !n.bits[gn.cidr]) && Below(gn, n, n.bits[gn.cidr])
      requires lists == Attach(l, n.peer.value, p)
      modifies `nodes, `links, `plain
      ensures Valid() && plain == old(plain)[PrefixOf(n) := n.peer.value]
    {
      ghost var t := Shape();
      var down := links[cell];
      ghost var n' := n.(up := BitCell(g, n.bits[gn.cidr]));
      nodes, links := nodes[g := gn][p := n], links[cell := g];
      ConnectUnder(g, down);
      ConnectUnder(g, p);
      GlueShape(t, g, gn, down, n.bits[gn.cidr], p, n);
      GlueStep(t, l, plain, g, gn, down, !n.bits[gn.cidr], p, n');
      plain := plain[PrefixOf(n) := n.peer.value];
    }

    /** `choose_and_connect_node`: hang `node` on the side of `parent` its bits select. */
    method ConnectUnder(parent: Ptr, node: Ptr)
      requires parent in nodes && node in nodes && nodes[parent].cidr < |nodes[node].bits|
      modifies `nodes, `links
      ensures var b := old(nodes)[node].bits[old(nodes)[parent].cidr];
              && nodes == old(nodes)[node := old(nodes)[node].(up := BitCell(parent, b))]
              && links == old(links)[BitCell(parent, b) := node]
    {
      var b := nodes[node].bits[nodes[parent].cidr];
      nodes := nodes[node := nodes[node].(up := BitCell(parent, b))];
      links := links[BitCell(parent, b) := node];
    }

    /** Give `child` the place of `p` and free `p`. */
    method Splice(p: Ptr, child: Option<Ptr>)
      requires Linked(Shape()) && p in nodes && (child.Some? ==> child.value in nodes)
      requires BitCell(p, false) !in links || BitCell(p, true) !in links
      requires child == OnlyKid(Shape(), p)
      modifies `nodes, `links
      ensures Shape() == Cut(old(Shape()), p)
    {
      assert NodeOk(Shape(), p) && CellOk(Shape(), nodes[p].up);
      var up := nodes[p].up;
      if child.Some? {
        nodes := nodes[child.value := nodes[child.value].(up := up)];
        links := links[up := child.value];
      } else {
        links := links - {up};
      }
      links := links - {BitCell(p, false), BitCell(p, true)};
      nodes := nodes - {p};
    }

    /** `remove_node`: the entry goes, the node too unless it still branches, and a parent
        that was only branching goes with a childless node. */
    method RemoveNode(p: Ptr)
      requires Valid() && p in nodes
      modifies this
      ensures Valid()
      ensures Shape() == Removed(old(Shape()), p)
      ensures lists == Detach(old(lists), old(nodes)[p].peer, p)
      ensures old(nodes)[p].cidr <= |old(nodes)[p].bits|
      ensures plain == if old(nodes)[p].peer.Some? then old(plain) - {PrefixOf(old(nodes)[p])} else old(plain)
    {
      ghost var t, l, m := Shape(), lists, plain;
      assert NodeOk(t, p);
      RemoveStep(t, l, m, p);
      if nodes[p].peer.Some? { plain := plain - {PrefixOf(nodes[p])}; }
      lists := Detach(lists, nodes[p].peer, p);
      nodes := nodes[p := nodes[p].(peer := None)];
      if BitCell(p, false) in links && BitCell(p, true) in links { return; }
      SetPeerKeeps(t, p, None);
      var child := Load(BitCell(p, Load(BitCell(p, false)).None?));
      var up := nodes[p].up;
      OnlyKidAllocated(Shape(), p);
      if up.BitCell? { ParentLives(t, p); }
      var freeParent := BitCell(p, false) !in links && BitCell(p, true) !in links
                        && up.BitCell? && nodes[up.node].peer.None?;
      CutKeeps(Shape(), p);
      Splice(p, child);
      if !freeParent { return; }
      assert Earned(t, up.node);
      var sibling := Load(BitCell(up.node, !up.bit));
      OnlyKidAllocated(Shape(), up.node);
      Splice(up.node, sibling);
    }

    /** `remove`: deletes the entry only when it is held by the given peer. */
    method Remove(f: Family, key: Key, cidr: nat, peer: Option<Peer>) returns (st: Status)
      requires Valid() && |key| == Width(f)
      modifies this
      ensures Valid()
      ensures st == if cidr > |key| then Invalid else Ok
      ensures plain ==
              if cidr <= |key| && peer.Some? && Prefix(f, key[..cidr]) in old(plain)
                 && old(plain)[Prefix(f, key[..cidr])] == peer.value
              then old(plain) - {Prefix(f, key[..cidr])} else old(plain)
    {
      if cidr > Width(f) { return Invalid; }
      ghost var t := Shape();
      if RootCell(f) !in links {
        assert DeadEnd(t, key, cidr, RootCell(f));
        NoEntryHere(t, plain, f, key, cidr, None);
        return Ok;
      }
      var exact, at := NodePlacement(f, key, cidr);
      if !exact {
        NoEntryHere(t, plain, f, key, cidr, at);
        return Ok;
      }
      AgreeIsSamePrefix(nodes[at.value].bits, key, cidr);
      EntryHere(t, plain, at.value);
      if peer != nodes[at.value].peer { return Ok; }
      RemoveNode(at.value);
      return Ok;
    }

    /** `wg_allowedips_remove_by_peer`: every entry of the peer goes, in list order. */
    method RemoveByPeer(peer: Peer)
      requires Valid()
      modifies this
      ensures Valid()
      ensures plain == map x | x in old(plain) && old(plain)[x] != peer :: old(plain)[x]
    {
      var order := ListOf(lists, peer);
      for i := 0 to |order|
        invariant Valid() && ListOf(lists, peer) == order[i..]
        invariant forall x :: x in plain ==> x in old(plain) && plain[x] == old(plain)[x]
        invariant forall x :: x in old(plain) && old(plain)[x] != peer ==> x in plain
      {
        assert ListOk(nodes, lists, peer);
        assert order[i] == order[i..][0] && order[i] in ListOf(lists, peer);
        EntryHere(Shape(), plain, order[i]);
        WithoutHead(ListOf(lists, peer));
        RemoveNode(order[i]);
        assert order[i..][1..] == order[i + 1..];
      }
      assert ListOk(nodes, lists, peer);
      forall x | x in plain ensures plain[x] != peer {
        var p :| Holds(Shape(), x, plain[x], p);
        assert p !in ListOf(lists, peer);
      }
    }

    /** The pointer cells of nodes not visited yet are those of `t`; its roots may be NULL. */
    ghost predicate SameKids(t: Trie, f: Family, done: set<Ptr>)
      reads this
    {
      forall p, b :: p in t.nodes && t.nodes[p].fam == f && p !in done ==>
        Get(Shape(), BitCell(p, b)) == Get(t, BitCell(p, b))
    }

    /** One turn of a depth-first walk: pop a node and push its children. */
    method PopPush(stack: array<Ptr>, n: nat, ghost t: Trie, ghost f: Family, ghost done: set<Ptr>)
      returns (node: Ptr, len: nat)
      requires Linked(t) && 0 < n <= stack.Length == MAX_DEPTH
      requires Walk(t, f, stack[..n], done) && SameKids(t, f, done)
      modifies stack
      ensures node in t.nodes && t.nodes[node].fam == f && node !in done
      ensures len <= MAX_DEPTH && Walk(t, f, stack[..len], done + {node})
    {
      ghost var before := stack[..n];
      WalkStep(t, f, before, done);
      node := stack[n - 1];
      assert before[n - 1] == node && before[..n - 1] == stack[..n - 1];
      var left, right := Load(BitCell(node, false)), Load(BitCell(node, true));
      assert Pushed(left) + Pushed(right) == Kids(t, node) by {
        assert left == Get(Shape(), BitCell(node, false)) && right == Get(Shape(), BitCell(node, true));
      }
      len := Push2(stack, n - 1, left, right);
      assert stack[..len] == before[..n - 1] + Kids(t, node);
    }

    /** `root_remove_peer_lists`: take every node of the family off its peer's list. */
    method RemovePeerLists(root: Ptr, ghost t: Trie, ghost f: Family) returns (ghost done: set<Ptr>)
      requires Linked(t) && Get(t, RootCell(f)) == Some(root)
      requires forall p :: p in t.nodes && t.nodes[p].fam == f ==> p in nodes && nodes[p] == t.nodes[p]
      requires SameKids(t, f, {})
      modifies `lists
      ensures forall p :: p in done <==> p in t.nodes && t.nodes[p].fam == f
      ensures TakenOff(t.nodes, old(lists), lists, done)
    {
      var stack, len := new Ptr[MAX_DEPTH], 1;
      stack[0], done := root, {};
      assert stack[..1] == [root];
      WalkStart(t, f);
      while len > 0
        invariant 0 <= len <= MAX_DEPTH && Walk(t, f, stack[..len], done)
        invariant TakenOff(t.nodes, old(lists), lists, done)
        decreases t.nodes.Keys - done
      {
        var node;
        node, len := PopPush(stack, len, t, f, done);
        TakeOff(t.nodes, old(lists), lists, done, node);
        lists := Detach(lists, nodes[node].peer, node);
        done := done + {node};
      }
      assert stack[..len] == [];
      WalkDone(t, f, done);
    }

    /** `root_free_rcu`: free every node of the family. */
    method FreeNodes(root: Ptr, ghost t: Trie, ghost f: Family) returns (ghost done: set<Ptr>)
      requires Linked(t) && Get(t, RootCell(f)) == Some(root)
      requires SameKids(t, f, {})
      modifies `nodes, `links
      ensures forall p :: p in done <==> p in t.nodes && t.nodes[p].fam == f
      ensures nodes == old(nodes) - done
      ensures links == LinksOutside(old(links), done)
    {
      var stack, len := new Ptr[MAX_DEPTH], 1;
      stack[0], done := root, {};
      assert stack[..1] == [root];
      WalkStart(t, f);
      while len > 0
        invariant 0 <= len <= MAX_DEPTH && Walk(t, f, stack[..len], done)
        invariant nodes == old(nodes) - done
        invariant links == LinksOutside(old(links), done)
        decreases t.nodes.Keys - done
      {
        var node;
        node, len := PopPush(stack, len, t, f, done);
        OneMoreOutside(old(links), done, node);
        links := links - {BitCell(node, false), BitCell(node, true)};
        nodes := nodes - {node};
        done := done + {node};
      }
      assert stack[..len] == [];
      WalkDone(t, f, done);
    }

    /** Both walks over one family. */
    method FreeFamily(root: Option<Ptr>, ghost t: Trie, ghost f: Family)
      requires Linked(t) && Get(t, RootCell(f)) == root && SameKids(t, f, {})
      requires forall p :: p in t.nodes && t.nodes[p].fam == f ==> p in nodes && nodes[p] == t.nodes[p]
      modifies `nodes, `links, `lists
      ensures nodes == old(nodes) - Members(t, f)
      ensures links == LinksOutside(old(links), Members(t, f))
      ensures TakenOff(t.nodes, old(lists), lists, Members(t, f))
    {
      if root.Some? {
        ghost var done := RemovePeerLists(root.value, t, f);
        assert done == Members(t, f);
        done := FreeNodes(root.value, t, f);
        assert done == Members(t, f);
      } else {
        forall p | p in Members(t, f) ensures false { RootIsLeast(t, p); }
        assert Members(t, f) == {};
      }
    }

    /** `wg_allowedips_free`: nothing is left allocated, linked or listed. */
    method Free()
      requires Valid()
      modifies this
      ensures Valid() && plain == map[]
      ensures nodes == map[] && links == map[] && forall peer: Peer :: ListOf(lists, peer) == []
    {
      ghost var t := Shape();
      var old4, old6 := Load(RootCell(V4)), Load(RootCell(V6));
      links := links - {RootCell(V4), RootCell(V6)};
      FreeFamily(old4, t, V4);
      ghost var l1 := lists;
      FreeFamily(old6, t, V6);
      AllFreed(t, nodes, links);
      forall peer: Peer ensures ListOf(lists, peer) == [] {
        AllTakenOff(t, old(lists), l1, lists, peer);
      }
      EmptyIsGood(lists);
      plain := map[];
    }

    method Do(op: Op) returns (st: Status)
      requires Valid() && KeyOk(op)
      modifies this
      ensures Valid() && plain == PlainStep(old(plain), op, st)
      ensures Answered(op, st)
    {
      match op
      case Insert(f, key, cidr, peer, mem) => st := Add(f, key, cidr, peer, mem);
      case Delete(f, key, cidr, peer) => st := Remove(f, key, cidr, peer);
      case DeletePeer(peer) => RemoveByPeer(peer); st := Ok;
      case Clear => Free(); st := Ok;
    }

    /** Any run of operations denotes the same prefix map as the plain run, and lookup of any
        address afterwards is longest-prefix match in that map. */
    method Run(ops: seq<Op>, f: Family, key: Key) returns (sts: seq<Status>, peer: Option<Peer>)
      requires Valid() && |key| == Width(f) && forall op :: op in ops ==> KeyOk(op)
      modifies this
      ensures Valid() && |sts| == |ops| && plain == PlainRun(old(plain), ops, sts)
      ensures forall i :: 0 <= i < |ops| ==> Answered(ops[i], sts[i])
      ensures peer == LongestMatch(PlainRun(old(plain), ops, sts), f, key, |key|)
    {
      sts := [];
      for i := 0 to |ops|
        invariant Valid() && |sts| == i && plain == PlainRun(old(plain), ops[..i], sts)
        invariant forall j :: 0 <= j < i ==> Answered(ops[j], sts[j])
      {
        var st := Do(ops[i]);
        PlainRunMore(old(plain), ops[..i], sts, ops[i], st);
        assert ops[..i + 1] == ops[..i] + [ops[i]];
        sts := sts + [st];
      }
      assert ops[..|ops|] == ops;
      peer := Lookup(f, key);
    }
  }
}
