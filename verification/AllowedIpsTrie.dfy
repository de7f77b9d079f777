/** The allowed-IPs trie of panel/awgsrc/src/allowedips.c as a value: which nodes are
    allocated, how they are linked, what makes the links well formed and what prefix map
    they denote. A pointer is a key of the slab `nodes`, so following a pointer to a freed
    node is a failed proof rather than a stale read. */
module AllowedIpsTrie {
  import opened Options
  import opened BitKeys

  type Ptr = nat
  type Peer = nat

  datatype Family = V4 | V6

  function Width(f: Family): (w: nat) {
    if f == V4 then 32 else 128
  }

  /** The address of a pointer cell: a root of the table or `bit[b]` of a node. This is
      what `parent_bit_packed` holds. */
  datatype Cell = RootCell(fam: Family) | BitCell(node: Ptr, bit: bool)

  datatype Node = Node(peer: Option<Peer>, cidr: nat, fam: Family, bits: Key, up: Cell)

  /** The slab and the pointer cells; a cell missing from `links` holds NULL. */
  datatype Trie = Trie(nodes: map<Ptr, Node>, links: map<Cell, Ptr>)

  function Get(t: Trie, c: Cell): (p: Option<Ptr>) {
    if c in t.links then Some(t.links[c]) else None
  }

  /** `prefix_matches`: the node's first `cidr` bits are those of the key. */
  ghost predicate Matches(n: Node, key: Key) {
    n.cidr <= |n.bits| == |key| && Agree(n.bits, key, n.cidr)
  }

  /** `c` may hang under `n` on side `b`: a strictly longer prefix extending `n`'s by `b`. */
  ghost predicate Below(n: Node, c: Node, b: bool) {
    && c.fam == n.fam
    && n.cidr < c.cidr <= |c.bits| == |n.bits|
    && Agree(c.bits, n.bits, n.cidr)
    && c.bits[n.cidr] == b
  }

  /** A node may be stored in cell `c`. */
  ghost predicate Fits(t: Trie, c: Cell, n: Node) {
    match c
    case RootCell(f) => f == n.fam
    case BitCell(q, b) => q in t.nodes && Below(t.nodes[q], n, b)
  }

  ghost predicate CellOk(t: Trie, c: Cell) {
    c in t.links ==>
      && t.links[c] in t.nodes
      && t.nodes[t.links[c]].up == c
      && Fits(t, c, t.nodes[t.links[c]])
  }

  ghost predicate NodeOk(t: Trie, p: Ptr) {
    p in t.nodes ==>
      && t.nodes[p].cidr <= |t.nodes[p].bits| == Width(t.nodes[p].fam)
      && t.nodes[p].up in t.links
      && t.links[t.nodes[p].up] == p
  }

  /** Every allocated node is linked both ways and prefixes grow along edges, on the side
      they are stored. */
  ghost predicate Linked(t: Trie) {
    && (forall c {:trigger CellOk(t, c)} :: CellOk(t, c))
    && (forall p {:trigger NodeOk(t, p)} :: NodeOk(t, p))
  }

  /** Path compression: a node that only branches has both branches. */
  predicate Earned(t: Trie, p: Ptr) {
    p in t.nodes && t.nodes[p].peer.None? ==>
      BitCell(p, false) in t.links && BitCell(p, true) in t.links
  }

  ghost predicate WF(t: Trie) {
    Linked(t) && forall p {:trigger Earned(t, p)} :: Earned(t, p)
  }

  // ---- the search path ------------------------------------------------------

  /** The parent of a node matching `key` matches it too, and `key` selects that node. */
  lemma ParentOnPath(t: Trie, p: Ptr, key: Key)
    requires Linked(t) && p in t.nodes && t.nodes[p].up.BitCell?
    requires Matches(t.nodes[p], key)
    ensures t.nodes[p].up.node in t.nodes
    ensures var q := t.nodes[p].up.node;
            && Matches(t.nodes[q], key) && t.nodes[q].fam == t.nodes[p].fam
            && t.nodes[q].cidr < t.nodes[p].cidr
            && t.nodes[p].up.bit == key[t.nodes[q].cidr]
            && Get(t, BitCell(q, key[t.nodes[q].cidr])) == Some(p)
  {
    assert NodeOk(t, p) && CellOk(t, t.nodes[p].up);
  }

  /** Every node descends from its family's root, which has the shortest prefix. */
  lemma {:induction false} RootIsLeast(t: Trie, p: Ptr)
    requires Linked(t) && p in t.nodes
    ensures RootCell(t.nodes[p].fam) in t.links
    ensures var r := t.links[RootCell(t.nodes[p].fam)];
            && r in t.nodes && t.nodes[r].fam == t.nodes[p].fam
            && t.nodes[r].cidr <= t.nodes[p].cidr
            && (t.nodes[r].cidr == t.nodes[p].cidr ==> r == p)
            && (forall key :: Matches(t.nodes[p], key) ==> Matches(t.nodes[r], key))
    decreases t.nodes[p].cidr
  {
    assert NodeOk(t, p) && CellOk(t, t.nodes[p].up);
    if t.nodes[p].up.BitCell? {
      RootIsLeast(t, t.nodes[p].up.node);
    }
  }

  /** Two nodes on the search path of one key are ordered by prefix length: equal lengths
      mean the same node, and from the shorter the key's side leads toward the longer. */
  lemma {:induction false} OnPath(t: Trie, n: Ptr, m: Ptr, key: Key)
    requires Linked(t) && n in t.nodes && m in t.nodes
    requires t.nodes[n].fam == t.nodes[m].fam
    requires Matches(t.nodes[n], key) && Matches(t.nodes[m], key)
    requires t.nodes[n].cidr <= t.nodes[m].cidr
    ensures t.nodes[n].cidr == t.nodes[m].cidr ==> n == m
    ensures t.nodes[n].cidr < t.nodes[m].cidr ==>
              var c := BitCell(n, key[t.nodes[n].cidr]);
              && c in t.links && t.links[c] in t.nodes && Matches(t.nodes[t.links[c]], key)
              && t.nodes[t.links[c]].cidr <= t.nodes[m].cidr
    decreases t.nodes[m].cidr
  {
    assert NodeOk(t, n) && NodeOk(t, m) && CellOk(t, t.nodes[n].up) && CellOk(t, t.nodes[m].up);
    RootIsLeast(t, n);
    RootIsLeast(t, m);
    if t.nodes[m].up.BitCell? {
      var q := t.nodes[m].up.node;
      ParentOnPath(t, m, key);
      if t.nodes[n].cidr < t.nodes[m].cidr {
        if t.nodes[q].cidr < t.nodes[n].cidr { OnPath(t, q, n, key); } else { OnPath(t, n, q, key); }
      } else if t.nodes[n].up.BitCell? {
        var qn := t.nodes[n].up.node;
        ParentOnPath(t, n, key);
        if t.nodes[q].cidr <= t.nodes[qn].cidr { OnPath(t, q, qn, key); } else { OnPath(t, qn, q, key); }
      }
    }
  }

  // ---- what the trie denotes -------------------------------------------------

  /** A prefix of a family; the mask length is the length of `pfx`. */
  datatype Prefix = Prefix(fam: Family, pfx: Key)

  function PrefixOf(n: Node): (x: Prefix)
    requires n.cidr <= |n.bits|
  {
    Prefix(n.fam, n.bits[..n.cidr])
  }

  type PrefixMap = map<Prefix, Peer>

  ghost predicate Holds(t: Trie, x: Prefix, peer: Peer, p: Ptr) {
    p in t.nodes && t.nodes[p].cidr <= |t.nodes[p].bits|
    && PrefixOf(t.nodes[p]) == x && t.nodes[p].peer == Some(peer)
  }

  /** `m` is the plain prefix map of the trie: exactly its nodes that carry a peer. */
  ghost predicate Denotes(t: Trie, m: PrefixMap) {
    && (forall p :: p in t.nodes && t.nodes[p].peer.Some? ==>
          && t.nodes[p].cidr <= |t.nodes[p].bits|
          && PrefixOf(t.nodes[p]) in m
          && m[PrefixOf(t.nodes[p])] == t.nodes[p].peer.value)
    && (forall x :: x in m ==> exists p :: Holds(t, x, m[x], p))
  }

  /** Reference lookup: try every mask length from `l` down to 0. */
  function LongestMatch(m: PrefixMap, f: Family, key: Key, l: nat): (r: Option<Peer>)
    requires l <= |key|
  {
    if Prefix(f, key[..l]) in m then Some(m[Prefix(f, key[..l])])
    else if l == 0 then None
    else LongestMatch(m, f, key, l - 1)
  }

  /** The reference lookup means what longest-prefix match means: an answer is held by a
      matching prefix no other matching prefix is longer than, and no answer means no match. */
  lemma {:induction false} LongestMatchIsLongest(m: PrefixMap, f: Family, key: Key, l: nat, peer: Peer)
    requires l <= |key|
    ensures LongestMatch(m, f, key, l) == Some(peer) <==>
            exists k :: 0 <= k <= l && Prefix(f, key[..k]) in m && m[Prefix(f, key[..k])] == peer
                        && forall j :: k < j <= l ==> Prefix(f, key[..j]) !in m
    ensures LongestMatch(m, f, key, l) == None <==> forall k :: 0 <= k <= l ==> Prefix(f, key[..k]) !in m
    decreases l
  {
    if Prefix(f, key[..l]) !in m && l > 0 {
      LongestMatchIsLongest(m, f, key, l - 1, peer);
    }
  }

  /** A trie denotes at most one prefix map. */
  lemma DenotesOne(t: Trie, m: PrefixMap, m': PrefixMap)
    requires Denotes(t, m) && Denotes(t, m')
    ensures m == m'
  {
    forall x | x in m ensures x in m' && m'[x] == m[x] {
      var p :| Holds(t, x, m[x], p);
    }
    forall x | x in m' ensures x in m {
      var p :| Holds(t, x, m'[x], p);
    }
  }

  /** All nodes of `f` that match `key` and carry a peer have a prefix of at most `c` bits. */
  ghost predicate NoneLonger(t: Trie, f: Family, key: Key, c: int) {
    forall p :: p in t.nodes && t.nodes[p].fam == f && t.nodes[p].peer.Some? && Matches(t.nodes[p], key)
      ==> t.nodes[p].cidr <= c
  }

  /** The answer of a search that found the longest matching node is the reference answer. */
  lemma {:induction false} FoundIsLongest(t: Trie, m: PrefixMap, f: Family, key: Key, found: Option<Ptr>, l: nat)
    requires Linked(t) && Denotes(t, m) && |key| == Width(f) && l <= |key|
    requires found.Some? ==>
               && found.value in t.nodes && t.nodes[found.value].fam == f && t.nodes[found.value].peer.Some?
               && Matches(t.nodes[found.value], key) && t.nodes[found.value].cidr <= l
    requires NoneLonger(t, f, key, if found.Some? then t.nodes[found.value].cidr else -1)
    ensures LongestMatch(m, f, key, l) == if found.Some? then t.nodes[found.value].peer else None
    decreases l
  {
    var x := Prefix(f, key[..l]);
    if x in m {
      var p :| Holds(t, x, m[x], p);
      assert |PrefixOf(t.nodes[p]).pfx| == l;
      assert NodeOk(t, p);
      AgreeIsSamePrefix(t.nodes[p].bits, key, l);
      assert Matches(t.nodes[p], key);
      OnPath(t, found.value, p, key);
    } else {
      if found.Some? && t.nodes[found.value].cidr == l {
        AgreeIsSamePrefix(t.nodes[found.value].bits, key, l);
        assert false;
      }
      if l > 0 {
        FoundIsLongest(t, m, f, key, found, l - 1);
      }
    }
  }
}
