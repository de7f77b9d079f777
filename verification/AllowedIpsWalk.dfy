/** The explicit-stack depth-first walk shared by `root_remove_peer_lists` and
    `root_free_rcu`: each node of one family is popped once and the stack stays within
    MAX_ALLOWEDIPS_DEPTH entries. */
module AllowedIpsWalk {
  import opened Options
  import opened AllowedIpsTrie

  const MAX_DEPTH: nat := 129

  /** Mask length of the parent, 0 for a root. */
  ghost function Above(t: Trie, p: Ptr): (d: nat)
    requires p in t.nodes
  {
    var up := t.nodes[p].up;
    if up.BitCell? && up.node in t.nodes then t.nodes[up.node].cidr else 0
  }

  /** `p` waits on the stack: not popped yet, its parent popped already. */
  ghost predicate Waiting(t: Trie, f: Family, done: set<Ptr>, p: Ptr) {
    p in t.nodes && t.nodes[p].fam == f && p !in done
    && (t.nodes[p].up.BitCell? ==> t.nodes[p].up.node in done)
  }

  /** What waits is exactly what is on the stack, once each. */
  ghost predicate Frontier(t: Trie, f: Family, stack: seq<Ptr>, done: set<Ptr>) {
    && (forall i :: 0 <= i < |stack| ==> Waiting(t, f, done, stack[i]))
    && (forall p :: Waiting(t, f, done, p) ==> p in stack)
    && (forall i, j :: 0 <= i < j < |stack| ==> stack[i] != stack[j])
    && (forall p :: p in done ==>
          p in t.nodes && t.nodes[p].fam == f && (t.nodes[p].up.BitCell? ==> t.nodes[p].up.node in done))
  }

  /** The parents of stacked nodes have ever longer prefixes; the two top entries may share
      a parent, and a root is alone on the stack. */
  ghost predicate Staircase(t: Trie, stack: seq<Ptr>) {
    && (forall i :: 0 <= i < |stack| ==> stack[i] in t.nodes)
    && (forall i :: 0 <= i < |stack| - 1 ==> Above(t, stack[i]) >= i)
    && (|stack| >= 2 ==> Above(t, stack[|stack| - 1]) >= |stack| - 2)
    && (|stack| >= 2 ==> forall i :: 0 <= i < |stack| ==> t.nodes[stack[i]].up.BitCell?)
  }

  ghost predicate Walk(t: Trie, f: Family, stack: seq<Ptr>, done: set<Ptr>) {
    Frontier(t, f, stack, done) && Staircase(t, stack)
  }

  lemma WalkStart(t: Trie, f: Family)
    requires Linked(t) && RootCell(f) in t.links
    ensures Walk(t, f, [t.links[RootCell(f)]], {})
  {
    assert CellOk(t, RootCell(f));
    forall p | Waiting(t, f, {}, p) ensures p in [t.links[RootCell(f)]] {
      assert NodeOk(t, p) && CellOk(t, t.nodes[p].up);
    }
  }

  function Pushed(p: Option<Ptr>): (s: seq<Ptr>) {
    if p.Some? then [p.value] else []
  }

  /** What `push_rcu` of both children adds. */
  function Kids(t: Trie, p: Ptr): (s: seq<Ptr>) {
    Pushed(Get(t, BitCell(p, false))) + Pushed(Get(t, BitCell(p, true)))
  }

  /** Two `push_rcu` calls: NULL is skipped, and there must be room for the rest. */
  method Push2(stack: array<Ptr>, n: nat, a: Option<Ptr>, b: Option<Ptr>) returns (len: nat)
    requires n + |Pushed(a)| + |Pushed(b)| <= stack.Length
    modifies stack
    ensures len <= stack.Length && stack[..len] == old(stack[..n]) + (Pushed(a) + Pushed(b))
  {
    len := n;
    if a.Some? {
      stack[len] := a.value;
      len := len + 1;
    }
    if b.Some? {
      stack[len] := b.value;
      len := len + 1;
    }
  }

  lemma KidFacts(t: Trie, p: Ptr, b: bool)
    requires Linked(t) && BitCell(p, b) in t.links
    ensures var k := t.links[BitCell(p, b)];
            && k in t.nodes && p in t.nodes && t.nodes[k].up == BitCell(p, b) && t.nodes[k].fam == t.nodes[p].fam
            && t.nodes[p].cidr < Width(t.nodes[p].fam) && Above(t, k) == t.nodes[p].cidr && k != p
  {
    assert CellOk(t, BitCell(p, b));
    assert NodeOk(t, p);
    assert NodeOk(t, t.links[BitCell(p, b)]);
  }

  /** The stack has room for what is pushed next. */
  lemma WalkFits(t: Trie, f: Family, stack: seq<Ptr>, done: set<Ptr>)
    requires Linked(t) && Walk(t, f, stack, done) && stack != []
    ensures |stack| - 1 + |Kids(t, stack[|stack| - 1])| <= MAX_DEPTH
  {
    var p := stack[|stack| - 1];
    assert NodeOk(t, p) && CellOk(t, t.nodes[p].up);
    if BitCell(p, false) in t.links { KidFacts(t, p, false); }
    if BitCell(p, true) in t.links { KidFacts(t, p, true); }
  }

  lemma FrontierStep(t: Trie, f: Family, stack: seq<Ptr>, done: set<Ptr>)
    requires Linked(t) && Frontier(t, f, stack, done) && stack != []
    ensures var p := stack[|stack| - 1];
            Frontier(t, f, stack[..|stack| - 1] + Kids(t, p), done + {p})
  {
    var p := stack[|stack| - 1];
    var kids, rest := Kids(t, p), stack[..|stack| - 1];
    var done' := done + {p};
    forall k | k in kids ensures Waiting(t, f, done', k) && k !in stack {
      var b :| BitCell(p, b) in t.links && k == t.links[BitCell(p, b)];
      KidFacts(t, p, b);
    }
    if |kids| == 2 { KidFacts(t, p, false); KidFacts(t, p, true); }
    forall q | Waiting(t, f, done', q) ensures q in rest + kids {
      assert NodeOk(t, q);
      if Waiting(t, f, done, q) { assert q in rest; } else { assert q in kids; }
    }
  }

  lemma StaircaseStep(t: Trie, stack: seq<Ptr>)
    requires Linked(t) && Staircase(t, stack) && stack != []
    ensures Staircase(t, stack[..|stack| - 1] + Kids(t, stack[|stack| - 1]))
  {
    var p := stack[|stack| - 1];
    assert NodeOk(t, p) && CellOk(t, t.nodes[p].up);
    assert t.nodes[p].cidr >= |stack| - 1;
    if BitCell(p, false) in t.links { KidFacts(t, p, false); }
    if BitCell(p, true) in t.links { KidFacts(t, p, true); }
  }

  /** Pop the top node, push its children: there is room, and the walk goes on. */
  lemma WalkStep(t: Trie, f: Family, stack: seq<Ptr>, done: set<Ptr>)
    requires Linked(t) && Walk(t, f, stack, done) && stack != []
    ensures var p := stack[|stack| - 1];
            && p in t.nodes && t.nodes[p].fam == f && p !in done
            && |stack| - 1 + |Kids(t, p)| <= MAX_DEPTH
            && Walk(t, f, stack[..|stack| - 1] + Kids(t, p), done + {p})
  {
    WalkFits(t, f, stack, done);
    FrontierStep(t, f, stack, done);
    StaircaseStep(t, stack);
    assert Waiting(t, f, done, stack[|stack| - 1]);
  }

  /** A finished walk has popped exactly the nodes of its family. */
  lemma WalkDone(t: Trie, f: Family, done: set<Ptr>)
    requires Linked(t) && Walk(t, f, [], done)
    ensures forall p :: p in done <==> p in t.nodes && t.nodes[p].fam == f
  {
    forall p | p in t.nodes && t.nodes[p].fam == f ensures p in done {
      WalkCovers(t, f, done, p);
    }
  }

  /** When the stack runs empty, every node of the family has been popped. */
  lemma {:induction false} WalkCovers(t: Trie, f: Family, done: set<Ptr>, p: Ptr)
    requires Linked(t) && Walk(t, f, [], done)
    requires p in t.nodes && t.nodes[p].fam == f
    ensures p in done
    decreases t.nodes[p].cidr
  {
    assert NodeOk(t, p) && CellOk(t, t.nodes[p].up);
    if p !in done {
      if t.nodes[p].up.BitCell? {
        WalkCovers(t, f, done, t.nodes[p].up.node);
      }
      assert Waiting(t, f, done, p);
    }
  }
}
