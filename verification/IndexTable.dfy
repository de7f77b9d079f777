/** The index hash table of panel/awgsrc/src/peerlookup.c: entries in buckets by the low bits
    of a 32-bit index, filled by an unlocked search and a locked recheck. */
module IndexTable {
  import opened Options

  type Entry = nat

  const BUCKETS: nat := 8192

  /** The lists of the table and the `index` field of every entry (0 until written). */
  datatype Table = Table(buckets: seq<seq<Entry>>, index: map<Entry, nat>) {
    function Index(e: Entry): (i: nat) {
      if e in index then index[e] else 0
    }
  }

  /** The index's low 13 bits. */
  function Bucket(i: nat): (b: nat)
    ensures b < BUCKETS
  {
    i % BUCKETS
  }

  ghost predicate Hashed(t: Table, e: Entry)
    requires |t.buckets| == BUCKETS
  {
    e in t.buckets[Bucket(t.Index(e))]
  }

  /** `hlist_del_init`: nothing happens to an entry that is on no list. */
  function Del(l: seq<Entry>, e: Entry): (r: seq<Entry>)
    ensures forall x :: x in r <==> x in l && x != e
    ensures e !in l ==> r == l
  {
    if l == [] then []
    else
      assert l == [l[0]] + l[1..];
      if l[0] == e then Del(l[1..], e) else [l[0]] + Del(l[1..], e)
  }

  function Swap(l: seq<Entry>, e: Entry, n: Entry): (r: seq<Entry>)
    ensures |r| == |l| && forall i :: 0 <= i < |l| ==> r[i] == if l[i] == e then n else l[i]
  {
    seq(|l|, i requires 0 <= i < |l| => if l[i] == e then n else l[i])
  }

  predicate Taken(t: Table, i: nat)
    requires |t.buckets| == BUCKETS
  {
    exists x :: x in t.buckets[Bucket(i)] && t.Index(x) == i
  }

  // ---- invariant ------------------------------------------------------------------------

  ghost predicate BucketOk(t: Table, b: nat) {
    b < |t.buckets| ==>
      && (forall e :: e in t.buckets[b] ==> Bucket(t.Index(e)) == b)
      && (forall i, j :: 0 <= i < j < |t.buckets[b]| ==> t.Index(t.buckets[b][i]) != t.Index(t.buckets[b][j]))
  }

  /** Every listed entry sits in its index's bucket, and no two share an index. */
  ghost predicate Ok(t: Table) {
    && |t.buckets| == BUCKETS
    && forall b {:trigger BucketOk(t, b)} :: BucketOk(t, b)
  }

  lemma DelKeeps(t: Table, l: seq<Entry>, e: Entry)
    requires forall i, j :: 0 <= i < j < |l| ==> t.Index(l[i]) != t.Index(l[j])
    ensures forall i, j :: 0 <= i < j < |Del(l, e)| ==> t.Index(Del(l, e)[i]) != t.Index(Del(l, e)[j])
  {
    if l != [] {
      DelKeeps(t, l[1..], e);
      var r := Del(l[1..], e);
      forall k | 0 <= k < |r| ensures t.Index(r[k]) != t.Index(l[0]) {
        assert r[k] in l[1..];
      }
    }
  }

  // ---- the locked sections and lookup, as values -----------------------------------------

  function Removed(t: Table, e: Entry): (t': Table)
    requires |t.buckets| == BUCKETS
  {
    var b := Bucket(t.Index(e));
    t.(buckets := t.buckets[b := Del(t.buckets[b], e)])
  }

  /** Write the field of an entry; harmless while the entry is on no list. */
  function WithIndex(t: Table, e: Entry, i: nat): (t': Table) {
    t.(index := t.index[e := i])
  }

  /** The locked recheck: hash the entry unless its index is taken. */
  function Committed(t: Table, e: Entry): (t': Table)
    requires |t.buckets| == BUCKETS
  {
    var b := Bucket(t.Index(e));
    if Taken(t, t.Index(e)) then t else t.(buckets := t.buckets[b := [e] + t.buckets[b]])
  }

  function Replaced(t: Table, old': Entry, new': Entry): (t': Table)
    requires |t.buckets| == BUCKETS
  {
    var i := t.Index(old');
    var b := Bucket(i);
    if old' !in t.buckets[b] then t
    else Table(t.buckets[b := Swap(t.buckets[b], old', new')], t.index[new' := i])
  }

  /** The first entry of the bucket with this index, if its type is wanted. */
  function Found(t: Table, wanted: Entry -> bool, l: seq<Entry>, i: nat): (r: Option<Entry>)
    decreases |l|
  {
    if l == [] then None
    else if t.Index(l[0]) == i then (if wanted(l[0]) then Some(l[0]) else None)
    else Found(t, wanted, l[1..], i)
  }

  lemma RemovedKeeps(t: Table, e: Entry)
    requires Ok(t)
    ensures Ok(Removed(t, e)) && !Hashed(Removed(t, e), e)
    ensures forall x :: x != e ==> (Hashed(Removed(t, e), x) <==> Hashed(t, x))
  {
    var t' := Removed(t, e);
    forall b: nat ensures BucketOk(t', b) {
      assert BucketOk(t, b);
      if b < BUCKETS { DelKeeps(t, t.buckets[b], e); }
    }
  }

  lemma WithIndexKeeps(t: Table, e: Entry, i: nat)
    requires Ok(t) && !Hashed(t, e)
    ensures Ok(WithIndex(t, e, i)) && !Hashed(WithIndex(t, e, i), e)
    ensures forall x :: x != e ==> (Hashed(WithIndex(t, e, i), x) <==> Hashed(t, x))
  {
    var t' := WithIndex(t, e, i);
    assert forall b :: 0 <= b < BUCKETS ==> e !in t.buckets[b] by {
      forall b | 0 <= b < BUCKETS ensures e !in t.buckets[b] { assert BucketOk(t, b); }
    }
    forall b: nat ensures BucketOk(t', b) { assert BucketOk(t, b); }
  }

  lemma CommittedKeeps(t: Table, e: Entry)
    requires Ok(t) && !Hashed(t, e)
    ensures Ok(Committed(t, e))
    ensures Hashed(Committed(t, e), e) <==> !Taken(t, t.Index(e))
    ensures forall x :: x != e ==> (Hashed(Committed(t, e), x) <==> Hashed(t, x))
  {
    var t' := Committed(t, e);
    var l := t.buckets[Bucket(t.Index(e))];
    if !Taken(t, t.Index(e)) {
      forall k | 0 <= k < |l| ensures t.Index(l[k]) != t.Index(e) { assert l[k] in l; }
    }
    forall b: nat ensures BucketOk(t', b) { assert BucketOk(t, b); }
  }

  lemma ReplacedKeeps(t: Table, old': Entry, new': Entry)
    requires Ok(t) && !Hashed(t, new') && old' != new'
    ensures Ok(Replaced(t, old', new')) && !Hashed(Replaced(t, old', new'), old')
    ensures Hashed(t, old') ==> Hashed(Replaced(t, old', new'), new') && Replaced(t, old', new').Index(new') == t.Index(old')
    ensures forall x :: x != old' && x != new' ==> (Hashed(Replaced(t, old', new'), x) <==> Hashed(t, x))
  {
    var t' := Replaced(t, old', new');
    assert BucketOk(t, Bucket(t.Index(old')));
    if Hashed(t, old') {
      var b0 := Bucket(t.Index(old'));
      forall b | 0 <= b < BUCKETS ensures new' !in t.buckets[b] { assert BucketOk(t, b); }
      forall b: nat ensures BucketOk(t', b) { assert BucketOk(t, b); }
      var k :| 0 <= k < |t.buckets[b0]| && t.buckets[b0][k] == old';
      assert t'.buckets[b0][k] == new';
    }
  }

  /** Lookup finds the entry of an index exactly when one is hashed and its type is wanted,
      and there is never more than one. */
  lemma LookupFindsTheEntry(t: Table, wanted: Entry -> bool, i: nat, e: Entry)
    requires Ok(t)
    ensures Found(t, wanted, t.buckets[Bucket(i)], i) == Some(e) <==> Hashed(t, e) && t.Index(e) == i && wanted(e)
  {
    assert BucketOk(t, Bucket(i));
    FoundIn(t, wanted, t.buckets[Bucket(i)], i, e);
  }

  lemma {:induction false} FoundIn(t: Table, wanted: Entry -> bool, l: seq<Entry>, i: nat, e: Entry)
    requires forall j, k :: 0 <= j < k < |l| ==> t.Index(l[j]) != t.Index(l[k])
    ensures Found(t, wanted, l, i) == Some(e) <==> e in l && t.Index(e) == i && wanted(e)
    decreases |l|
  {
    if l != [] {
      FoundIn(t, wanted, l[1..], i, e);
      assert e in l <==> e == l[0] || e in l[1..];
    }
  }

  // ---- interleavings ---------------------------------------------------------------------

  /** A running insert: looking for an index, or about to take the lock with one. */
  datatype Phase = Searching | Chosen

  /** The table and the inserts in progress, by entry. */
  datatype System = System(t: Table, running: map<Entry, Phase>)

  datatype Event =
    | InsertBegins(e: Entry)
    | InsertPicks(e: Entry, i: nat, passed: bool)
    | InsertLocks(e: Entry)
    | Replace(old': Entry, new': Entry)
    | Remove(e: Entry)

  /** Each entry is inserted by one caller at a time, and the new entry of a replace is
      neither hashed nor being inserted. The unlocked search of a pick may, because of
      concurrent writers, say anything. */
  ghost predicate Possible(s: System, ev: Event)
    requires |s.t.buckets| == BUCKETS
  {
    match ev
    case InsertBegins(e) => e !in s.running
    case InsertPicks(e, i, _) => e in s.running && s.running[e] == Searching && i < 0x1_0000_0000
    case InsertLocks(e) => e in s.running && s.running[e] == Chosen
    case Replace(old', new') => new' !in s.running && !Hashed(s.t, new') && old' != new'
    case Remove(e) => true
  }

  function Step(s: System, ev: Event): (s': System)
    requires |s.t.buckets| == BUCKETS
    ensures |s'.t.buckets| == BUCKETS
  {
    match ev
    case InsertBegins(e) => System(Removed(s.t, e), s.running[e := Searching])
    case InsertPicks(e, i, passed) =>
      System(WithIndex(s.t, e, i), s.running[e := if passed then Chosen else Searching])
    case InsertLocks(e) =>
      if Taken(s.t, s.t.Index(e)) then s.(running := s.running[e := Searching])
      else System(Committed(s.t, e), s.running - {e})
    case Replace(old', new') => s.(t := Replaced(s.t, old', new'))
    case Remove(e) => s.(t := Removed(s.t, e))
  }

  ghost predicate Inv(s: System) {
    Ok(s.t) && forall e :: e in s.running ==> !Hashed(s.t, e)
  }

  lemma StepKeeps(s: System, ev: Event)
    requires Inv(s) && Possible(s, ev)
    ensures Inv(Step(s, ev))
  {
    match ev
    case InsertBegins(e) => RemovedKeeps(s.t, e);
    case InsertPicks(e, i, _) => WithIndexKeeps(s.t, e, i);
    case InsertLocks(e) => CommittedKeeps(s.t, e);
    case Replace(old', new') => ReplacedKeeps(s.t, old', new');
    case Remove(e) => RemovedKeeps(s.t, e);
  }

  /** Who is hashed after a step. */
  ghost predicate HashedAfter(s: System, ev: Event, x: Entry)
    requires |s.t.buckets| == BUCKETS
  {
    match ev
    case InsertBegins(e) => Hashed(s.t, x) && x != e
    case InsertPicks(_, _, _) => Hashed(s.t, x)
    case InsertLocks(e) => Hashed(s.t, x) || (x == e && !Taken(s.t, s.t.Index(e)))
    case Replace(old', new') => (Hashed(s.t, x) && x != old') || (x == new' && Hashed(s.t, old'))
    case Remove(e) => Hashed(s.t, x) && x != e
  }

  /** In every interleaving: a step hashes and unhashes just the entries it is meant to and
      gives just these their index, and an insert that finds its index taken under the lock
      searches on. */
  lemma StepDoes(evs: seq<Event>, ss: seq<System>, k: nat, x: Entry)
    requires IsRun(evs, ss) && k < |evs|
    ensures var s, s', ev := ss[k], ss[k + 1], evs[k];
            && |s.t.buckets| == |s'.t.buckets| == BUCKETS
            && (Hashed(s'.t, x) <==> HashedAfter(s, ev, x))
            && s'.t.Index(x) == (if ev.InsertPicks? && ev.e == x then ev.i
                                 else if ev.Replace? && ev.new' == x && Hashed(s.t, ev.old') then s.t.Index(ev.old')
                                 else s.t.Index(x))
            && (ev.InsertLocks? ==> (ev.e in s'.running <==> Taken(s.t, s.t.Index(ev.e))))
            && (ev.InsertLocks? && ev.e in s'.running ==> s'.running[ev.e] == Searching)
  {
    var s, ev := ss[k], evs[k];
    RunKeeps(evs, ss, k);
    match ev
    case InsertBegins(e) => RemovedKeeps(s.t, e);
    case InsertPicks(e, i, _) => WithIndexKeeps(s.t, e, i);
    case InsertLocks(e) => CommittedKeeps(s.t, e);
    case Replace(old', new') => ReplacedKeeps(s.t, old', new');
    case Remove(e) => RemovedKeeps(s.t, e);
  }

  ghost predicate IsRun(evs: seq<Event>, ss: seq<System>) {
    && |ss| == |evs| + 1 && ss[0] == System(Table(seq(BUCKETS, _ => []), map[]), map[])
    && forall k :: 0 <= k < |evs| ==>
         |ss[k].t.buckets| == BUCKETS && Possible(ss[k], evs[k]) && ss[k + 1] == Step(ss[k], evs[k])
  }

  lemma {:induction false} RunKeeps(evs: seq<Event>, ss: seq<System>, k: nat)
    requires IsRun(evs, ss) && k <= |evs|
    ensures Inv(ss[k])
  {
    if k > 0 {
      RunKeeps(evs, ss, k - 1);
      StepKeeps(ss[k - 1], evs[k - 1]);
    }
  }

  /** In every interleaving no two hashed entries share an index, and a lookup of any index
      returns the hashed entry that has it, or nothing when there is none or its type is
      not wanted. */
  lemma IndicesAreUnique(evs: seq<Event>, ss: seq<System>, k: nat, wanted: Entry -> bool, i: nat, e: Entry, e': Entry)
    requires IsRun(evs, ss) && k <= |evs|
    ensures |ss[k].t.buckets| == BUCKETS
    ensures Hashed(ss[k].t, e) && Hashed(ss[k].t, e') && ss[k].t.Index(e) == ss[k].t.Index(e') ==> e == e'
    ensures Found(ss[k].t, wanted, ss[k].t.buckets[Bucket(i)], i) == Some(e) <==>
            Hashed(ss[k].t, e) && ss[k].t.Index(e) == i && wanted(e)
  {
    RunKeeps(evs, ss, k);
    var t := ss[k].t;
    LookupFindsTheEntry(t, wanted, i, e);
    LookupFindsTheEntry(t, _ => true, t.Index(e), e);
    LookupFindsTheEntry(t, _ => true, t.Index(e), e');
  }

  // ---- the table itself --------------------------------------------------------------------

  /** The first drawn index that nobody uses. */
  ghost predicate IsFirstFree(t: Table, draws: seq<nat>, k: nat)
    requires |t.buckets| == BUCKETS
  {
    k < |draws| && !Taken(t, draws[k]) && forall j :: 0 <= j < k ==> Taken(t, draws[j])
  }

  class Hashtable {
    var buckets: seq<seq<Entry>>
    var index: map<Entry, nat>

    ghost function View(): (t: Table)
      reads this
    {
      Table(buckets, index)
    }

    function Index(e: Entry): (i: nat)
      reads this
    {
      if e in index then index[e] else 0
    }

    constructor ()
      ensures View() == Table(seq(BUCKETS, _ => []), map[])
    {
      buckets, index := seq(BUCKETS, _ => []), map[];
    }

    /** The locked `hlist_del_init`. */
    method Remove(e: Entry)
      requires |buckets| == BUCKETS
      modifies `buckets
      ensures View() == Removed(old(View()), e)
    {
      var b := Bucket(Index(e));
      buckets := buckets[b := Del(buckets[b], e)];
    }

    /** Both scans of an insert: is some entry of the bucket using this index? */
    method InUse(i: nat) returns (used: bool)
      requires |buckets| == BUCKETS
      ensures used == Taken(View(), i)
    {
      var l := buckets[Bucket(i)];
      for k := 0 to |l|
        invariant forall j :: 0 <= j < k ==> Index(l[j]) != i
      {
        if Index(l[k]) == i {
          assert l[k] in View().buckets[Bucket(i)];
          return true;
        }
      }
      return false;
    }

    /** `wg_index_hashtable_insert` without interference, given the random numbers drawn. */
    method Insert(e: Entry, draws: seq<nat>) returns (done: bool)
      requires Ok(View())
      modifies this
      ensures Ok(View())
      ensures done <==> exists k :: 0 <= k < |draws| && !Taken(Removed(old(View()), e), draws[k])
      ensures done ==> Hashed(View(), e) && exists k: nat :: IsFirstFree(Removed(old(View()), e), draws, k) && View().Index(e) == draws[k]
      ensures forall x :: x != e ==> View().Index(x) == old(View()).Index(x) && (Hashed(View(), x) <==> Hashed(old(View()), x))
    {
      RemovedKeeps(View(), e);
      Remove(e);
      ghost var t := View();
      for k := 0 to |draws|
        invariant Ok(View()) && !Hashed(View(), e) && buckets == t.buckets
        invariant forall x :: x != e ==> View().Index(x) == t.Index(x) && (Hashed(View(), x) <==> Hashed(t, x))
        invariant forall j :: 0 <= j < k ==> Taken(t, draws[j])
      {
        WithIndexKeeps(View(), e, draws[k]);
        TakenSame(t, View(), e, draws[k]);
        index := index[e := draws[k]];
        var used := InUse(draws[k]);
        TakenSame(t, View(), e, draws[k]);
        if used { continue; }
        used := InUse(draws[k]);
        if used { continue; }
        CommittedKeeps(View(), e);
        assert IsFirstFree(t, draws, k);
        ghost var free, committed := View(), Committed(View(), e);
        assert forall x :: x != e ==> (Hashed(committed, x) <==> Hashed(free, x)) && committed.Index(x) == t.Index(x);
        var b := Bucket(draws[k]);
        buckets := buckets[b := [e] + buckets[b]];
        assert View() == committed;
        return true;
      }
      return false;
    }

    method ReplaceEntry(old': Entry, new': Entry) returns (ret: bool)
      requires |buckets| == BUCKETS
      modifies this
      ensures ret == Hashed(old(View()), old') && View() == Replaced(old(View()), old', new')
    {
      var i := Index(old');
      var b := Bucket(i);
      ret := old' in buckets[b];
      if !ret { return; }
      index := index[new' := i];
      buckets := buckets[b := Swap(buckets[b], old', new')];
    }

    method Lookup(wanted: Entry -> bool, i: nat) returns (r: Option<Entry>)
      requires |buckets| == BUCKETS
      ensures r == Found(View(), wanted, buckets[Bucket(i)], i)
    {
      var l := buckets[Bucket(i)];
      for k := 0 to |l|
        invariant Found(View(), wanted, l, i) == Found(View(), wanted, l[k..], i)
      {
        if Index(l[k]) == i { return if wanted(l[k]) then Some(l[k]) else None; }
        assert l[k..][1..] == l[k + 1..];
      }
      return None;
    }
  }

  /** An entry on no list takes no index. */
  lemma TakenSame(t: Table, t': Table, e: Entry, i: nat)
    requires |t.buckets| == BUCKETS && t'.buckets == t.buckets
    requires e !in t.buckets[Bucket(i)] && forall x :: x != e ==> t'.Index(x) == t.Index(x)
    ensures Taken(t, i) == Taken(t', i)
  {
    if Taken(t, i) {
      var x :| x in t.buckets[Bucket(i)] && t.Index(x) == i;
      assert t'.Index(x) == i;
    }
    if Taken(t', i) {
      var x :| x in t.buckets[Bucket(i)] && t'.Index(x) == i;
      assert t.Index(x) == i;
    }
  }
}
