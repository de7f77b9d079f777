/** The mutable encoder and decoder of core/fec.go, with `sendData` and `handlePlain` of
    core/main.go around them, each tied to the value-level step it performs. */
module FecCodec {
  import opened Bytes
  import opened FecSlots
  import opened Fec

  method XorInto(a: array<Byte>, slot: Slot)
    requires a.Length == SLOT
    modifies a
    ensures a[..] == XorSlot(old(a[..]), slot)
  {
    for k := 0 to SLOT
      invariant forall j :: 0 <= j < k ==> a[j] == Xor(old(a[j]), slot[j])
      invariant forall j :: k <= j < SLOT ==> a[j] == old(a[j])
    {
      a[k] := Xor(a[k], slot[k]);
    }
    IsXorSlot(old(a[..]), slot, a[..]);
  }

  method Clear(a: array<Byte>)
    requires a.Length == SLOT
    modifies a
    ensures a[..] == ZERO
  {
    for k := 0 to SLOT
      invariant forall j :: 0 <= j < k ==> a[j] == 0
    {
      a[k] := 0;
    }
    assert a[..] == ZERO;
  }

  class Encoder {
    var groupSize: nat
    var groupID: nat
    var index: nat
    const accum: array<Byte>

    ghost predicate Valid()
      reads this, accum
    {
      accum.Length == SLOT && 2 <= groupSize <= 64 && groupID < 0x1_0000_0000 && index < groupSize
    }

    ghost function View(): (e: Enc)
      requires Valid()
      reads this, accum
    {
      Enc(groupSize, groupID, index, accum[..])
    }

    constructor (size: int)
      ensures Valid() && fresh(accum) && View() == EncInit(size)
    {
      groupSize := if size < 2 then 2 else if size > 64 then 64 else size;
      groupID, index := 1, 0;
      accum := new Byte[SLOT](_ => 0);
      new;
      assert accum[..] == ZERO;
    }

    method SetGroupSize(n: int)
      requires Valid()
      modifies `groupSize
      ensures Valid() && View() == EncResize(old(View()), n)
    {
      var k := n;
      if k < 2 { k := 2; }
      if k > 64 { k := 64; }
      if index == 0 { groupSize := k; }
    }

    method Add(frame: Frame) returns (gid: nat, i: nat, complete: bool)
      requires Valid()
      modifies `index, accum
      ensures Valid() && View() == EncAdd(old(View()), frame)
      ensures gid == groupID && i == old(index) && complete == (index == 0)
    {
      gid, i := groupID, index;
      if |frame| <= SLOT - 2 {
        XorInto(accum, SlotOf(frame));
      } else {
        XorSlotLaws(accum[..], ZERO, ZERO);
      }
      index := index + 1;
      complete := index >= groupSize;
      if complete { index := 0; }
    }

    method FlushParity() returns (gid: nat, size: nat, parity: Slot)
      requires Valid()
      modifies `groupID, accum
      ensures Valid() && View() == EncFlush(old(View()))
      ensures gid == old(groupID) && size == groupSize && parity == old(accum[..])
    {
      gid, size, parity := groupID, groupSize, accum[..];
      Clear(accum);
      groupID := (groupID + 1) % 0x1_0000_0000;
    }

    /** The plaintexts `sendData` seals for one frame. */
    method SendData(frame: Frame) returns (plains: seq<seq<Byte>>)
      requires Valid()
      modifies this, accum
      ensures Valid() && View() == AfterSend(old(View()), frame)
      ensures forall p :: p in Sent(old(View()), frame) ==> Fits(p)
      ensures |plains| == |Sent(old(View()), frame)|
      ensures forall k :: 0 <= k < |plains| ==> plains[k] == Plain(Sent(old(View()), frame)[k])
    {
      var gid, i, complete := Add(frame);
      plains := [[PKT_DATA] + Be32(gid) + [i as Byte, groupSize as Byte] + frame];
      if complete {
        var pgid, size, parity := FlushParity();
        plains := plains + [[PKT_PARITY] + Be32(pgid) + [size as Byte] + parity];
      }
    }
  }

  method XorLoop(a: Slot, b: Slot) returns (r: Slot)
    ensures r == XorSlot(a, b)
  {
    var out := [];
    for k := 0 to SLOT
      invariant |out| == k && forall j :: 0 <= j < k ==> out[j] == Xor(a[j], b[j])
    {
      out := out + [Xor(a[k], b[k])];
    }
    r := out;
    IsXorSlot(a, b, r);
  }

  /** A frame folded into an accumulator; one that does not fit is left out. */
  method Folded(acc: Slot, frame: Frame) returns (r: Slot)
    ensures r == XorSlot(acc, SlotOf(frame))
  {
    if |frame| <= SLOT - 2 {
      r := XorLoop(acc, SlotOf(frame));
    } else {
      XorSlotInverse(acc);
      r := acc;
    }
  }

  class Decoder {
    var groups: Groups

    constructor ()
      ensures groups == map[]
    {
      groups := map[];
    }

    method FoldData(gid: nat, index: int, size: int, frame: Frame, now: int)
      modifies this
      ensures groups == OnData(old(groups), gid, index, size, frame, now)
    {
      if size <= 0 || index < 0 || index >= 64 { return; }
      var g: Group;
      if gid in groups {
        g := groups[gid];
      } else {
        g := Group({}, ZERO, size, 0, 0);
        groups := groups[gid := g];
      }
      if index in g.mask { return; }
      var acc := Folded(g.accum, frame);
      g := g.(accum := acc);
      g := g.(mask := g.mask + {index}, seen := g.seen + 1, lastSeen := now);
      groups := groups[gid := g];
    }

    /** The recovered frame, empty for nil. */
    method TakeParity(gid: nat, size: int, parity: seq<Byte>) returns (frame: Frame)
      modifies this
      ensures groups == old(groups) - {gid}
      ensures frame == Recovered(old(groups), gid, size, parity)
    {
      if gid !in groups { return []; }
      var g := groups[gid];
      groups := groups - {gid};
      if g.size != size || |parity| != SLOT { return []; }
      var missing := size - g.seen;
      if missing != 1 { return []; }
      var recovered := XorLoop(g.accum, parity);
      var n := FromBe16(recovered[..2]);
      if n > SLOT - 2 { return []; }
      frame := recovered[2..2 + n];
    }

    method Gc(maxAge: int, now: int)
      modifies this
      ensures groups == Collected(old(groups), maxAge, now)
    {
      var rest := groups.Keys;
      while rest != {}
        invariant rest <= old(groups).Keys
        invariant groups == map id | id in old(groups)
                                     && !(id !in rest && now - old(groups)[id].lastSeen > maxAge) :: old(groups)[id]
        decreases rest
      {
        var id :| id in rest;
        rest := rest - {id};
        if now - groups[id].lastSeen > maxAge { groups := groups - {id}; }
      }
    }

    method HandlePlain(plain: seq<Byte>, now: int) returns (written: seq<Frame>)
      modifies this
      ensures groups == AfterPlain(old(groups), plain, now)
      ensures written == Written(old(groups), plain)
    {
      written := [];
      if |plain| == 0 { return; }
      if plain[0] == PKT_DATA {
        if |plain| < 7 { return; }
        var gid, index, size := FromBe32(plain[1..5]), plain[5] as int, plain[6] as int;
        if size > 0 { FoldData(gid, index, size, plain[7..], now); }
        written := [plain[7..]];
      } else if plain[0] == PKT_PARITY {
        if |plain| < 6 { return; }
        var frame := TakeParity(FromBe32(plain[1..5]), plain[5] as int, plain[6..]);
        if frame != [] { written := [frame]; }
      }
    }
  }
}
