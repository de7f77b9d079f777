/** The XOR forward-error-correction code of core/fec.go and the packets that carry it
    (`sendData`, `handlePlain` of core/main.go): states and steps as values, with the
    mutable encoder and decoder refining them. */
module Fec {
  import opened Bytes
  import opened FecSlots

  const PKT_DATA: Byte := 0x01
  const PKT_KEEPALIVE: Byte := 0x02
  const PKT_PARITY: Byte := 0x03

  function Clamp(n: int): (k: nat)
    ensures 2 <= k <= 64
  {
    if n < 2 then 2 else if n > 64 then 64 else n
  }

  /** The size that is nearest to the wish. */
  lemma ClampIsNearest(n: int, k: nat)
    requires 2 <= k <= 64
    ensures (if n < Clamp(n) then Clamp(n) - n else n - Clamp(n)) <= if n < k then k - n else n - k
  {
  }

  // ---- encoder ------------------------------------------------------------------

  datatype Enc = Enc(groupSize: nat, groupID: nat, index: nat, accum: Slot)

  function EncInit(groupSize: int): (e: Enc) {
    Enc(Clamp(groupSize), 1, 0, ZERO)
  }

  /** The encoder after `add`; the stamp is the index before it, and the group is complete
      when the index wraps to 0. */
  function EncAdd(e: Enc, frame: Frame): (e': Enc) {
    e.(accum := XorSlot(e.accum, SlotOf(frame)),
       index := if e.index + 1 >= e.groupSize then 0 else e.index + 1)
  }

  function EncFlush(e: Enc): (e': Enc) {
    e.(accum := ZERO, groupID := (e.groupID + 1) % 0x1_0000_0000)
  }

  /** Only between groups does a new size take effect. */
  function EncResize(e: Enc, n: int): (e': Enc) {
    if e.index == 0 then e.(groupSize := Clamp(n)) else e
  }

  datatype Packet =
    | Data(gid: nat, index: nat, size: nat, frame: Frame)
    | Parity(gid: nat, size: nat, parity: Slot)

  predicate Fits(p: Packet) {
    p.gid < 0x1_0000_0000 && p.size < 256 && (p.Data? ==> p.index < 256)
  }

  /** The plaintext of a packet, header first. */
  function Plain(p: Packet): (s: seq<Byte>)
    requires Fits(p)
  {
    match p
    case Data(gid, i, n, frame) => [PKT_DATA] + Be32(gid) + [i as Byte, n as Byte] + frame
    case Parity(gid, n, parity) => [PKT_PARITY] + Be32(gid) + [n as Byte] + parity
  }

  /** One atomic `sendData`: fold the frame in, send it, and send the parity when that
      completed the group. */
  function Sent(e: Enc, frame: Frame): (ps: seq<Packet>) {
    var e1 := EncAdd(e, frame);
    var data := Data(e.groupID, e.index, e1.groupSize, frame);
    if e1.index == 0 then [data, Parity(e1.groupID, e1.groupSize, e1.accum)] else [data]
  }

  function AfterSend(e: Enc, frame: Frame): (e': Enc) {
    var e1 := EncAdd(e, frame);
    if e1.index == 0 then EncFlush(e1) else e1
  }

  /** The packets of a `sendData` in which `SetGroupSize(n1)` runs after `add` and before the
      size is read for the data packet, and `SetGroupSize(n2)` after that and before
      `flushParity`. A call with the size in force is no call. */
  function TornSent(e: Enc, frame: Frame, n1: int, n2: int): (ps: seq<Packet>) {
    var e1 := EncAdd(e, frame);
    var e2 := EncResize(e1, n1);
    var e3 := EncResize(e2, n2);
    var data := Data(e.groupID, e.index, e2.groupSize, frame);
    if e1.index == 0 then [data, Parity(e3.groupID, e3.groupSize, e3.accum)] else [data]
  }

  function AfterTorn(e: Enc, frame: Frame, n1: int, n2: int): (e': Enc) {
    var e3 := EncResize(EncResize(EncAdd(e, frame), n1), n2);
    if e3.index == 0 then EncFlush(e3) else e3
  }

  // ---- decoder ------------------------------------------------------------------

  /** One group in flight. The 64-bit mask is the set of its one-bits. */
  datatype Group = Group(mask: set<nat>, accum: Slot, size: nat, seen: nat, lastSeen: int)

  type Groups = map<nat, Group>

  function GroupFor(groups: Groups, gid: nat, size: nat): (g: Group) {
    if gid in groups then groups[gid] else Group({}, ZERO, size, 0, 0)
  }

  function OnData(groups: Groups, gid: nat, index: int, size: int, frame: Frame, now: int): (groups': Groups) {
    if size <= 0 || index < 0 || index >= 64 then groups
    else
      var g := GroupFor(groups, gid, size);
      if index in g.mask then groups[gid := g]
      else groups[gid := g.(mask := g.mask + {index}, accum := XorSlot(g.accum, SlotOf(frame)),
                            seen := g.seen + 1, lastSeen := now)]
  }

  /** The frame `onParity` recovers, empty for nil. The group is dropped either way. */
  function Recovered(groups: Groups, gid: nat, size: int, parity: seq<Byte>): (f: Frame) {
    if gid !in groups || groups[gid].size != size || |parity| != SLOT || size - groups[gid].seen != 1 then []
    else FrameOf(XorSlot(groups[gid].accum, parity))
  }

  function Collected(groups: Groups, maxAge: int, now: int): (groups': Groups) {
    map gid | gid in groups && !(now - groups[gid].lastSeen > maxAge) :: groups[gid]
  }

  /** The groups after `handlePlain` of one plaintext. */
  function AfterPlain(groups: Groups, plain: seq<Byte>, now: int): (groups': Groups) {
    if |plain| >= 7 && plain[0] == PKT_DATA && plain[6] > 0 then
      OnData(groups, FromBe32(plain[1..5]), plain[5] as int, plain[6] as int, plain[7..], now)
    else if |plain| >= 6 && plain[0] == PKT_PARITY then groups - {FromBe32(plain[1..5])}
    else groups
  }

  /** The frames `handlePlain` writes to the sink. */
  function Written(groups: Groups, plain: seq<Byte>): (fs: seq<Frame>) {
    if |plain| >= 7 && plain[0] == PKT_DATA then [plain[7..]]
    else if |plain| >= 6 && plain[0] == PKT_PARITY then
      var f := Recovered(groups, FromBe32(plain[1..5]), plain[5] as int, plain[6..]);
      if f == [] then [] else [f]
    else []
  }

  /** Parsing the plaintext of a packet gives its fields back. */
  lemma PlainRoundTrip(groups: Groups, p: Packet, now: int)
    requires Fits(p) && (p.Data? ==> p.size > 0)
    ensures p.Data? ==> AfterPlain(groups, Plain(p), now) == OnData(groups, p.gid, p.index, p.size, p.frame, now)
                        && Written(groups, Plain(p)) == [p.frame]
    ensures p.Parity? ==> AfterPlain(groups, Plain(p), now) == groups - {p.gid}
                          && Written(groups, Plain(p)) ==
                             var f := Recovered(groups, p.gid, p.size, p.parity); if f == [] then [] else [f]
  {
    var s := Plain(p);
    assert s[1..5] == Be32(p.gid);
    match p {
      case Data(gid, i, n, frame) => assert s[7..] == frame;
      case Parity(gid, n, parity) => assert s[6..] == parity;
    }
  }
}
