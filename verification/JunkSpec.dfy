/** Compiling a tag description into a packet template (`jp_spec_setup`) and rewriting its
    modifier regions before each send (`jp_spec_applymods`), panel/awgsrc/src/junk.c. */
module JunkSpec {
  import opened Options
  import opened Bytes
  import opened KernelText
  import opened JunkTags

  const MESSAGE_MAX_SIZE: int := 65535

  /** 32-bit two's-complement value. */
  function Wrap(x: int): (r: int)
    ensures -0x8000_0000 <= r <= 0x7FFF_FFFF
  {
    (x + 0x8000_0000) % 0x1_0000_0000 - 0x8000_0000
  }

  function Total(ts: seq<Tag>): (n: int) {
    if ts == [] then 0 else Total(ts[..|ts| - 1]) + Size(ts[|ts| - 1])
  }

  /** The running 32-bit offset of the second pass when it reaches tag `i`. */
  function Offset(ts: seq<Tag>, i: nat): (n: int)
    requires i <= |ts|
  {
    Wrap(Total(ts[..i]))
  }

  /** The template the two passes lay out has every tag in its own span of the packet. */
  ghost predicate LaidOut(ts: seq<Tag>, size: int) {
    LaidOutTo(ts, size, |ts|)
  }

  ghost predicate LaidOutTo(ts: seq<Tag>, size: int, n: nat) {
    forall i :: 0 <= i < n && i < |ts| ==> 0 <= Offset(ts, i) && 0 <= Size(ts[i]) && Offset(ts, i) + Size(ts[i]) <= size
  }

  ghost predicate Sane(ts: seq<Tag>) {
    (forall i :: 0 <= i < |ts| ==> Size(ts[i]) >= 0) && Total(ts) <= MESSAGE_MAX_SIZE
  }

  lemma {:induction false} TotalGrows(ts: seq<Tag>, i: nat)
    requires (forall k :: 0 <= k < |ts| ==> Size(ts[k]) >= 0) && i <= |ts|
    ensures 0 <= Total(ts[..i]) <= Total(ts)
    decreases |ts|
  {
    if i < |ts| {
      var rest := ts[..|ts| - 1];
      TotalGrows(rest, i);
      assert rest[..i] == ts[..i];
    } else {
      assert ts[..i] == ts;
      TotalNonNegative(ts);
    }
  }

  lemma {:induction false} TotalNonNegative(ts: seq<Tag>)
    requires forall k :: 0 <= k < |ts| ==> Size(ts[k]) >= 0
    ensures Total(ts) >= 0
  {
    if ts != [] { TotalNonNegative(ts[..|ts| - 1]); }
  }

  lemma TotalNext(ts: seq<Tag>, i: nat)
    requires i < |ts|
    ensures Total(ts[..i + 1]) == Total(ts[..i]) + Size(ts[i])
  {
    assert ts[..i + 1][..i] == ts[..i];
  }

  lemma {:induction false} LaidOutMeansExact(ts: seq<Tag>, size: int, i: nat)
    requires LaidOutTo(ts, size, i) && 0 <= size <= MESSAGE_MAX_SIZE && i <= |ts|
    ensures 0 <= Total(ts[..i]) <= size
  {
    if i > 0 {
      LaidOutMeansExact(ts, size, i - 1);
      TotalNext(ts, i - 1);
      assert Offset(ts, i - 1) == Total(ts[..i - 1]);
    }
  }

  lemma WrapSmall(x: int)
    requires 0 <= x <= 0x7FFF_FFFF
    ensures Wrap(x) == x
  {
  }

  /** Wrapping at every addition or once at the end is the same. */
  lemma WrapAdd(x: int, n: int)
    ensures Wrap(Wrap(x) + n) == Wrap(x + n)
  {
    var q := (x + 0x8000_0000) / 0x1_0000_0000;
    assert Wrap(x) == x - 0x1_0000_0000 * q;
    WrapShift(x + n, -q);
  }

  lemma WrapShift(x: int, q: int)
    ensures Wrap(x + 0x1_0000_0000 * q) == Wrap(x)
  {
    var y := x + 0x8000_0000;
    assert y == 0x1_0000_0000 * (y / 0x1_0000_0000) + y % 0x1_0000_0000;
    assert y + 0x1_0000_0000 * q == 0x1_0000_0000 * (y / 0x1_0000_0000 + q) + y % 0x1_0000_0000;
  }

  lemma SaneIsLaidOut(ts: seq<Tag>)
    requires Sane(ts)
    ensures Wrap(Total(ts)) == Total(ts) && LaidOut(ts, Total(ts))
  {
    assert ts[..|ts|] == ts;
    TotalGrows(ts, |ts|);
    WrapSmall(Total(ts));
    forall i | 0 <= i < |ts| ensures 0 <= Offset(ts, i) && Offset(ts, i) + Size(ts[i]) <= Total(ts) {
      TotalGrows(ts, i);
      TotalGrows(ts, i + 1);
      TotalNext(ts, i);
      WrapSmall(Total(ts[..i]));
    }
  }

  /** A further tag is laid out if and only if it fits behind those before it. */
  lemma FitsNext(ts: seq<Tag>, len: int, i: nat, size: int)
    requires i < |ts| && LaidOutTo(ts, len, i) && 0 <= size <= len <= MESSAGE_MAX_SIZE && size == Total(ts[..i])
    ensures LaidOutTo(ts, len, i + 1) <==> Size(ts[i]) >= 0 && size + Size(ts[i]) <= len
    ensures !LaidOutTo(ts, len, i + 1) ==> !LaidOut(ts, len)
    ensures Total(ts[..i + 1]) == size + Size(ts[i])
  {
    TotalNext(ts, i);
    WrapSmall(size);
  }

  /** The size check looks at the 32-bit total. Where it passes, the layout is right exactly
      when no tag has a negative size and the total did not wrap. */
  lemma LaidOutIffSane(ts: seq<Tag>, size: int)
    requires size == Wrap(Total(ts)) && 0 <= size <= MESSAGE_MAX_SIZE
    ensures LaidOut(ts, size) <==> Sane(ts)
  {
    assert ts[..|ts|] == ts;
    if LaidOut(ts, size) { LaidOutMeansExact(ts, size, |ts|); }
    if Sane(ts) { SaneIsLaidOut(ts); }
  }

  /** A random region of size -1 before one of size 1 can be described and passes the size
      check, and the second region starts before the packet. */
  lemma NegativeSizeIsMislaid()
    ensures var ts := [Modifier(RandomBytes, -1), Modifier(RandomBytes, 1)];
            && ParseTags(Some(Show(ts))) == Some(ts)
            && Wrap(Total(ts)) == 0 && Offset(ts, 1) == -1 && !LaidOut(ts, 0)
  {
    var a, b := Modifier(RandomBytes, -1), Modifier(RandomBytes, 1);
    TotalOfTwo(a, b);
    assert Wrap(0) == 0 && Wrap(-1) == -1;
    Describable(a, b);
  }

  lemma Describable(a: Tag, b: Tag)
    requires Expressible(a) && Expressible(b)
    ensures ParseTags(Some(Show([a, b]))) == Some([a, b])
  {
    TagsRoundTrip([a, b]);
  }

  lemma TotalOfTwo(a: Tag, b: Tag)
    ensures Total([a, b]) == Size(a) + Size(b) && Total([a, b][..1]) == Size(a)
  {
    assert [a, b][..1] == [a] && [a][..0] == [];
    assert Total([a]) == Total([]) + Size(a);
  }

  // ---- the compiled packet --------------------------------------------------------------

  /** A modifier region: bytes `at` to `at + len` of the packet. */
  datatype Region = Region(kind: Kind, at: nat, len: nat)

  /** The bytes of tag `i` within the packet. */
  function Span(ts: seq<Tag>, pkt: seq<Byte>, i: nat): (s: seq<Byte>)
    requires i < |ts| && 0 <= Total(ts[..i]) && Size(ts[i]) >= 0 && Total(ts[..i]) + Size(ts[i]) <= |pkt|
  {
    pkt[Total(ts[..i])..Total(ts[..i]) + Size(ts[i])]
  }

  ghost predicate InPlace(ts: seq<Tag>, pkt: seq<Byte>) {
    Sane(ts) && |pkt| == Total(ts)
    && forall i :: 0 <= i < |ts| ==> 0 <= Total(ts[..i]) && Total(ts[..i]) + Size(ts[i]) <= |pkt|
  }

  lemma SaneIsInPlace(ts: seq<Tag>, pkt: seq<Byte>)
    requires Sane(ts) && |pkt| == Total(ts)
    ensures InPlace(ts, pkt)
  {
    forall i | 0 <= i < |ts| ensures 0 <= Total(ts[..i]) && Total(ts[..i]) + Size(ts[i]) <= |pkt| {
      TotalGrows(ts, i);
      TotalGrows(ts, i + 1);
      TotalNext(ts, i);
    }
  }

  /** Spans of different tags do not meet. */
  lemma SpansApart(ts: seq<Tag>, i: nat, j: nat)
    requires Sane(ts) && i < j < |ts|
    ensures Total(ts[..i]) + Size(ts[i]) <= Total(ts[..j])
  {
    TotalNext(ts, i);
    assert ts[..j][..i + 1] == ts[..i + 1];
    TotalGrows(ts[..j], i + 1);
  }

  /** Each fixed tag's span of the packet holds exactly its decoded bytes. */
  ghost predicate FixedIntact(ts: seq<Tag>, pkt: seq<Byte>)
    requires InPlace(ts, pkt)
  {
    forall i :: 0 <= i < |ts| && ts[i].Fixed? ==> Span(ts, pkt, i) == ts[i].bytes
  }

  /** The modifier regions are the modifier tags' spans, in textual order. */
  function RegionsOf(ts: seq<Tag>): (rs: seq<Region>)
    requires forall i :: 0 <= i < |ts| ==> Size(ts[i]) >= 0
  {
    if ts == [] then []
    else
      var t, rest := ts[|ts| - 1], ts[..|ts| - 1];
      TotalNonNegative(rest);
      assert Size(ts[|ts| - 1]) >= 0;
      RegionsOf(rest) + if t.Modifier? then [Region(t.kind, Total(rest), t.n)] else []
  }

  ghost predicate RegionIs(ts: seq<Tag>, r: Region, i: nat) {
    i < |ts| && ts[i].Modifier? && r == Region(ts[i].kind, r.at, r.len) && r.at == Total(ts[..i]) && r.len == ts[i].n
  }

  lemma {:induction false} RegionsAreSpans(ts: seq<Tag>, k: nat)
    requires (forall i :: 0 <= i < |ts| ==> Size(ts[i]) >= 0) && k < |RegionsOf(ts)|
    ensures exists i: nat :: RegionIs(ts, RegionsOf(ts)[k], i)
    decreases |ts|
  {
    var t, rest := ts[|ts| - 1], ts[..|ts| - 1];
    if k < |RegionsOf(rest)| {
      RegionsAreSpans(rest, k);
      var i: nat :| RegionIs(rest, RegionsOf(rest)[k], i);
      assert rest[..i] == ts[..i];
      assert RegionIs(ts, RegionsOf(ts)[k], i);
    } else {
      assert RegionIs(ts, RegionsOf(ts)[k], |ts| - 1);
    }
  }

  lemma {:induction false} RegionsWithin(ts: seq<Tag>, k: nat)
    requires (forall i :: 0 <= i < |ts| ==> Size(ts[i]) >= 0) && k < |RegionsOf(ts)|
    ensures RegionsOf(ts)[k].at + RegionsOf(ts)[k].len <= Total(ts)
    decreases |ts|
  {
    var rest := ts[..|ts| - 1];
    assert Size(ts[|ts| - 1]) >= 0;
    if k < |RegionsOf(rest)| { RegionsWithin(rest, k); }
  }

  /** Modifier regions are pairwise disjoint. */
  lemma {:induction false} RegionsApart(ts: seq<Tag>, j: nat, k: nat)
    requires (forall i :: 0 <= i < |ts| ==> Size(ts[i]) >= 0) && j < k < |RegionsOf(ts)|
    ensures RegionsOf(ts)[j].at + RegionsOf(ts)[j].len <= RegionsOf(ts)[k].at
    decreases |ts|
  {
    var rest := ts[..|ts| - 1];
    if k < |RegionsOf(rest)| { RegionsApart(rest, j, k); } else { RegionsWithin(rest, j); }
  }

  /** What a modifier can draw on. */
  datatype Env = Env(counter: nat, time: nat, rand: (nat, nat) -> nat)

  predicate IsLetter(b: Byte) {
    97 <= b <= 122 || 65 <= b <= 90
  }

  predicate IsDigitByte(b: Byte) {
    48 <= b <= 57
  }

  function Letter(n: nat): (b: Byte)
    requires n < 52
    ensures IsLetter(b)
  {
    if n < 26 then (97 + n) as Byte else (65 + n - 26) as Byte
  }

  function Letters(n: nat, rand: nat -> nat): (s: seq<Byte>)
    ensures |s| == n && forall i :: 0 <= i < n ==> IsLetter(s[i])
  {
    if n == 0 then [] else Letters(n - 1, rand) + [Letter(rand(n - 1) % 52)]
  }

  function DigitBytes(n: nat, rand: nat -> nat): (s: seq<Byte>)
    ensures |s| == n && forall i :: 0 <= i < n ==> IsDigitByte(s[i])
  {
    if n == 0 then [] else DigitBytes(n - 1, rand) + [(48 + rand(n - 1) % 10) as Byte]
  }

  /** The bytes region number `k` is filled with. */
  function Fill(r: Region, env: Env, k: nat): (s: seq<Byte>)
    requires r.kind.Counter? || r.kind.Time? ==> r.len == 4
    ensures |s| == r.len
    ensures r.kind.RandomDigits? ==> forall i :: 0 <= i < |s| ==> IsDigitByte(s[i])
    ensures r.kind.RandomChars? ==> forall i :: 0 <= i < |s| ==> IsLetter(s[i])
  {
    match r.kind
    case Counter => Be32(env.counter % 0x1_0000_0000)
    case Time => Be32(env.time % 0x1_0000_0000)
    case RandomBytes => seq(r.len, i requires 0 <= i < r.len => (env.rand(k, i) % 256) as Byte)
    case RandomChars => Letters(r.len, i => env.rand(k, i))
    case RandomDigits => DigitBytes(r.len, i => env.rand(k, i))
  }

  function Overlay(pkt: seq<Byte>, at: nat, s: seq<Byte>): (r: seq<Byte>)
    requires at + |s| <= |pkt|
  {
    pkt[..at] + s + pkt[at + |s|..]
  }

  lemma OverlayElsewhere(pkt: seq<Byte>, at: nat, s: seq<Byte>, lo: nat, hi: nat)
    requires at + |s| <= |pkt| && lo <= hi <= |pkt| && (hi <= at || at + |s| <= lo)
    ensures Overlay(pkt, at, s)[lo..hi] == pkt[lo..hi]
  {
  }

  /** Filling a modifier region leaves every fixed span alone. */
  lemma FillKeepsFixed(ts: seq<Tag>, pkt: seq<Byte>, k: nat, s: seq<Byte>)
    requires InPlace(ts, pkt) && FixedIntact(ts, pkt) && k < |RegionsOf(ts)| && |s| == RegionsOf(ts)[k].len
    requires RegionsOf(ts)[k].at + |s| <= |pkt|
    ensures InPlace(ts, Overlay(pkt, RegionsOf(ts)[k].at, s)) && FixedIntact(ts, Overlay(pkt, RegionsOf(ts)[k].at, s))
  {
    var r := RegionsOf(ts)[k];
    var pkt' := Overlay(pkt, r.at, s);
    RegionsAreSpans(ts, k);
    var i: nat :| RegionIs(ts, r, i);
    SaneIsInPlace(ts, pkt');
    forall j | 0 <= j < |ts| && ts[j].Fixed? ensures Span(ts, pkt', j) == ts[j].bytes {
      if j < i { SpansApart(ts, j, i); } else { SpansApart(ts, i, j); }
      OverlayElsewhere(pkt, r.at, s, Total(ts[..j]), Total(ts[..j]) + Size(ts[j]));
    }
  }

  /** The bytes the compiler puts where a tag goes. */
  function Laid(t: Tag): (s: seq<Byte>)
    requires Size(t) >= 0
    ensures |s| == Size(t)
  {
    if t.Fixed? then t.bytes else Zeros(t.n)
  }

  /** The template right after setup: tags in textual order, modifier regions zero. */
  function Image(ts: seq<Tag>): (s: seq<Byte>)
    requires forall i :: 0 <= i < |ts| ==> Size(ts[i]) >= 0
    ensures |s| == Total(ts)
  {
    if ts == [] then []
    else
      var t := ts[|ts| - 1];
      assert Size(ts[|ts| - 1]) >= 0;
      Image(ts[..|ts| - 1]) + Laid(t)
  }

  lemma {:induction false} ImagePrefix(ts: seq<Tag>, i: nat)
    requires (forall k :: 0 <= k < |ts| ==> Size(ts[k]) >= 0) && i <= |ts|
    ensures Image(ts[..i]) <= Image(ts)
    decreases |ts|
  {
    if i < |ts| {
      var rest := ts[..|ts| - 1];
      ImagePrefix(rest, i);
      assert rest[..i] == ts[..i];
    } else {
      assert ts[..i] == ts;
    }
  }

  lemma MiddleOf(a: seq<Byte>, b: seq<Byte>, whole: seq<Byte>)
    requires a + b <= whole
    ensures whole[|a|..|a| + |b|] == b
  {
    assert whole[..|a + b|] == a + b;
    assert whole[|a|..|a| + |b|] == (a + b)[|a|..];
  }

  lemma ImageNext(ts: seq<Tag>, i: nat)
    requires (forall k :: 0 <= k < |ts| ==> Size(ts[k]) >= 0) && i < |ts|
    ensures Image(ts[..i + 1]) == Image(ts[..i]) + Laid(ts[i])
  {
    assert ts[..i + 1][..i] == ts[..i];
  }

  lemma ImageSlice(ts: seq<Tag>, i: nat)
    requires (forall k :: 0 <= k < |ts| ==> Size(ts[k]) >= 0) && i < |ts|
    ensures Image(ts[..i]) + Laid(ts[i]) <= Image(ts)
  {
    ImagePrefix(ts, i + 1);
    ImageNext(ts, i);
  }

  lemma ImageIntact(ts: seq<Tag>, i: nat)
    requires Sane(ts) && i < |ts| && ts[i].Fixed?
    ensures InPlace(ts, Image(ts)) && Span(ts, Image(ts), i) == ts[i].bytes
  {
    SaneIsInPlace(ts, Image(ts));
    ImageSlice(ts, i);
    MiddleOf(Image(ts[..i]), ts[i].bytes, Image(ts));
  }

  /** Counter and time tags are four bytes long. */
  ghost predicate ClockSizes(ts: seq<Tag>) {
    forall i :: 0 <= i < |ts| && ts[i].Modifier? && (ts[i].kind.Counter? || ts[i].kind.Time?) ==> ts[i].n == 4
  }

  lemma ItemClockSize(item: string)
    ensures ParseTag(item).Some? ==> ClockSizes([ParseTag(item).value])
  {
  }

  lemma ClockSizesMore(t: Tag, ts: seq<Tag>)
    requires ClockSizes([t]) && ClockSizes(ts)
    ensures ClockSizes([t] + ts)
  {
    assert [t][0] == t;
  }

  lemma {:induction false} ParsedClockSizes(str: Option<string>)
    ensures ParseTags(str).Some? ==> ClockSizes(ParseTags(str).value)
    decreases if str.Some? then |str.value| + 1 else 0
  {
    if str.Some? && After(str.value, '<').Some? {
      var inner := After(str.value, '<').value;
      var tag, rest := ParseTag(UpTo(inner, '>')), ParseTags(After(inner, '>'));
      ParsedClockSizes(After(inner, '>'));
      if tag.Some? && rest.Some? {
        ItemClockSize(UpTo(inner, '>'));
        ClockSizesMore(tag.value, rest.value);
      }
    }
  }

  lemma RegionSizes(ts: seq<Tag>, k: nat)
    requires Sane(ts) && ClockSizes(ts) && k < |RegionsOf(ts)|
    ensures RegionsOf(ts)[k].kind.Counter? || RegionsOf(ts)[k].kind.Time? ==> RegionsOf(ts)[k].len == 4
  {
    RegionsAreSpans(ts, k);
  }

  /** `OutOfBounds`: the code would go on, outside the packet. */
  datatype Status = Ok | Invalid | NoMemory | OutOfBounds

  class Spec {
    var desc: Option<string>
    var pkt: array<Byte>
    var mods: seq<Region>

    /** `ts` is what the template was compiled from. */
    ghost predicate Holds(ts: seq<Tag>)
      reads this, pkt
    {
      InPlace(ts, pkt[..]) && FixedIntact(ts, pkt[..]) && mods == RegionsOf(ts)
      && forall k :: 0 <= k < |mods| ==> (mods[k].kind.Counter? || mods[k].kind.Time? ==> mods[k].len == 4)
    }

    constructor (d: Option<string>)
      ensures desc == d && mods == [] && pkt.Length == 0 && fresh(pkt)
    {
      desc, mods := d, [];
      pkt := new Byte[0];
    }

    /** Copy `s` into the packet. */
    method Write(at: nat, s: seq<Byte>)
      requires at + |s| <= pkt.Length
      modifies pkt
      ensures pkt[..] == Overlay(old(pkt[..]), at, s)
    {
      for i := 0 to |s|
        invariant forall j :: 0 <= j < pkt.Length ==>
                    pkt[j] == if at <= j < at + i then s[j - at] else old(pkt[j])
      {
        pkt[at + i] := s[i];
      }
    }

    /** The first pass, over the list in reverse textual order. */
    method Measure(list: seq<Tag>, ghost ts: seq<Tag>) returns (size: int)
      requires Mirrors(list, ts)
      ensures size == Wrap(Total(ts))
    {
      size := 0;
      assert ts[..|ts|] == ts;
      for i := 0 to |list|
        invariant size == Wrap(Total(ts) - Total(ts[..|ts| - i]))
      {
        TotalNext(ts, |ts| - i - 1);
        WrapAdd(Total(ts) - Total(ts[..|ts| - i]), Size(list[i]));
        size := Wrap(size + Size(list[i]));
      }
    }

    /** One tag of the second pass: copy its bytes, or record its region. */
    method PutTag(t: Tag, size: nat, ghost a: seq<Byte>)
      requires |a| == size && 0 <= Size(t) && size + Size(t) <= pkt.Length
      requires pkt[..] == a + Zeros(pkt.Length - size)
      modifies `mods, pkt
      ensures mods == old(mods) + (if t.Modifier? then [Region(t.kind, size, t.n)] else [])
      ensures pkt[..] == a + Laid(t) + Zeros(pkt.Length - size - Size(t))
    {
      if t.Fixed? {
        OverlayEnd(a, pkt.Length - size, t.bytes);
        Write(size, t.bytes);
      } else {
        ZerosEnd(a, pkt.Length - size, t.n);
        mods := mods + [Region(t.kind, size, t.n)];
      }
    }

    /** The second pass, over the list from its end. */
    method Compile(list: seq<Tag>, ghost ts: seq<Tag>) returns (inside: bool)
      requires Mirrors(list, ts) && pkt.Length == Wrap(Total(ts)) <= MESSAGE_MAX_SIZE && mods == []
      requires pkt[..] == Zeros(pkt.Length)
      modifies `mods, pkt
      ensures inside <==> Sane(ts)
      ensures inside ==> pkt[..] == Image(ts) && mods == RegionsOf(ts)
    {
      var size := 0;
      ghost var pre: seq<Tag>, img: seq<Byte> := [], [];
      assert img + Zeros(pkt.Length) == Zeros(pkt.Length);
      for i := 0 to |list|
        invariant pre == ts[..i] && LaidOutTo(ts, pkt.Length, i)
        invariant 0 <= size == |img| <= pkt.Length && Compiled(pre, img, mods, size)
        invariant pkt[..] == img + Zeros(pkt.Length - size)
      {
        var t := list[|list| - 1 - i];
        FitsNext(ts, pkt.Length, i, size);
        if Size(t) < 0 || size + Size(t) > pkt.Length {
          LaidOutIffSane(ts, pkt.Length);
          return false;
        }
        CompiledMore(pre, t, img, mods, size);
        PutTag(t, size, img);
        pre, img, size := pre + [t], img + Laid(t), size + Size(t);
      }
      assert pre == ts;
      AllCompiled(ts, img, mods, size, pkt.Length);
      assert img + Zeros(0) == img;
      return true;
    }

    /** A template that was compiled within bounds is what `Holds` says. */
    lemma CompiledHolds(ts: seq<Tag>)
      requires Sane(ts) && pkt[..] == Image(ts) && mods == RegionsOf(ts) && ClockSizes(ts)
      ensures Holds(ts)
    {
      SaneIsInPlace(ts, Image(ts));
      forall i | 0 <= i < |ts| && ts[i].Fixed? ensures Span(ts, Image(ts), i) == ts[i].bytes { ImageIntact(ts, i); }
      forall k | 0 <= k < |mods| ensures mods[k].kind.Counter? || mods[k].kind.Time? ==> mods[k].len == 4 { RegionSizes(ts, k); }
    }

    /** `jp_spec_setup`. An allocation of a negative size is refused. */
    method Setup(granted: bool) returns (st: Status)
      modifies this
      ensures desc == old(desc) && fresh(pkt)
      ensures desc.None? ==> st == Ok
      ensures desc.Some? ==> st == Verdict(ParseTags(desc), granted)
      ensures desc.Some? && st == Ok ==> pkt[..] == Image(ParseTags(desc).value) && Holds(ParseTags(desc).value)
      ensures st == Invalid || st == NoMemory || desc.None? ==> pkt.Length == 0 && mods == []
    {
      pkt, mods := new Byte[0], [];
      if desc.None? { return Ok; }
      var ok, list := ParseList(desc.value);
      if !ok { return Invalid; }
      ghost var ts := ParseTags(desc).value;
      var size := Measure(list, ts);
      if size > MESSAGE_MAX_SIZE { return Invalid; }
      if size < 0 || !granted { return NoMemory; }
      pkt := new Byte[size](_ => 0);
      assert pkt[..] == Zeros(pkt.Length);
      var inside := Compile(list, ts);
      if !inside { return OutOfBounds; }
      ParsedClockSizes(desc);
      CompiledHolds(ts);
      return Ok;
    }

    /** One modifier call: its region is rewritten, nothing else. */
    method FillRegion(ghost ts: seq<Tag>, env: Env, k: nat)
      requires Holds(ts) && k < |mods|
      modifies pkt
      ensures Holds(ts) && RegionHolds(mods[k], pkt[..], env, k)
      ensures forall j :: 0 <= j < k && RegionHolds(mods[j], old(pkt[..]), env, j) ==> RegionHolds(mods[j], pkt[..], env, j)
    {
      ghost var before := pkt[..];
      RegionsWithin(ts, k);
      var s := Fill(mods[k], env, k);
      FillKeepsFixed(ts, before, k, s);
      Write(mods[k].at, s);
      forall j | 0 <= j < k && RegionHolds(mods[j], before, env, j) ensures RegionHolds(mods[j], pkt[..], env, j) {
        RegionsApart(ts, j, k);
        OverlayElsewhere(before, mods[k].at, s, mods[j].at, mods[j].at + mods[j].len);
      }
    }

    /** `jp_spec_applymods`: fill every region. The fixed bytes stay, whatever was in the
        regions before, so any number of calls leaves them as decoded. */
    method ApplyMods(ghost ts: seq<Tag>, env: Env)
      requires Holds(ts)
      modifies pkt
      ensures Holds(ts)
      ensures forall k :: 0 <= k < |mods| ==> RegionHolds(mods[k], pkt[..], env, k)
    {
      for k := 0 to |mods|
        invariant Holds(ts) && forall j :: 0 <= j < k ==> RegionHolds(mods[j], pkt[..], env, j)
      {
        FillRegion(ts, env, k);
      }
    }
  }

  /** Region number `k` of the packet holds what its modifier wrote. */
  ghost predicate RegionHolds(r: Region, pkt: seq<Byte>, env: Env, k: nat) {
    && (r.kind.Counter? || r.kind.Time? ==> r.len == 4)
    && r.at + r.len <= |pkt| && pkt[r.at..r.at + r.len] == Fill(r, env, k)
    && (r.kind.Counter? ==> FromBe32(pkt[r.at..r.at + 4]) == env.counter % U32)
    && (r.kind.Time? ==> FromBe32(pkt[r.at..r.at + 4]) == env.time % U32)
  }

  /** What becomes of a description: the size check sees the wrapped total, and only sane
      sizes are laid out within the packet. */
  ghost function Verdict(tags: Option<seq<Tag>>, granted: bool): (st: Status) {
    if tags.None? || Wrap(Total(tags.value)) > MESSAGE_MAX_SIZE then Invalid
    else if Wrap(Total(tags.value)) < 0 || !granted then NoMemory
    else if Sane(tags.value) then Ok else OutOfBounds
  }

  /** `list_add` puts every new tag first. */
  ghost predicate Mirrors(list: seq<Tag>, ts: seq<Tag>) {
    |list| == |ts| && forall i :: 0 <= i < |list| ==> list[i] == ts[|ts| - 1 - i]
  }

  /** `img` and `regs` are the bytes and regions of `pre`, `size` their total. */
  ghost predicate Compiled(pre: seq<Tag>, img: seq<Byte>, regs: seq<Region>, size: int) {
    (forall k :: 0 <= k < |pre| ==> Size(pre[k]) >= 0)
    && size == Total(pre) && img == Image(pre) && regs == RegionsOf(pre)
  }

  lemma CompiledMore(pre: seq<Tag>, t: Tag, img: seq<Byte>, regs: seq<Region>, size: nat)
    requires Compiled(pre, img, regs, size) && 0 <= Size(t)
    ensures Compiled(pre + [t], img + Laid(t), regs + (if t.Modifier? then [Region(t.kind, size, t.n)] else []), size + Size(t))
  {
    assert (pre + [t])[..|pre|] == pre;
  }

  lemma AllCompiled(ts: seq<Tag>, img: seq<Byte>, regs: seq<Region>, size: nat, len: int)
    requires Compiled(ts, img, regs, size) && size <= len <= MESSAGE_MAX_SIZE && len == Wrap(Total(ts))
    ensures Sane(ts) && size == len
  {
    WrapSmall(size);
  }

  lemma OverlayEnd(a: seq<Byte>, left: nat, b: seq<Byte>)
    requires |b| <= left
    ensures a + b + Zeros(left - |b|) == Overlay(a + Zeros(left), |a|, b)
  {
  }

  lemma ZerosEnd(a: seq<Byte>, left: nat, n: nat)
    requires n <= left
    ensures a + Zeros(n) + Zeros(left - n) == a + Zeros(left)
  {
  }

  /** All tags, those parsed already and those still to come. */
  function Joined(done: seq<Tag>, rest: Option<seq<Tag>>): (r: Option<seq<Tag>>)
    ensures done == [] ==> r == rest
    ensures rest == Some([]) ==> r == Some(done)
  {
    assert rest.Some? && done == [] ==> done + rest.value == rest.value;
    assert done + [] == done;
    if rest.None? then None else Some(done + rest.value)
  }

  lemma JoinedShift(done: seq<Tag>, t: Tag, rest: Option<seq<Tag>>)
    ensures Joined(done + [t], rest) == Joined(done, Joined([t], rest))
  {
    if rest.Some? { assert done + [t] + rest.value == done + ([t] + rest.value); }
  }

  lemma MirrorsMore(list: seq<Tag>, done: seq<Tag>, t: Tag)
    requires Mirrors(list, done)
    ensures Mirrors([t] + list, done + [t])
  {
  }

  /** One turn of the parser: the next tag, if there is one, and what is left. */
  method NextTag(str: string) returns (end: bool, tag: Option<Tag>, rest: Option<string>)
    ensures end ==> ParseTags(Some(str)) == Some([])
    ensures !end ==> ParseTags(Some(str)) == if tag.None? then None else Joined([tag.value], ParseTags(rest))
    ensures rest.Some? ==> |rest.value| < |str|
  {
    rest := After(str, '<');
    if rest.None? { return true, None, None; }
    var item := UpTo(rest.value, '>');
    rest := After(rest.value, '>');
    end, tag := false, ParseTag(item);
  }

  /** `jp_parse_tags`: one tag per turn, each put at the head of the list. */
  method ParseList(desc: string) returns (ok: bool, list: seq<Tag>)
    ensures ok == ParseTags(Some(desc)).Some?
    ensures ok ==> Mirrors(list, ParseTags(Some(desc)).value)
  {
    var str := Some(desc);
    list := [];
    ghost var done: seq<Tag> := [];
    while str.Some?
      invariant Mirrors(list, done)
      invariant ParseTags(Some(desc)) == Joined(done, ParseTags(str))
      decreases if str.Some? then |str.value| + 1 else 0
    {
      var end, tag, rest := NextTag(str.value);
      if end { return true, list; }
      if tag.None? { return false, []; }
      JoinedShift(done, tag.value, ParseTags(rest));
      MirrorsMore(list, done, tag.value);
      list, done, str := [tag.value] + list, done + [tag.value], rest;
    }
    ok := true;
  }
}
