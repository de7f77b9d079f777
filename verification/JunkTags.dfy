/** The tag language of signature packets (`jp_parse_tags` and the tag parsers of
    panel/awgsrc/src/junk.c): fixed bytes and modifiers in angle brackets. */
module JunkTags {
  import opened Options
  import opened Bytes
  import opened Decimal
  import opened KernelText

  datatype Kind = Counter | Time | RandomBytes | RandomChars | RandomDigits

  /** A tag: the bytes it fixes, or the region a modifier rewrites. The size of a random
      region is whatever kstrtoint accepts, negative numbers included. */
  datatype Tag = Fixed(bytes: seq<Byte>) | Modifier(kind: Kind, n: int)

  function Size(t: Tag): (n: int) {
    if t.Fixed? then |t.bytes| else t.n
  }

  // ---- hexadecimal ---------------------------------------------------------------------

  function HexValue(c: char): (v: Option<nat>)
    ensures v.Some? ==> v.value < 16
  {
    if '0' <= c <= '9' then Some(c as int - '0' as int)
    else if 'a' <= c <= 'f' then Some(c as int - 'a' as int + 10)
    else if 'A' <= c <= 'F' then Some(c as int - 'A' as int + 10)
    else None
  }

  /** kstrtou8 in base 16 on two characters: two digits, or one with a plus sign before it
      or a newline after it. */
  function HexPair(a: char, b: char): (v: Option<Byte>) {
    var x, y := HexValue(a), HexValue(b);
    if x.Some? && y.Some? then Some((x.value * 16 + y.value) as Byte)
    else if a == '+' && y.Some? then Some(y.value as Byte)
    else if x.Some? && b == '\n' then Some(x.value as Byte)
    else None
  }

  /** The bytes of a hexadecimal string of even length. */
  function HexBytes(s: string): (r: Option<seq<Byte>>)
    requires |s| % 2 == 0
    ensures r.Some? ==> |r.value| == |s| / 2
  {
    if s == [] then Some([])
    else
      var rest := HexBytes(s[..|s| - 2]);
      var last := HexPair(s[|s| - 2], s[|s| - 1]);
      if rest.Some? && last.Some? then Some(rest.value + [last.value]) else None
  }

  function Lower(c: char): (l: char) {
    if 'A' <= c <= 'Z' then (c as int + 32) as char else c
  }

  function Lowered(s: string): (l: string)
    ensures |l| == |s| && forall i :: 0 <= i < |s| ==> l[i] == Lower(s[i])
  {
    seq(|s|, i requires 0 <= i < |s| => Lower(s[i]))
  }

  lemma DigitsInAnyCase(c: char)
    ensures HexValue(Lower(c)) == HexValue(c)
    ensures Lower(c) == '+' <==> c == '+'
    ensures Lower(c) == '\n' <==> c == '\n'
  {
  }

  lemma PairInAnyCase(a: char, b: char)
    ensures HexPair(Lower(a), Lower(b)) == HexPair(a, b)
  {
    DigitsInAnyCase(a);
    DigitsInAnyCase(b);
  }

  /** Letters count alike in either case. */
  lemma {:induction false} HexInAnyCase(s: string)
    requires |s| % 2 == 0
    ensures HexBytes(Lowered(s)) == HexBytes(s)
    decreases |s|
  {
    if s != [] {
      var n := |s| - 2;
      assert Lowered(s)[..n] == Lowered(s[..n]);
      HexInAnyCase(s[..n]);
      PairInAnyCase(s[n], s[n + 1]);
    }
  }

  /** The value of hexadecimal digits. */
  function HexNumber(s: string): (v: Option<nat>) {
    if s == "" then Some(0)
    else
      var rest, last := HexNumber(s[..|s| - 1]), HexValue(s[|s| - 1]);
      if rest.Some? && last.Some? then Some(rest.value * 16 + last.value) else None
  }

  /** kstrtou8 in base 16 on any text: an optional plus sign, digits, an optional newline, and a
      value below 256. */
  function Kstrtou8(s: string): (v: Option<nat>) {
    var t := if s != "" && s[0] == '+' then s[1..] else s;
    var u := if t != "" && t[|t| - 1] == '\n' then t[..|t| - 1] else t;
    if u == "" || HexNumber(u).None? || HexNumber(u).value >= 256 then None else HexNumber(u)
  }

  lemma HexNumberOfOne(a: char)
    ensures HexNumber([a]) == HexValue(a)
  {
    assert [a][..0] == "";
  }

  lemma HexNumberOfTwo(a: char, b: char)
    ensures HexNumber([a, b]) ==
            if HexValue(a).Some? && HexValue(b).Some? then Some(HexValue(a).value * 16 + HexValue(b).value) else None
  {
    assert [a, b][..1] == [a];
    HexNumberOfOne(a);
  }

  /** Pairs are read as kstrtou8 reads them. */
  lemma HexPairIsKstrtou8(a: char, b: char)
    ensures HexPair(a, b).Some? <==> Kstrtou8([a, b]).Some?
    ensures HexPair(a, b).Some? ==> HexPair(a, b).value as nat == Kstrtou8([a, b]).value
  {
    HexNumberOfOne(a);
    HexNumberOfOne(b);
    HexNumberOfTwo(a, b);
    assert [a, b][1..] == [b] && [a, b][..1] == [a] && [b][..0] == "";
  }

  function ParseFixed(val: Option<string>): (t: Option<Tag>) {
    if val.None? || |val.value| < 2 || val.value[..2] != "0x" then None
    else
      var hex := val.value[2..];
      if |hex| == 0 || |hex| % 2 != 0 || HexBytes(hex).None? then None
      else Some(Fixed(HexBytes(hex).value))
  }

  function ParseRandom(kind: Kind, val: Option<string>): (t: Option<Tag>) {
    if val.None? || ParseInt(val.value).None? then None else Some(Modifier(kind, ParseInt(val.value).value))
  }

  /** One tag: its key up to the first blank, its value after it. */
  function ParseTag(item: string): (t: Option<Tag>) {
    var key, val := UpTo(item, ' '), After(item, ' ');
    if key == "b" then ParseFixed(val)
    else if key == "c" then (if val.Some? then None else Some(Modifier(Counter, 4)))
    else if key == "t" then (if val.Some? then None else Some(Modifier(Time, 4)))
    else if key == "r" then ParseRandom(RandomBytes, val)
    else if key == "rc" then ParseRandom(RandomChars, val)
    else if key == "rd" then ParseRandom(RandomDigits, val)
    else None
  }

  /** All tags in textual order; text outside angle brackets is skipped, and the first bad
      tag refuses the description. */
  function ParseTags(str: Option<string>): (r: Option<seq<Tag>>)
    decreases if str.Some? then |str.value| + 1 else 0
  {
    if str.None? || After(str.value, '<').None? then Some([])
    else
      var inner := After(str.value, '<').value;
      var tag := ParseTag(UpTo(inner, '>'));
      if tag.None? then None
      else
        var rest := ParseTags(After(inner, '>'));
        if rest.None? then None else Some([tag.value] + rest.value)
  }

  // ---- printing ------------------------------------------------------------------------

  function HexDigit(n: nat): (c: char)
    requires n < 16
    ensures HexValue(c) == Some(n) && c != '>' && c != ' '
  {
    if n < 10 then ('0' as int + n) as char else ('a' as int + n - 10) as char
  }

  function ShowHex(bs: seq<Byte>): (s: string)
    ensures |s| == 2 * |bs| && '>' !in s && ' ' !in s
  {
    if bs == [] then []
    else
      var b := bs[|bs| - 1] as nat;
      ShowHex(bs[..|bs| - 1]) + [HexDigit(b / 16), HexDigit(b % 16)]
  }

  lemma HexPairOf(b: Byte)
    ensures HexPair(HexDigit(b as nat / 16), HexDigit(b as nat % 16)) == Some(b)
  {
  }

  lemma HexBytesMore(s: string, x: char, y: char)
    requires |s| % 2 == 0 && HexBytes(s).Some? && HexPair(x, y).Some?
    ensures HexBytes(s + [x, y]) == Some(HexBytes(s).value + [HexPair(x, y).value])
  {
    var t := s + [x, y];
    assert t[..|t| - 2] == s && t[|t| - 2] == x && t[|t| - 1] == y;
  }

  /** Two more digits read as one more byte. */
  lemma HexMore(s: string, b: Byte)
    requires |s| % 2 == 0 && HexBytes(s).Some?
    ensures var d := [HexDigit(b as nat / 16), HexDigit(b as nat % 16)];
            HexBytes(s + d) == Some(HexBytes(s).value + [b])
  {
    HexPairOf(b);
    HexBytesMore(s, HexDigit(b as nat / 16), HexDigit(b as nat % 16));
  }

  lemma ShowHexMore(rest: seq<Byte>, b: Byte)
    ensures ShowHex(rest + [b]) == ShowHex(rest) + [HexDigit(b as nat / 16), HexDigit(b as nat % 16)]
  {
    assert (rest + [b])[..|rest|] == rest;
  }

  lemma {:induction false} HexRoundTrip(bs: seq<Byte>)
    ensures HexBytes(ShowHex(bs)) == Some(bs)
  {
    if bs != [] {
      var rest, b := bs[..|bs| - 1], bs[|bs| - 1];
      HexRoundTrip(rest);
      HexMore(ShowHex(rest), b);
      ShowHexMore(rest, b);
      assert bs == rest + [b];
    }
  }

  function KindKey(k: Kind): (s: string) {
    match k
    case Counter => "c" case Time => "t" case RandomBytes => "r" case RandomChars => "rc" case RandomDigits => "rd"
  }

  /** Tags the language can express. */
  ghost predicate Expressible(t: Tag) {
    match t
    case Fixed(bytes) => bytes != []
    case Modifier(k, n) => if k.Counter? || k.Time? then n == 4 else -0x8000_0000 <= n <= 0x7FFF_FFFF
  }

  function ShowItem(t: Tag): (s: string) {
    match t
    case Fixed(bytes) => "b" + " " + ("0x" + ShowHex(bytes))
    case Modifier(k, n) => if k.Counter? || k.Time? then KindKey(k) else KindKey(k) + " " + Itoa(n)
  }

  function Show(ts: seq<Tag>): (s: string) {
    if ts == [] then "" else "<" + ShowItem(ts[0]) + ">" + Show(ts[1..])
  }

  lemma ItoaIsPlain(n: int)
    ensures '>' !in Itoa(n) && ' ' !in Itoa(n)
  {
    var d := Digits(if n < 0 then -n else n);
    forall i | 0 <= i < |d| ensures d[i] != '>' && d[i] != ' ' { assert IsDigit(d[i]); }
  }

  lemma ParseShownHex(hex: string, bytes: seq<Byte>)
    requires |hex| == 2 * |bytes| > 0 && HexBytes(hex) == Some(bytes)
    ensures ParseFixed(Some("0x" + hex)) == Some(Fixed(bytes))
  {
    var val := "0x" + hex;
    assert val[..2] == "0x" && val[2..] == hex;
  }

  lemma ParseB(val: string)
    ensures ParseTag("b" + " " + val) == ParseFixed(Some(val))
  {
    SplitJoined("b", ' ', val);
  }

  lemma FixedRoundTrip(bytes: seq<Byte>)
    requires bytes != []
    ensures '>' !in ShowItem(Fixed(bytes)) && ParseTag(ShowItem(Fixed(bytes))) == Some(Fixed(bytes))
  {
    var hex := ShowHex(bytes);
    HexRoundTrip(bytes);
    ParseShownHex(hex, bytes);
    ParseB("0x" + hex);
  }

  lemma PlainRoundTrip(k: Kind)
    requires k.Counter? || k.Time?
    ensures '>' !in ShowItem(Modifier(k, 4)) && ParseTag(ShowItem(Modifier(k, 4))) == Some(Modifier(k, 4))
  {
    SplitAbsent(KindKey(k), ' ');
  }

  lemma ParseKeyed(k: Kind, val: string)
    requires !k.Counter? && !k.Time?
    ensures ParseTag(KindKey(k) + " " + val) == ParseRandom(k, Some(val))
  {
    SplitJoined(KindKey(k), ' ', val);
  }

  lemma RandomRoundTrip(k: Kind, n: int)
    requires !k.Counter? && !k.Time? && -0x8000_0000 <= n <= 0x7FFF_FFFF
    ensures '>' !in ShowItem(Modifier(k, n)) && ParseTag(ShowItem(Modifier(k, n))) == Some(Modifier(k, n))
  {
    ParseKeyed(k, Itoa(n));
    ParsePrinted(n);
    ItoaIsPlain(n);
  }

  lemma ItemRoundTrip(t: Tag)
    requires Expressible(t)
    ensures '>' !in ShowItem(t) && ParseTag(ShowItem(t)) == Some(t)
  {
    match t
    case Fixed(bytes) => FixedRoundTrip(bytes);
    case Modifier(k, n) => if k.Counter? || k.Time? { PlainRoundTrip(k); } else { RandomRoundTrip(k, n); }
  }

  lemma ParseFirst(item: string, rest: string)
    requires '>' !in item && ParseTag(item).Some? && ParseTags(Some(rest)).Some?
    ensures ParseTags(Some("<" + item + ">" + rest)) == Some([ParseTag(item).value] + ParseTags(Some(rest)).value)
  {
    var inner := item + ['>'] + rest;
    var s := "<" + item + ">" + rest;
    assert s == [] + ['<'] + inner;
    SplitJoined([], '<', inner);
    SplitJoined(item, '>', rest);
  }

  /** Every list of expressible tags has a description, and it parses to that list: same
      tags, same order, same bytes and sizes. */
  lemma {:induction false} TagsRoundTrip(ts: seq<Tag>)
    requires forall t :: t in ts ==> Expressible(t)
    ensures ParseTags(Some(Show(ts))) == Some(ts)
  {
    if ts != [] {
      ItemRoundTrip(ts[0]);
      TagsRoundTrip(ts[1..]);
      ParseFirst(ShowItem(ts[0]), Show(ts[1..]));
      assert ts == [ts[0]] + ts[1..];
    }
  }
}
