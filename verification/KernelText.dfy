/** The string helpers the kernel code leans on: strsep and the kstrto* number parsers
    (optional sign, decimal digits, one optional final newline). */
module KernelText {
  import opened Options
  import opened Decimal

  /** The token strsep returns: everything before the first `c`, or all of it. */
  function UpTo(s: string, c: char): (r: string)
    ensures c !in r && r <= s
  {
    if s == [] || s[0] == c then [] else [s[0]] + UpTo(s[1..], c)
  }

  /** Where strsep leaves its pointer: after the first `c`, or NULL. */
  function After(s: string, c: char): (r: Option<string>)
    ensures r.Some? ==> |r.value| < |s|
    ensures r.Some? <==> c in s
  {
    if s == [] then None
    else
      assert s == [s[0]] + s[1..];
      if s[0] == c then Some(s[1..]) else After(s[1..], c)
  }

  /** A token and a rest put together with the delimiter split back into the two. */
  lemma {:induction false} SplitJoined(t: string, c: char, r: string)
    requires c !in t
    ensures UpTo(t + [c] + r, c) == t && After(t + [c] + r, c) == Some(r)
  {
    var s := t + [c] + r;
    if t == [] {
      assert s[1..] == r;
    } else {
      assert s[0] == t[0] && s[1..] == t[1..] + [c] + r;
      SplitJoined(t[1..], c, r);
    }
  }

  lemma {:induction false} SplitAbsent(t: string, c: char)
    requires c !in t
    ensures UpTo(t, c) == t && After(t, c) == None
  {
    if t != [] { SplitAbsent(t[1..], c); }
  }

  predicate AllDigits(s: string) {
    s != [] && forall i :: 0 <= i < |s| ==> IsDigit(s[i])
  }

  function Chomp(s: string): (r: string) {
    if s != [] && s[|s| - 1] == '\n' then s[..|s| - 1] else s
  }

  /** kstrtouint in base 10. */
  function ParseUint(s: string): (n: Option<nat>) {
    var t := Chomp(s);
    var d := if t != [] && t[0] == '+' then t[1..] else t;
    if AllDigits(d) && Value(d) <= 0xFFFF_FFFF then Some(Value(d)) else None
  }

  /** kstrtoint in base 10. */
  function ParseInt(s: string): (n: Option<int>) {
    var t := Chomp(s);
    if t != [] && t[0] == '-' then
      if !AllDigits(t[1..]) then None
      else
        var v: int := Value(t[1..]);
        if v <= 0x8000_0000 then Some(-v) else None
    else
      var d := if t != [] && t[0] == '+' then t[1..] else t;
      if AllDigits(d) && Value(d) <= 0x7FFF_FFFF then Some(Value(d)) else None
  }

  lemma NoChomp(s: string)
    requires AllDigits(s)
    ensures Chomp(s) == s && Chomp("-" + s) == "-" + s && s[0] != '+' && s[0] != '-'
  {
    assert IsDigit(s[|s| - 1]) && IsDigit(s[0]);
    assert ("-" + s)[|s|] == s[|s| - 1];
  }

  /** Printed numbers read back. */
  lemma ParsePrinted(n: int)
    requires -0x8000_0000 <= n <= 0x7FFF_FFFF
    ensures ParseInt(Itoa(n)) == Some(n)
  {
    if n < 0 {
      NoChomp(Digits(-n));
      ValueOfDigits(-n);
      assert Itoa(n)[1..] == Digits(-n);
    } else {
      NoChomp(Digits(n));
      ValueOfDigits(n);
    }
  }

  lemma ParsePrintedUint(n: nat)
    requires n <= 0xFFFF_FFFF
    ensures ParseUint(Digits(n)) == Some(n)
  {
    NoChomp(Digits(n));
    ValueOfDigits(n);
  }
}
