/** Length-prefixed fields (`writeField` of panel/node/hash.go): the bytes written decide
    the list of fields. */
module FieldCode {
  import opened Decimal

  function Field(v: string): (s: string) {
    Digits(|v|) + ":" + v
  }

  /** All the bytes written for a list of fields. */
  function Join(fs: seq<string>): (s: string) {
    if fs == [] then "" else Field(fs[0]) + Join(fs[1..])
  }

  /** What precedes the first colon of a field is its length. */
  lemma FirstField(v: string, r: string, v': string, r': string)
    requires Field(v) + r == Field(v') + r'
    ensures v == v' && r == r'
  {
    var s := Field(v) + r;
    var d, d' := Digits(|v|), Digits(|v'|);
    assert s[..|d|] == d && s[..|d'|] == d';
    forall i | 0 <= i < |d| ensures s[i] != ':' { assert s[i] == d[i] && IsDigit(d[i]); }
    forall i | 0 <= i < |d'| ensures s[i] != ':' { assert s[i] == d'[i] && IsDigit(d'[i]); }
    assert s[|d|] == ':' && s[|d'|] == ':';
    assert |d| == |d'|;
    ValueOfDigits(|v|);
    ValueOfDigits(|v'|);
    assert v == s[|d| + 1..|d| + 1 + |v|];
    assert r == s[|d| + 1 + |v|..];
  }

  /** Equal bytes come from equal lists of fields. */
  lemma {:induction false} JoinInjective(fs: seq<string>, gs: seq<string>)
    requires Join(fs) == Join(gs)
    ensures fs == gs
  {
    if fs != [] && gs != [] {
      FirstField(fs[0], Join(fs[1..]), gs[0], Join(gs[1..]));
      JoinInjective(fs[1..], gs[1..]);
      assert fs == [fs[0]] + fs[1..] && gs == [gs[0]] + gs[1..];
    }
  }

  lemma {:induction false} JoinConcat(fs: seq<string>, gs: seq<string>)
    ensures Join(fs + gs) == Join(fs) + Join(gs)
  {
    if fs == [] {
      assert fs + gs == gs;
    } else {
      assert (fs + gs)[1..] == fs[1..] + gs;
      JoinConcat(fs[1..], gs);
    }
  }
}
