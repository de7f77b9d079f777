/** The content fingerprint of a node's desired state (panel/node/hash.go): what is fed to
    SHA-256 identifies the configuration, and nothing else does. */
module NodeHash {
  import opened Decimal
  import opened FieldCode
  import Lexical

  /** One inbound, its fields in the order they are written. */
  datatype Inbound = Inbound(
    id: int, tag: string, protocol: string, listen: string, port: int, settings: string,
    stream: string, sniffing: string, enable: bool, limitEnable: bool, limitSeparate: bool,
    limitDown: int, limitUp: int, limitAfter: int, ipLimit: int, ipStrategy: string)

  datatype State = State(
    generation: int, hash: string, inbounds: seq<Inbound>, certs: map<string, string>, apiPort: int)

  function BoolText(b: bool): (s: string) {
    if b then "true" else "false"
  }

  function InboundFields(x: Inbound): (fs: seq<string>)
    ensures |fs| == 16
  {
    [Itoa(x.id), x.tag, x.protocol, x.listen, Itoa(x.port), x.settings, x.stream, x.sniffing,
     BoolText(x.enable), BoolText(x.limitEnable), BoolText(x.limitSeparate),
     Itoa(x.limitDown), Itoa(x.limitUp), Itoa(x.limitAfter), Itoa(x.ipLimit), x.ipStrategy]
  }

  function InboundsFields(xs: seq<Inbound>): (fs: seq<string>)
    ensures |fs| == 16 * |xs|
  {
    if xs == [] then [] else InboundsFields(xs[..|xs| - 1]) + InboundFields(xs[|xs| - 1])
  }

  lemma {:induction false} InboundAt(xs: seq<Inbound>, i: nat)
    requires i < |xs|
    ensures InboundsFields(xs)[16 * i..16 * i + 16] == InboundFields(xs[i])
    decreases |xs|
  {
    if i < |xs| - 1 {
      InboundAt(xs[..|xs| - 1], i);
      assert InboundsFields(xs)[16 * i..16 * i + 16] == InboundsFields(xs[..|xs| - 1])[16 * i..16 * i + 16];
    }
  }

  function CertsFields(names: seq<string>, certs: map<string, string>): (fs: seq<string>)
    requires forall n :: n in names ==> n in certs
    ensures |fs| == 2 * |names|
    ensures forall i :: 0 <= i < |names| ==> fs[2 * i] == names[i] && fs[2 * i + 1] == certs[names[i]]
  {
    if names == [] then []
    else CertsFields(names[..|names| - 1], certs) + [names[|names| - 1], certs[names[|names| - 1]]]
  }

  // ---- orders ---------------------------------------------------------------------

  predicate CharLess(x: char, y: char) {
    x < y
  }

  /** Byte-wise string order. */
  predicate Less(a: string, b: string) {
    Lexical.Precedes(CharLess, a, b)
  }

  lemma LessIsStrict()
    ensures Lexical.StrictOrder(Less)
  {
    assert Lexical.StrictOrder(CharLess);
    forall a, b ensures (Less(a, b) ==> !Less(b, a)) && (a == b || Less(a, b) || Less(b, a)) {
      Lexical.Asymmetric(CharLess, a, b);
      Lexical.Total(CharLess, a, b);
    }
    forall a, b, c | Less(a, b) && Less(b, c) ensures Less(a, c) { Lexical.Transitive(CharLess, a, b, c); }
  }

  ghost predicate Sorted<T>(lt: (T, T) -> bool, xs: seq<T>) {
    forall i, j :: 0 <= i < j < |xs| ==> lt(xs[i], xs[j])
  }

  /** The order of the sort by id, which leaves equal ids in any order. */
  predicate NotAfter(x: Inbound, y: Inbound) {
    x.id <= y.id
  }

  /** Two strictly sorted lists with the same members are the same list. */
  lemma {:induction false} SortedUnique<T>(lt: (T, T) -> bool, xs: seq<T>, ys: seq<T>)
    requires Sorted(lt, xs) && Sorted(lt, ys)
    requires forall x, y {:trigger lt(x, y)} :: x in xs && y in ys && lt(x, y) ==> !lt(y, x)
    requires forall x :: x in xs ==> !lt(x, x)
    requires forall x :: x in xs <==> x in ys
    ensures xs == ys
  {
    if ys != [] { HasMember(ys); }
    if xs != [] {
      SameHead(lt, xs, ys);
      forall x ensures x in xs[1..] <==> x in ys[1..] {
        if x in xs[1..] { TailMember(lt, xs, x); assert x in ys && x != ys[0]; }
        if x in ys[1..] { TailMember(lt, ys, x); assert x in xs && x != xs[0]; }
      }
      SortedUnique(lt, xs[1..], ys[1..]);
      assert xs == [xs[0]] + xs[1..] && ys == [ys[0]] + ys[1..];
    }
  }

  lemma SameHead<T>(lt: (T, T) -> bool, xs: seq<T>, ys: seq<T>)
    requires Sorted(lt, xs) && Sorted(lt, ys) && xs != []
    requires forall x, y {:trigger lt(x, y)} :: x in xs && y in ys && lt(x, y) ==> !lt(y, x)
    requires forall x :: x in xs <==> x in ys
    ensures ys != [] && xs[0] == ys[0]
  {
    assert xs[0] in ys;
    var j :| 0 <= j < |ys| && ys[j] == xs[0];
    assert ys[0] in xs;
    var i :| 0 <= i < |xs| && xs[i] == ys[0];
  }

  lemma HasMember<T>(xs: seq<T>)
    requires xs != []
    ensures exists x :: x in xs
  {
    assert xs[0] in xs;
  }

  lemma TailMember<T>(lt: (T, T) -> bool, xs: seq<T>, x: T)
    requires Sorted(lt, xs) && xs != [] && !lt(xs[0], xs[0]) && x in xs[1..]
    ensures x in xs && x != xs[0]
  {
    var k :| 0 <= k < |xs[1..]| && xs[1..][k] == x;
    assert xs[k + 1] == x;
  }

  // ---- what is fed to the hash ------------------------------------------------------

  function Fields(ins: seq<Inbound>, names: seq<string>, certs: map<string, string>, apiPort: int): (fs: seq<string>)
    requires forall n :: n in names ==> n in certs
    ensures |fs| == 16 * |ins| + 2 * |names| + 1
  {
    InboundsFields(ins) + CertsFields(names, certs) + [Itoa(apiPort)]
  }

  /** The two lists the fields are written from: the inbounds by id, the cert names in order. */
  ghost predicate InOrder(s: State, ins: seq<Inbound>, names: seq<string>) {
    && multiset(ins) == multiset(s.inbounds) && Sorted(NotAfter, ins)
    && Sorted(Less, names) && (forall n :: n in names <==> n in s.certs)
  }

  ghost predicate Fed(s: State, bytes: string) {
    exists ins, names :: InOrder(s, ins, names) && bytes == Join(Fields(ins, names, s.certs, s.apiPort))
  }

  /** Equal up to the order of inbounds, ignoring Generation and Hash. */
  ghost predicate SameContent(s: State, s': State) {
    multiset(s.inbounds) == multiset(s'.inbounds) && s.certs == s'.certs && s.apiPort == s'.apiPort
  }

  // ---- different content, different bytes -------------------------------------------

  lemma InboundInjective(x: Inbound, y: Inbound)
    requires InboundFields(x) == InboundFields(y)
    ensures x == y
  {
    var fx, fy := InboundFields(x), InboundFields(y);
    assert forall j :: 0 <= j < 16 ==> fx[j] == fy[j];
    assert fx[0] == fy[0] && fx[4] == fy[4] && fx[11] == fy[11] && fx[12] == fy[12] && fx[13] == fy[13] && fx[14] == fy[14];
    assert fx[8] == fy[8] && fx[9] == fy[9] && fx[10] == fy[10];
    ItoaInjective(x.id, y.id);
    ItoaInjective(x.port, y.port);
    ItoaInjective(x.limitDown, y.limitDown);
    ItoaInjective(x.limitUp, y.limitUp);
    ItoaInjective(x.limitAfter, y.limitAfter);
    ItoaInjective(x.ipLimit, y.ipLimit);
  }

  /** Decimal text sorts before the text of a boolean. */
  lemma NumberBeforeBool(n: int, b: bool)
    ensures Less(Itoa(n), BoolText(b))
  {
    assert n >= 0 ==> IsDigit(Itoa(n)[0]);
    assert BoolText(b)[0] == 't' || BoolText(b)[0] == 'f';
  }

  lemma FieldOfInbound(ins: seq<Inbound>, names: seq<string>, certs: map<string, string>, port: int, k: nat, j: nat)
    requires (forall n :: n in names ==> n in certs) && k < |ins| && j < 16
    ensures 16 * k + j < 16 * |ins|
    ensures Fields(ins, names, certs, port)[16 * k + j] == InboundFields(ins[k])[j]
  {
    var fs := InboundsFields(ins);
    InboundAt(ins, k);
    assert fs[16 * k + j] == fs[16 * k..16 * k + 16][j];
  }

  lemma FieldOfCert(ins: seq<Inbound>, names: seq<string>, certs: map<string, string>, port: int, i: nat)
    requires (forall n :: n in names ==> n in certs) && i < |names|
    ensures Fields(ins, names, certs, port)[16 * |ins| + 2 * i] == names[i]
  {
    assert CertsFields(names, certs)[2 * i] == names[i];
  }

  /** Sixteen fields of an inbound cannot pass for eight certificates: names five and seven
      of those would be its Enable and SpeedLimitUp texts, which are in the wrong order. */
  lemma NoInboundAmongCerts(ins: seq<Inbound>, names: seq<string>, certs: map<string, string>, port: int,
                            ins': seq<Inbound>, names': seq<string>, certs': map<string, string>, port': int)
    requires forall n :: n in names ==> n in certs
    requires forall n :: n in names' ==> n in certs'
    requires Fields(ins, names, certs, port) == Fields(ins', names', certs', port')
    requires Sorted(Less, names')
    ensures |ins| <= |ins'|
  {
    if |ins| > |ins'| {
      var k := |ins'|;
      assert |Fields(ins, names, certs, port)| == |Fields(ins', names', certs', port')|;
      assert |names'| >= 8;
      FieldOfInbound(ins, names, certs, port, k, 8);
      FieldOfInbound(ins, names, certs, port, k, 12);
      FieldOfCert(ins', names', certs', port', 4);
      FieldOfCert(ins', names', certs', port', 6);
      WrongOrder(ins[k], names');
    }
  }

  lemma WrongOrder(x: Inbound, names: seq<string>)
    requires |names| > 6 && Sorted(Less, names)
    ensures !(names[4] == InboundFields(x)[8] && names[6] == InboundFields(x)[12])
  {
    NumberBeforeBool(x.limitUp, x.enable);
    LessIsStrict();
    assert Less(names[4], names[6]);
  }

  lemma {:induction false} InboundsInjective(xs: seq<Inbound>, ys: seq<Inbound>)
    requires |xs| == |ys| && InboundsFields(xs) == InboundsFields(ys)
    ensures xs == ys
  {
    forall i | 0 <= i < |xs| ensures xs[i] == ys[i] {
      InboundAt(xs, i);
      InboundAt(ys, i);
      InboundInjective(xs[i], ys[i]);
    }
  }

  lemma CertsInjective(names: seq<string>, certs: map<string, string>, names': seq<string>, certs': map<string, string>)
    requires forall n :: n in names <==> n in certs
    requires forall n :: n in names' <==> n in certs'
    requires |names| == |names'| && CertsFields(names, certs) == CertsFields(names', certs')
    ensures names == names' && certs == certs'
  {
    var cs, cs' := CertsFields(names, certs), CertsFields(names', certs');
    forall i | 0 <= i < |names| ensures names[i] == names'[i] && certs[names[i]] == certs'[names[i]] {
      assert cs[2 * i] == names[i] && cs'[2 * i] == names'[i];
      assert cs[2 * i + 1] == certs[names[i]] && cs'[2 * i + 1] == certs'[names'[i]];
    }
    assert names == names';
    forall n | n in certs ensures n in certs' && certs[n] == certs'[n] {
      assert n in names;
    }
  }

  /** Equal fields come from equal inbounds, certificates and settings. */
  lemma FieldsInjective(ins: seq<Inbound>, names: seq<string>, certs: map<string, string>, port: int,
                        ins': seq<Inbound>, names': seq<string>, certs': map<string, string>, port': int)
    requires forall n :: n in names <==> n in certs
    requires forall n :: n in names' <==> n in certs'
    requires Sorted(Less, names) && Sorted(Less, names')
    requires Fields(ins, names, certs, port) == Fields(ins', names', certs', port')
    ensures ins == ins' && certs == certs' && port == port'
  {
    NoInboundAmongCerts(ins, names, certs, port, ins', names', certs', port');
    NoInboundAmongCerts(ins', names', certs', port', ins, names, certs, port);
    var fs, fs' := Fields(ins, names, certs, port), Fields(ins', names', certs', port');
    var n, m := 16 * |ins|, 16 * |ins| + 2 * |names|;
    assert fs[..n] == InboundsFields(ins) && fs'[..n] == InboundsFields(ins');
    assert fs[n..m] == CertsFields(names, certs) && fs'[n..m] == CertsFields(names', certs');
    assert fs[m] == Itoa(port) && fs'[m] == Itoa(port');
    InboundsInjective(ins, ins');
    CertsInjective(names, certs, names', certs');
    ItoaInjective(port, port');
  }

  // ---- when the order is determined ----------------------------------------------------

  /** Inbounds that share an id are the same inbound. */
  ghost predicate NoClash(xs: seq<Inbound>) {
    forall x, y :: x in xs && y in xs && x.id == y.id ==> x == y
  }

  lemma FirstById(xs: seq<Inbound>, x: Inbound)
    requires Sorted(NotAfter, xs) && x in xs
    ensures xs != [] && xs[0].id <= x.id
  {
    var i :| 0 <= i < |xs| && xs[i] == x;
    if i > 0 { assert NotAfter(xs[0], xs[i]); }
  }

  lemma SameFirst(xs: seq<Inbound>, ys: seq<Inbound>)
    requires Sorted(NotAfter, xs) && Sorted(NotAfter, ys) && multiset(xs) == multiset(ys) && NoClash(xs) && xs != []
    ensures ys != [] && xs[0] == ys[0]
  {
    assert xs[0] in multiset(xs);
    assert xs[0] in multiset(ys);
    FirstById(ys, xs[0]);
    assert ys[0] in multiset(ys);
    assert ys[0] in multiset(xs);
    FirstById(xs, ys[0]);
  }

  lemma SameRest<T>(xs: seq<T>, ys: seq<T>)
    requires xs != [] && ys != [] && xs[0] == ys[0] && multiset(xs) == multiset(ys)
    ensures multiset(xs[1..]) == multiset(ys[1..])
  {
    assert xs == [xs[0]] + xs[1..] && ys == [ys[0]] + ys[1..];
    assert multiset(xs[1..]) == multiset(xs) - multiset{xs[0]};
    assert multiset(ys[1..]) == multiset(ys) - multiset{ys[0]};
  }

  lemma RestNoClash(xs: seq<Inbound>)
    requires NoClash(xs) && xs != []
    ensures NoClash(xs[1..])
  {
    assert forall x :: x in xs[1..] ==> x in xs;
  }

  /** Two sorts of the same inbounds agree when no ids clash. */
  lemma {:induction false} OneSort(xs: seq<Inbound>, ys: seq<Inbound>)
    requires Sorted(NotAfter, xs) && Sorted(NotAfter, ys) && multiset(xs) == multiset(ys) && NoClash(xs)
    ensures xs == ys
  {
    assert |multiset(xs)| == |xs| && |multiset(ys)| == |ys|;
    if xs != [] {
      SameFirst(xs, ys);
      SameRest(xs, ys);
      RestNoClash(xs);
      OneSort(xs[1..], ys[1..]);
      assert xs == [xs[0]] + xs[1..] && ys == [ys[0]] + ys[1..];
    }
  }

  /** The same content has only one order to be written in, if no ids clash. */
  lemma OneOrder(s: State, ins: seq<Inbound>, names: seq<string>, s': State, ins': seq<Inbound>, names': seq<string>)
    requires InOrder(s, ins, names) && InOrder(s', ins', names') && SameContent(s, s') && NoClash(s.inbounds)
    ensures ins == ins' && names == names'
  {
    forall x | x in ins ensures x in s.inbounds {
      assert x in multiset(ins);
      assert x in multiset(s.inbounds);
    }
    OneSort(ins, ins');
    LessIsStrict();
    SortedUnique(Less, names, names');
  }

  /** Two desired states feed the same bytes to the hash only when they have the same content,
      and always then if no two different inbounds share an id. In particular the bytes then
      depend on neither slice nor map order. */
  lemma SameBytesIffSameContent(s: State, bytes: string, s': State, bytes': string)
    requires Fed(s, bytes) && Fed(s', bytes')
    ensures bytes == bytes' ==> SameContent(s, s')
    ensures NoClash(s.inbounds) ==> (bytes == bytes' <==> SameContent(s, s'))
  {
    var ins, names :| InOrder(s, ins, names) && bytes == Join(Fields(ins, names, s.certs, s.apiPort));
    var ins', names' :| InOrder(s', ins', names') && bytes' == Join(Fields(ins', names', s'.certs, s'.apiPort));
    if bytes == bytes' {
      JoinInjective(Fields(ins, names, s.certs, s.apiPort), Fields(ins', names', s'.certs, s'.apiPort));
      FieldsInjective(ins, names, s.certs, s.apiPort, ins', names', s'.certs, s'.apiPort);
    }
    if SameContent(s, s') && NoClash(s.inbounds) { OneOrder(s, ins, names, s', ins', names'); }
  }

  /** Where to put `x` so that the list stays sorted. */
  lemma {:induction false} PlaceFor<T(!new)>(lt: (T, T) -> bool, xs: seq<T>, x: T) returns (k: nat)
    requires Sorted(lt, xs) && (forall y :: y in xs ==> lt(x, y) || lt(y, x))
    requires forall a, b, c :: lt(a, b) && lt(b, c) ==> lt(a, c)
    ensures k <= |xs| && (forall i :: 0 <= i < k ==> lt(xs[i], x)) && (forall i :: k <= i < |xs| ==> lt(x, xs[i]))
  {
    if xs == [] || lt(x, xs[0]) {
      k := 0;
    } else {
      var k' := PlaceFor(lt, xs[1..], x);
      k := k' + 1;
      forall i | 1 <= i < k ensures lt(xs[i], x) { assert lt(xs[1..][i - 1], x); }
      forall i | k <= i < |xs| ensures lt(x, xs[i]) { assert lt(x, xs[1..][i - 1]); }
    }
  }

  lemma {:induction false} HasSort(xs: seq<Inbound>) returns (ins: seq<Inbound>)
    ensures Sorted(NotAfter, ins) && multiset(ins) == multiset(xs)
  {
    ins := [];
    if xs != [] {
      var rest := HasSort(xs[1..]);
      var k := PlaceFor(NotAfter, rest, xs[0]);
      SplicedSorted(NotAfter, rest, k, xs[0]);
      assert xs == [xs[0]] + xs[1..];
      ins := rest[..k] + [xs[0]] + rest[k..];
    }
  }

  lemma {:induction false} HasNames(keys: set<string>) returns (names: seq<string>)
    ensures Sorted(Less, names) && forall n :: n in names <==> n in keys
  {
    names := [];
    if keys != {} {
      var n :| n in keys;
      var rest := HasNames(keys - {n});
      LessIsStrict();
      var k := PlaceFor(Less, rest, n);
      SplicedSorted(Less, rest, k, n);
      names := rest[..k] + [n] + rest[k..];
      assert forall m :: m in rest <==> m in rest[..k] || m in rest[k..] by { assert rest == rest[..k] + rest[k..]; }
    }
  }

  /** Two inbounds with the same id can change places in a sort. */
  lemma SwapSorted(xs: seq<Inbound>, i: nat, j: nat)
    requires Sorted(NotAfter, xs) && i < j < |xs| && xs[i].id == xs[j].id
    ensures Sorted(NotAfter, xs[i := xs[j]][j := xs[i]]) && multiset(xs[i := xs[j]][j := xs[i]]) == multiset(xs)
  {
    var ys := xs[i := xs[j]][j := xs[i]];
    forall k, l | 0 <= k < l < |ys| ensures NotAfter(ys[k], ys[l]) {
      assert ys[k].id == xs[k].id && ys[l].id == xs[l].id && NotAfter(xs[k], xs[l]);
    }
  }

  /** Different orders of the inbounds are fed as different bytes. */
  lemma OrdersDiffer(s: State, ins: seq<Inbound>, ins': seq<Inbound>, names: seq<string>)
    requires InOrder(s, ins, names) && InOrder(s, ins', names) && ins != ins'
    ensures Join(Fields(ins, names, s.certs, s.apiPort)) != Join(Fields(ins', names, s.certs, s.apiPort))
  {
    var f, g := Fields(ins, names, s.certs, s.apiPort), Fields(ins', names, s.certs, s.apiPort);
    if Join(f) == Join(g) {
      JoinInjective(f, g);
      FieldsInjective(ins, names, s.certs, s.apiPort, ins', names, s.certs, s.apiPort);
    }
  }

  /** Clashing inbounds can be sorted in two ways. */
  lemma TwoSorts(xs: seq<Inbound>) returns (ins: seq<Inbound>, ins': seq<Inbound>)
    requires !NoClash(xs)
    ensures Sorted(NotAfter, ins) && Sorted(NotAfter, ins') && multiset(ins) == multiset(ins') == multiset(xs)
    ensures ins != ins'
  {
    var x, y :| x in xs && y in xs && x.id == y.id && x != y;
    ins := HasSort(xs);
    assert x in multiset(xs) && y in multiset(xs);
    assert x in multiset(ins) && y in multiset(ins);
    var i: nat :| i < |ins| && ins[i] == x;
    var j: nat :| j < |ins| && ins[j] == y;
    var lo, hi := if i < j then i else j, if i < j then j else i;
    SwapSorted(ins, lo, hi);
    ins' := ins[lo := ins[hi]][hi := ins[lo]];
    assert ins'[lo] != ins[lo];
  }

  lemma ClashIsAmbiguous(s: State) returns (bytes: string, bytes': string)
    requires !NoClash(s.inbounds)
    ensures Fed(s, bytes) && Fed(s, bytes') && bytes != bytes'
  {
    var ins, ins' := TwoSorts(s.inbounds);
    var names := HasNames(s.certs.Keys);
    assert InOrder(s, ins, names) && InOrder(s, ins', names);
    OrdersDiffer(s, ins, ins', names);
    bytes, bytes' := Join(Fields(ins, names, s.certs, s.apiPort)), Join(Fields(ins', names, s.certs, s.apiPort));
  }

  lemma SomeBytes(s: State) returns (bytes: string)
    ensures Fed(s, bytes)
  {
    var ins := HasSort(s.inbounds);
    var names := HasNames(s.certs.Keys);
    assert InOrder(s, ins, names);
    bytes := Join(Fields(ins, names, s.certs, s.apiPort));
  }

  /** A state feeds some bytes to the hash, and always the same if and only if no two different
      inbounds share an id. */
  lemma OneFingerprintIff(s: State)
    ensures exists bytes :: Fed(s, bytes)
    ensures (forall b, b' :: Fed(s, b) && Fed(s, b') ==> b == b') <==> NoClash(s.inbounds)
  {
    var some := SomeBytes(s);
    if NoClash(s.inbounds) {
      forall b, b' | Fed(s, b) && Fed(s, b') ensures b == b' { SameBytesIffSameContent(s, b, s, b'); }
    } else {
      var b, b' := ClashIsAmbiguous(s);
    }
  }

  // ---- the function itself -----------------------------------------------------------

  lemma SplicedSorted<T>(lt: (T, T) -> bool, xs: seq<T>, k: nat, x: T)
    requires Sorted(lt, xs) && k <= |xs|
    requires forall i :: 0 <= i < k ==> lt(xs[i], x)
    requires forall i :: k <= i < |xs| ==> lt(x, xs[i])
    ensures Sorted(lt, xs[..k] + [x] + xs[k..])
    ensures multiset(xs[..k] + [x] + xs[k..]) == multiset(xs) + multiset{x}
  {
    var ys := xs[..k] + [x] + xs[k..];
    assert xs == xs[..k] + xs[k..];
    forall i, j | 0 <= i < j < |ys| ensures lt(ys[i], ys[j]) {
      assert ys[i] == if i < k then xs[i] else if i == k then x else xs[i - 1];
      assert ys[j] == if j < k then xs[j] else if j == k then x else xs[j - 1];
    }
  }

  method InsertById(xs: seq<Inbound>, x: Inbound) returns (ys: seq<Inbound>)
    requires Sorted(NotAfter, xs)
    ensures Sorted(NotAfter, ys) && multiset(ys) == multiset(xs) + multiset{x}
  {
    var k := |xs|;
    while k > 0 && xs[k - 1].id > x.id
      invariant 0 <= k <= |xs| && forall i :: k <= i < |xs| ==> xs[i].id > x.id
    {
      k := k - 1;
    }
    forall i | 0 <= i < k ensures NotAfter(xs[i], x) {
      assert i < k - 1 ==> NotAfter(xs[i], xs[k - 1]);
    }
    SplicedSorted(NotAfter, xs, k, x);
    ys := xs[..k] + [x] + xs[k..];
  }

  method InsertName(xs: seq<string>, x: string) returns (ys: seq<string>)
    requires Sorted(Less, xs) && x !in xs
    ensures Sorted(Less, ys) && multiset(ys) == multiset(xs) + multiset{x}
  {
    var k := |xs|;
    while k > 0 && Less(x, xs[k - 1])
      invariant 0 <= k <= |xs| && forall i :: k <= i < |xs| ==> Less(x, xs[i])
    {
      k := k - 1;
    }
    LessIsStrict();
    forall i | 0 <= i < k ensures Less(xs[i], x) {
      assert xs[k - 1] in xs && (i < k - 1 ==> Less(xs[i], xs[k - 1]));
    }
    SplicedSorted(Less, xs, k, x);
    ys := xs[..k] + [x] + xs[k..];
  }

  method SortInbounds(xs: seq<Inbound>) returns (ins: seq<Inbound>)
    ensures Sorted(NotAfter, ins) && multiset(ins) == multiset(xs)
  {
    ins := [];
    for i := 0 to |xs|
      invariant Sorted(NotAfter, ins) && multiset(ins) == multiset(xs[..i])
    {
      ins := InsertById(ins, xs[i]);
      assert xs[..i + 1] == xs[..i] + [xs[i]];
    }
    assert xs[..|xs|] == xs;
  }

  method SortNames(keys: set<string>) returns (names: seq<string>)
    ensures Sorted(Less, names) && forall n :: n in names <==> n in keys
  {
    names := [];
    var rest := keys;
    while rest != {}
      invariant rest <= keys && Sorted(Less, names)
      invariant forall n :: n in names <==> n in keys && n !in rest
      decreases rest
    {
      var name :| name in rest;
      rest := rest - {name};
      var more := InsertName(names, name);
      forall n ensures n in more <==> n in names || n == name {
        assert n in more <==> n in multiset(more);
        assert n in names <==> n in multiset(names);
      }
      names := more;
    }
  }

  method WriteInbounds(ins: seq<Inbound>) returns (w: string)
    ensures w == Join(InboundsFields(ins))
  {
    w := "";
    for i := 0 to |ins|
      invariant w == Join(InboundsFields(ins[..i]))
    {
      assert ins[..i + 1][..i] == ins[..i];
      JoinConcat(InboundsFields(ins[..i]), InboundFields(ins[i]));
      w := w + Join(InboundFields(ins[i]));
    }
    assert ins[..|ins|] == ins;
  }

  method WriteCerts(names: seq<string>, certs: map<string, string>) returns (w: string)
    requires forall n :: n in names ==> n in certs
    ensures w == Join(CertsFields(names, certs))
  {
    w := "";
    for i := 0 to |names|
      invariant w == Join(CertsFields(names[..i], certs))
    {
      assert names[..i + 1][..i] == names[..i];
      var pair := [names[i], certs[names[i]]];
      JoinConcat(CertsFields(names[..i], certs), pair);
      w := w + Join(pair);
    }
    assert names[..|names|] == names;
  }

  method WriteState(s: State, ins: seq<Inbound>, names: seq<string>) returns (w: string)
    requires forall n :: n in names ==> n in s.certs
    ensures w == Join(Fields(ins, names, s.certs, s.apiPort))
  {
    w := WriteInbounds(ins);
    var c := WriteCerts(names, s.certs);
    w := w + c + Field(Itoa(s.apiPort));
    JoinConcat(InboundsFields(ins), CertsFields(names, s.certs));
    JoinConcat(InboundsFields(ins) + CertsFields(names, s.certs), [Itoa(s.apiPort)]);
    assert Join([Itoa(s.apiPort)]) == Field(Itoa(s.apiPort));
  }

  method HashState(s: State, sha256: string -> string) returns (h: string)
    ensures exists bytes :: Fed(s, bytes) && h == sha256(bytes)
  {
    var ins := SortInbounds(s.inbounds);
    var names := SortNames(s.certs.Keys);
    var w := WriteState(s, ins, names);
    assert InOrder(s, ins, names);
    assert Fed(s, w);
    h := sha256(w);
  }
}
