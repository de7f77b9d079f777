/** The message-type ranges of a tunnel device (magic_header.c), how netlink requests set them
    and the check that is made after every request. */
module MagicHeader {
  import opened Options
  import opened Bytes
  import opened Decimal
  import opened KernelText

  type Word = x: nat | x < 0x1_0000_0000

  datatype Header = Header(start: Word, end: Word)

  predicate Ordered(h: Header) {
    h.start <= h.end
  }

  /** `mh_validate`. */
  predicate Validates(v: Word, h: Header) {
    h.start <= v <= h.end
  }

  /** `mh_genheader` for one draw of get_random_u32; None is the remainder by zero. */
  function Generate(h: Header, draw: Word): (v: Option<Word>) {
    var width := (h.end - h.start + 1) % U32;
    if width == 0 then None else Some((h.start + draw % width) % U32)
  }

  /** A generated header lies in its own range if and only if the range is the right way round
      (and not the whole of the 32-bit numbers, where the width is no 32-bit number). */
  lemma GeneratedInRange(h: Header, draw: Word)
    ensures Ordered(h) && h.end - h.start + 1 < U32 <==>
            Generate(h, draw).Some? && Validates(Generate(h, draw).value, h)
  {
    var width := h.end - h.start + 1;
    if Ordered(h) && width < U32 {
      assert width % U32 == width;
      assert h.start + draw % width < U32;
    } else if Ordered(h) {
      assert width == U32;
    }
  }

  /** `mh_parse` on the text (None: it could not be copied): the fields it leaves and its
      verdict. The fields are written as they are read, also when a later step fails. */
  function Parse(h: Header, desc: Option<string>): (r: (Header, bool))
    ensures r.1 ==> Ordered(r.0)
  {
    if desc.None? then (h, false)
    else
      var start := ParseUint(UpTo(desc.value, '-'));
      var rest := After(desc.value, '-');
      if start.None? then (h, false)
      else if rest.None? then (Header(start.value, start.value), true)
      else
        var end := ParseUint(rest.value);
        if end.None? then (Header(start.value, h.end), false)
        else (Header(start.value, end.value), start.value <= end.value)
  }

  /** `mh_genspec` without the limit of the buffer. */
  function Spec(h: Header): (s: string) {
    if h.start == h.end then Digits(h.start) else Digits(h.start) + "-" + Digits(h.end)
  }

  lemma {:induction false} DigitsAreShort(n: nat, k: nat, bound: nat)
    requires n < bound && k > 0 && bound == Power10(k)
    ensures |Digits(n)| <= k
    decreases k
  {
    if n >= 10 && k > 1 { DigitsAreShort(n / 10, k - 1, Power10(k - 1)); }
  }

  function Power10(k: nat): nat {
    if k == 0 then 1 else 10 * Power10(k - 1)
  }

  /** The text and its final zero byte fit the 32-byte buffer of the dump. */
  lemma SpecFits(h: Header)
    ensures |Spec(h)| < 32
  {
    assert Power10(5) == 100_000;
    assert Power10(7) == 10_000_000;
    assert Power10(9) == 1_000_000_000;
    assert Power10(10) == 10_000_000_000;
    DigitsAreShort(h.start, 10, Power10(10));
    DigitsAreShort(h.end, 10, Power10(10));
  }

  /** What a device reports is read back as the same range, whatever the reader had before, if
      and only if the range is the right way round. */
  lemma SpecRoundTrip(h: Header, was: Header)
    ensures Parse(was, Some(Spec(h))) == (h, Ordered(h))
  {
    ParsePrintedUint(h.start);
    ParsePrintedUint(h.end);
    DigitsHaveNoDash(h.start);
    if h.start == h.end {
      SplitAbsent(Digits(h.start), '-');
    } else {
      SplitJoined(Digits(h.start), '-', Digits(h.end));
    }
  }

  lemma DigitsHaveNoDash(n: nat)
    ensures '-' !in Digits(n)
  {
    forall i | 0 <= i < |Digits(n)| ensures Digits(n)[i] != '-' { assert IsDigit(Digits(n)[i]); }
  }

  // ---- The device and its requests ----

  datatype State = State(headers: seq<Header>, advanced: bool)

  const DEFAULTS: seq<Header> := [Header(1, 1), Header(2, 2), Header(3, 3), Header(4, 4)]

  /** An attribute H1..H4: missing, or a text, or a text that could not be copied. */
  datatype Attr = Absent | Text(desc: Option<string>)

  /** `early`: refused before any parameter is set. `other`: carries another parameter of the
      extended protocol. `rest`: the checks that do not look at the headers succeed. */
  datatype Request = Request(early: bool, other: bool, attrs: seq<Attr>, rest: bool)

  predicate Shaped(req: Request) {
    |req.attrs| == 4
  }

  /** No two ranges meet, as the check after a request has it. */
  predicate Clear(hs: seq<Header>) {
    forall i, j :: 0 <= i < j < |hs| ==> hs[j].end < hs[i].start || hs[i].end < hs[j].start
  }

  /** No number is the type of two messages. */
  ghost predicate Unambiguous(hs: seq<Header>) {
    forall v: Word, i, j :: 0 <= i < j < |hs| && Validates(v, hs[i]) ==> !Validates(v, hs[j])
  }

  predicate AllOrdered(hs: seq<Header>) {
    forall i :: 0 <= i < |hs| ==> Ordered(hs[i])
  }

  /** For ranges the right way round the check refuses exactly the ambiguous ones. */
  lemma ClearIffUnambiguous(hs: seq<Header>)
    ensures Clear(hs) ==> Unambiguous(hs)
    ensures AllOrdered(hs) && Unambiguous(hs) ==> Clear(hs)
  {
    if AllOrdered(hs) && Unambiguous(hs) {
      forall i, j | 0 <= i < j < |hs|
        ensures hs[j].end < hs[i].start || hs[i].end < hs[j].start
      {
        assert Ordered(hs[i]) && Ordered(hs[j]);
        var v: Word := if hs[i].start <= hs[j].start then hs[j].start else hs[i].start;
        assert !(Validates(v, hs[i]) && Validates(v, hs[j]));
      }
    }
  }

  function SetHeaders(st: State, attrs: seq<Attr>, k: nat): (r: (State, bool))
    requires |st.headers| == 4 && |attrs| == 4 && k <= 4
    ensures |r.0.headers| == 4
    decreases 4 - k
  {
    if k == 4 then (st, true)
    else if attrs[k].Absent? then SetHeaders(st, attrs, k + 1)
    else
      var (h, ok) := Parse(st.headers[k], attrs[k].desc);
      var st' := State(st.headers[k := h], true);
      if ok then SetHeaders(st', attrs, k + 1) else (st', false)
  }

  /** One request: the state it leaves and whether its final check was reached and succeeded. */
  function Configured(st: State, req: Request): (r: (State, bool))
    requires |st.headers| == 4 && Shaped(req)
    ensures |r.0.headers| == 4
  {
    if req.early then (st, false)
    else
      var (st', ok) := SetHeaders(st.(advanced := st.advanced || req.other), req.attrs, 0);
      (st', ok && (st'.advanced ==> req.rest && Clear(st'.headers)))
  }

  predicate AnyPresent(attrs: seq<Attr>, k: nat)
    requires k <= |attrs|
  {
    exists i :: k <= i < |attrs| && !attrs[i].Absent?
  }

  lemma {:induction false} SetHeadersAdvances(st: State, attrs: seq<Attr>, k: nat)
    requires |st.headers| == 4 && |attrs| == 4 && k <= 4
    ensures SetHeaders(st, attrs, k).0.advanced <==> st.advanced || AnyPresent(attrs, k)
    decreases 4 - k
  {
    if k < 4 {
      if attrs[k].Absent? {
        SetHeadersAdvances(st, attrs, k + 1);
      } else {
        var (h, ok) := Parse(st.headers[k], attrs[k].desc);
        SetHeadersAdvances(State(st.headers[k := h], true), attrs, k + 1);
      }
    }
  }

  /** The request sets a parameter of the extended protocol. */
  predicate Extends(req: Request) {
    !req.early && (req.other || AnyPresent(req.attrs, 0))
  }

  lemma ConfiguredAdvances(st: State, req: Request)
    requires |st.headers| == 4 && Shaped(req)
    ensures var (st', ok) := Configured(st, req);
            (st'.advanced <==> st.advanced || Extends(req)) && (ok && st'.advanced ==> req.rest && Clear(st'.headers))
  {
    SetHeadersAdvances(st.(advanced := st.advanced || req.other), req.attrs, 0);
  }

  /** In every run the extended protocol is on if and only if some request has set a parameter
      of it, and from then on no request is accepted whose checks fail or whose ranges meet. */
  lemma {:induction false} ExtendedIff(reqs: seq<Request>, states: seq<State>, oks: seq<bool>, k: nat)
    requires IsRun(reqs, states, oks) && k <= |reqs|
    ensures states[k].advanced <==> exists i :: 0 <= i < k && Extends(reqs[i])
    ensures k > 0 && oks[k - 1] && states[k].advanced ==> reqs[k - 1].rest && Clear(states[k].headers)
  {
    if k > 0 {
      var m := k - 1;
      ExtendedIff(reqs, states, oks, m);
      assert Shaped(reqs[m]) && (states[m + 1], oks[m]) == Configured(states[m], reqs[m]);
      ConfiguredAdvances(states[m], reqs[m]);
    }
  }

  /** States of a device over a series of requests, and the verdict on each request. */
  ghost predicate IsRun(reqs: seq<Request>, states: seq<State>, oks: seq<bool>) {
    |states| == |reqs| + 1 && |oks| == |reqs| && states[0] == State(DEFAULTS, false)
    && (forall i :: 0 <= i < |states| ==> |states[i].headers| == 4)
    && forall i :: 0 <= i < |reqs| ==>
      Shaped(reqs[i]) && (states[i + 1], oks[i]) == Configured(states[i], reqs[i])
  }

  /** Without any extended parameter the ranges are the four plain message types. */
  predicate PlainUntouched(st: State) {
    !st.advanced ==> st.headers == DEFAULTS
  }

  lemma {:induction false} SetHeadersKeeps(st: State, attrs: seq<Attr>, k: nat)
    requires |st.headers| == 4 && |attrs| == 4 && k <= 4 && PlainUntouched(st)
    ensures PlainUntouched(SetHeaders(st, attrs, k).0)
    decreases 4 - k
  {
    if k < 4 {
      if attrs[k].Absent? {
        SetHeadersKeeps(st, attrs, k + 1);
      } else {
        var (h, ok) := Parse(st.headers[k], attrs[k].desc);
        SetHeadersKeeps(State(st.headers[k := h], true), attrs, k + 1);
      }
    }
  }

  lemma {:induction false} RunKeeps(reqs: seq<Request>, states: seq<State>, oks: seq<bool>, n: nat)
    requires IsRun(reqs, states, oks) && n <= |reqs|
    ensures PlainUntouched(states[n])
  {
    if n > 0 {
      RunKeeps(reqs, states, oks, n - 1);
      var st, req := states[n - 1], reqs[n - 1];
      SetHeadersKeeps(st.(advanced := st.advanced || req.other), req.attrs, 0);
    }
  }

  /** Every draw gives a number that is of type `i` and of no other. */
  ghost predicate SendsOwnType(hs: seq<Header>, i: nat)
    requires i < |hs|
  {
    forall draw: Word ::
      Generate(hs[i], draw).Some?
      && forall j :: 0 <= j < |hs| ==> (Validates(Generate(hs[i], draw).value, hs[j]) <==> j == i)
  }

  /** One of several separate ranges leaves some number out. */
  lemma OneOfManyIsNarrow(hs: seq<Header>, i: nat)
    requires |hs| == 4 && Clear(hs) && i < 4
    ensures hs[i].end - hs[i].start + 1 < U32
  {
    var j := if i == 0 then 1 else 0;
    var a, b := if i < j then i else j, if i < j then j else i;
    assert hs[b].end < hs[a].start || hs[a].end < hs[b].start;
  }

  lemma DrawIsOwnType(hs: seq<Header>, i: nat, draw: Word, j: nat)
    requires |hs| == 4 && Clear(hs) && i < 4 && Ordered(hs[i]) && j < 4
    ensures Generate(hs[i], draw).Some?
    ensures Validates(Generate(hs[i], draw).value, hs[j]) <==> j == i
  {
    OneOfManyIsNarrow(hs, i);
    GeneratedInRange(hs[i], draw);
    ClearIffUnambiguous(hs);
    var v := Generate(hs[i], draw).value;
    var a, b := if i < j then i else j, if i < j then j else i;
    assert a < b && Validates(v, hs[a]) ==> !Validates(v, hs[b]);
  }

  /** After any series of requests whose last one was accepted no number has two message
      types, and a generated header has exactly the type it was made for if and only if that
      range is the right way round. */
  lemma AcceptedRun(reqs: seq<Request>, states: seq<State>, oks: seq<bool>, i: nat)
    requires IsRun(reqs, states, oks) && reqs != [] && oks[|reqs| - 1] && i < 4
    ensures Unambiguous(states[|reqs|].headers)
    ensures SendsOwnType(states[|reqs|].headers, i) <==> Ordered(states[|reqs|].headers[i])
  {
    var hs := states[|reqs|].headers;
    RunKeeps(reqs, states, oks, |reqs|);
    assert Clear(hs);
    ClearIffUnambiguous(hs);
    if Ordered(hs[i]) {
      forall draw: Word, j | 0 <= j < |hs| ensures Generate(hs[i], draw).Some?
        && (Validates(Generate(hs[i], draw).value, hs[j]) <==> j == i)
      {
        DrawIsOwnType(hs, i, draw, j);
      }
      forall draw: Word ensures Generate(hs[i], draw).Some? { DrawIsOwnType(hs, i, draw, 0); }
    } else {
      GeneratedInRange(hs[i], 0);
      assert !(Generate(hs[i], 0).Some? && Validates(Generate(hs[i], 0).value, hs[i]));
    }
  }

  // ---- Which texts turn a range round ----

  /** The start a text sets, if it can be read that far. */
  function StartOf(desc: Option<string>): (n: Option<Word>) {
    if desc.None? then None
    else
      var start := ParseUint(UpTo(desc.value, '-'));
      if start.None? then None else Some(start.value)
  }

  /** The end it sets: the start if there is no dash, else what follows the dash. */
  function EndOf(desc: Option<string>): (n: Option<Word>) {
    if StartOf(desc).None? then None
    else if After(desc.value, '-').None? then StartOf(desc)
    else
      var end := ParseUint(After(desc.value, '-').value);
      if end.None? then None else Some(end.value)
  }

  function Or(n: Option<Word>, was: Word): (r: Word) {
    if n.Some? then n.value else was
  }

  lemma ParseSets(h: Header, desc: Option<string>)
    ensures Parse(h, desc).0 == Header(Or(StartOf(desc), h.start), Or(EndOf(desc), h.end))
    ensures Parse(h, desc).1 <==> EndOf(desc).Some? && StartOf(desc).value <= EndOf(desc).value
  {
  }

  /** One text leaves the range the right way round if and only if: its start is unreadable and
      the range was; or it is one number; or its end is unreadable and the old end is not
      below its start; or its two numbers are in order. */
  lemma OneTextOrders(h: Header, desc: Option<string>)
    ensures Ordered(Parse(h, desc).0) <==>
            if StartOf(desc).None? then Ordered(h)
            else if After(desc.value, '-').None? then true
            else if EndOf(desc).None? then StartOf(desc).value <= h.end
            else StartOf(desc).value <= EndOf(desc).value
  {
    ParseSets(h, desc);
  }

  /** The last start, and the last end, that a series of texts set. */
  function LastStart(was: Word, texts: seq<Option<string>>): (n: Word) {
    if texts == [] then was else Or(StartOf(texts[|texts| - 1]), LastStart(was, texts[..|texts| - 1]))
  }

  function LastEnd(was: Word, texts: seq<Option<string>>): (n: Word) {
    if texts == [] then was else Or(EndOf(texts[|texts| - 1]), LastEnd(was, texts[..|texts| - 1]))
  }

  predicate Readable(attr: Attr) {
    attr.Text? ==> Parse(Header(0, 0), attr.desc).1
  }

  /** Whether a text is accepted does not depend on the range it is read into. */
  lemma VerdictIsText(h: Header, desc: Option<string>)
    ensures Parse(h, desc).1 <==> Readable(Text(desc))
  {
    ParseSets(h, desc);
    ParseSets(Header(0, 0), desc);
  }

  predicate ReadableFrom(attrs: seq<Attr>, k: nat, i: nat)
    requires i <= |attrs|
  {
    forall j :: k <= j < i ==> Readable(attrs[j])
  }

  /** The text that a request puts into range `i`: none if an earlier range of it is refused. */
  function TextFor(req: Request, i: nat): (ts: seq<Option<string>>)
    requires Shaped(req) && i < 4
  {
    if !req.early && req.attrs[i].Text? && ReadableFrom(req.attrs, 0, i)
    then [req.attrs[i].desc] else []
  }

  predicate AllShaped(reqs: seq<Request>) {
    forall k :: 0 <= k < |reqs| ==> Shaped(reqs[k])
  }

  function TextsFor(reqs: seq<Request>, i: nat): (ts: seq<Option<string>>)
    requires AllShaped(reqs) && i < 4
  {
    if reqs == [] then [] else TextsFor(reqs[..|reqs| - 1], i) + TextFor(reqs[|reqs| - 1], i)
  }

  lemma ReadableNext(attrs: seq<Attr>, k: nat, i: nat)
    requires k < i <= |attrs|
    ensures ReadableFrom(attrs, k, i) <==> Readable(attrs[k]) && ReadableFrom(attrs, k + 1, i)
  {
  }

  lemma SetHeadersStep(st: State, attrs: seq<Attr>, k: nat, h: Header, ok: bool)
    requires |st.headers| == 4 && |attrs| == 4 && k < 4 && attrs[k].Text? && (h, ok) == Parse(st.headers[k], attrs[k].desc)
    ensures var st' := State(st.headers[k := h], true);
            SetHeaders(st, attrs, k) == if ok then SetHeaders(st', attrs, k + 1) else (st', false)
  {
  }

  lemma {:induction false} SetHeadersAt(st: State, attrs: seq<Attr>, k: nat, i: nat)
    requires |st.headers| == 4 && |attrs| == 4 && k <= 4 && i < 4
    ensures SetHeaders(st, attrs, k).0.headers[i] ==
            if i >= k && attrs[i].Text? && ReadableFrom(attrs, k, i)
            then Parse(st.headers[i], attrs[i].desc).0 else st.headers[i]
    decreases 4 - k
  {
    if k < 4 {
      if k < i { ReadableNext(attrs, k, i); }
      if attrs[k].Absent? {
        SetHeadersAt(st, attrs, k + 1, i);
      } else {
        var r := Parse(st.headers[k], attrs[k].desc);
        VerdictIsText(st.headers[k], attrs[k].desc);
        SetHeadersStep(st, attrs, k, r.0, r.1);
        if r.1 { SetHeadersAt(State(st.headers[k := r.0], true), attrs, k + 1, i); }
      }
    }
  }

  /** One request on one range. */
  lemma ConfiguredAt(st: State, req: Request, i: nat)
    requires |st.headers| == 4 && Shaped(req) && i < 4
    ensures var ts := TextFor(req, i);
            Configured(st, req).0.headers[i] == if ts == [] then st.headers[i] else Parse(st.headers[i], ts[0]).0
  {
    SetHeadersAt(st.(advanced := st.advanced || req.other), req.attrs, 0, i);
  }

  lemma LastMore(was: Header, ts: seq<Option<string>>, more: seq<Option<string>>, h: Header)
    requires h == Header(LastStart(was.start, ts), LastEnd(was.end, ts)) && |more| <= 1
    ensures (if more == [] then h else Parse(h, more[0]).0) == Header(LastStart(was.start, ts + more), LastEnd(was.end, ts + more))
  {
    if more == [] {
      assert ts + more == ts;
    } else {
      ParseSets(h, more[0]);
      assert (ts + more)[..|ts|] == ts && (ts + more)[|ts|] == more[0];
    }
  }

  /** In every series of requests, a range is the last start and the last end that its texts
      have set. */
  lemma {:induction false} RangeIsLastSet(reqs: seq<Request>, states: seq<State>, oks: seq<bool>, n: nat, i: nat)
    requires IsRun(reqs, states, oks) && n <= |reqs| && i < 4
    ensures AllShaped(reqs[..n])
    ensures var ts := TextsFor(reqs[..n], i);
            states[n].headers[i] == Header(LastStart(i + 1, ts), LastEnd(i + 1, ts))
  {
    if n > 0 {
      RangeIsLastSet(reqs, states, oks, n - 1, i);
      RunStep(reqs, states, oks, n - 1);
      assert reqs[..n] == reqs[..n - 1] + [reqs[n - 1]];
      TextsMore(reqs[..n - 1], reqs[n - 1], i);
      RangeStep(states[n - 1], reqs[n - 1], i, TextsFor(reqs[..n - 1], i));
    } else {
      assert states[0].headers == DEFAULTS;
    }
  }

  lemma RunStep(reqs: seq<Request>, states: seq<State>, oks: seq<bool>, k: nat)
    requires IsRun(reqs, states, oks) && k < |reqs|
    ensures Shaped(reqs[k]) && |states[k].headers| == 4 && states[k + 1] == Configured(states[k], reqs[k]).0
    ensures AllShaped(reqs[..k]) && AllShaped(reqs[..k + 1])
  {
    assert (states[k + 1], oks[k]) == Configured(states[k], reqs[k]);
  }

  lemma TextsMore(reqs: seq<Request>, req: Request, i: nat)
    requires AllShaped(reqs) && AllShaped(reqs + [req]) && Shaped(req) && i < 4
    ensures TextsFor(reqs + [req], i) == TextsFor(reqs, i) + TextFor(req, i)
  {
    assert (reqs + [req])[..|reqs|] == reqs;
  }

  lemma RangeStep(st: State, req: Request, i: nat, ts: seq<Option<string>>)
    requires |st.headers| == 4 && Shaped(req) && i < 4
    requires st.headers[i] == Header(LastStart(i + 1, ts), LastEnd(i + 1, ts))
    ensures var ts' := ts + TextFor(req, i);
            Configured(st, req).0.headers[i] == Header(LastStart(i + 1, ts'), LastEnd(i + 1, ts'))
  {
    ConfiguredAt(st, req, i);
    LastMore(Header(i + 1, i + 1), ts, TextFor(req, i), st.headers[i]);
  }

  /** After any series of requests whose last one was accepted, generated headers of a type
      have exactly that type if and only if the last start that the texts for its range have
      set is not above the last end they have set. */
  lemma OwnTypeIffTexts(reqs: seq<Request>, states: seq<State>, oks: seq<bool>, i: nat)
    requires IsRun(reqs, states, oks) && reqs != [] && oks[|reqs| - 1] && i < 4
    ensures AllShaped(reqs)
    ensures var ts := TextsFor(reqs, i);
            SendsOwnType(states[|reqs|].headers, i) <==> LastStart(i + 1, ts) <= LastEnd(i + 1, ts)
  {
    AcceptedRun(reqs, states, oks, i);
    RangeIsLastSet(reqs, states, oks, |reqs|, i);
    assert reqs[..|reqs|] == reqs;
  }

  /** In particular if every text can be read. */
  lemma {:induction false} ReadableTexts(was: Word, ts: seq<Option<string>>)
    requires forall t :: t in ts ==> Readable(Text(t))
    ensures LastStart(was, ts) <= LastEnd(was, ts)
  {
    if ts != [] {
      assert ts[|ts| - 1] in ts;
      ParseSets(Header(0, 0), ts[|ts| - 1]);
    }
  }

  /** A refused text does leave its mark: a request with the range "9-7" is refused, the next
      one is accepted, and from then on initiations carry the type of no initiation. */
  lemma RefusedTextTurnsTheRange() returns (reqs: seq<Request>, states: seq<State>, oks: seq<bool>)
    ensures IsRun(reqs, states, oks) && oks == [false, true]
    ensures !SendsOwnType(states[2].headers, 0)
  {
    var bad := Header(9, 7);
    SpecRoundTrip(bad, Header(1, 1));
    var r0 := Request(false, false, [Text(Some(Spec(bad))), Absent, Absent, Absent], true);
    var r1 := Request(false, true, [Absent, Absent, Absent, Absent], true);
    var s0 := State(DEFAULTS, false);
    var s1 := State(DEFAULTS[0 := bad], true);
    reqs, states, oks := [r0, r1], [s0, s1, s1], [false, true];
    assert Configured(s0, r0) == (s1, false);
    assert SetHeaders(s1, r1.attrs, 4) == SetHeaders(s1, r1.attrs, 3)
        == SetHeaders(s1, r1.attrs, 2) == SetHeaders(s1, r1.attrs, 1) == SetHeaders(s1, r1.attrs, 0);
    assert Configured(s1, r1) == (s1, true);
    AcceptedRun(reqs, states, oks, 0);
  }

  // ---- In place ----

  class Device {
    var headers: array<Header>
    var advanced: bool

    ghost predicate Valid()
      reads this
    {
      headers.Length == 4
    }

    ghost function View(): (st: State)
      reads this, headers
    {
      State(headers[..], advanced)
    }

    /** `wg_setup`. */
    constructor ()
      ensures Valid() && fresh(headers) && View() == State(DEFAULTS, false)
    {
      advanced := false;
      headers := new Header[4][Header(1, 1), Header(2, 2), Header(3, 3), Header(4, 4)];
    }

    /** `mh_parse` on one of the ranges. */
    method ParseInto(i: nat, desc: Option<string>) returns (ok: bool)
      requires Valid() && i < 4
      modifies headers
      ensures (headers[i], ok) == Parse(old(headers[i]), desc)
      ensures headers[..] == old(headers[..])[i := headers[i]]
    {
      if desc.None? { return false; }
      var start := ParseUint(UpTo(desc.value, '-'));
      var rest := After(desc.value, '-');
      if start.None? { return false; }
      headers[i] := headers[i].(start := start.value);
      if rest.Some? {
        var end := ParseUint(rest.value);
        if end.None? { return false; }
        headers[i] := headers[i].(end := end.value);
      } else {
        headers[i] := headers[i].(end := start.value);
      }
      ok := headers[i].start <= headers[i].end;
    }

    /** The loop over all pairs of ranges. */
    method CheckHeaders() returns (ok: bool)
      requires Valid()
      ensures ok <==> Clear(headers[..])
      ensures ok ==> Unambiguous(headers[..])
      ensures AllOrdered(headers[..]) && Unambiguous(headers[..]) ==> ok
    {
      ClearIffUnambiguous(headers[..]);
      for i := 0 to headers.Length
        invariant forall a, b :: 0 <= a < i && a < b < headers.Length ==>
          headers[b].end < headers[a].start || headers[a].end < headers[b].start
      {
        for j := i + 1 to headers.Length
          invariant forall b :: i < b < j ==>
            headers[b].end < headers[i].start || headers[i].end < headers[b].start
        {
          if !(headers[j].end < headers[i].start || headers[i].end < headers[j].start) {
            assert !Clear(headers[..]) by {
              assert headers[..][i] == headers[i] && headers[..][j] == headers[j];
            }
            return false;
          }
        }
      }
      ok := true;
    }

    /** `wg_set_device` and `wg_device_handle_post_config`, as far as the headers go. */
    method Configure(req: Request) returns (ok: bool)
      requires Valid() && Shaped(req)
      modifies `advanced, headers
      ensures (View(), ok) == Configured(old(View()), req)
    {
      if req.early { return false; }
      ghost var st := old(View()).(advanced := old(advanced) || req.other);
      advanced := advanced || req.other;
      for k := 0 to 4
        invariant SetHeaders(st, req.attrs, 0) == SetHeaders(View(), req.attrs, k)
      {
        if req.attrs[k].Text? {
          advanced := true;
          var parsed := ParseInto(k, req.attrs[k].desc);
          if !parsed { return false; }
        }
      }
      if !advanced { return true; }
      var clear := CheckHeaders();
      ok := req.rest && clear;
    }
  }
}
