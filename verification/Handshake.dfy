/** The tunnel handshake (core/handshake.go, `attemptHandshake` and `completeHandshake` of
    core/multipath.go, the hello branch of the servers) over symbolic authentication tags and
    an abstract X25519, against a network that may replay, redirect and invent messages but
    cannot compute a tag without the password. */
module Handshake {
  import opened Options
  import opened Bytes
  import Lexical

  type Addr = string
  type Secret = nat
  type Shared = seq<Byte>

  const KEY_LEN: nat := 32

  /** X25519: the public key of a secret, and the shared secret, which may be refused. */
  datatype Curve = Curve(pub: Secret -> seq<Byte>, dh: (Secret, seq<Byte>) -> Option<Shared>)

  /** Both ends compute the same shared secret (section 6.1 of RFC 7748). */
  ghost predicate CurveOk(c: Curve) {
    && (forall a {:trigger c.pub(a)} :: |c.pub(a)| == KEY_LEN)
    && (forall a, b {:trigger c.dh(a, c.pub(b))} :: c.dh(a, c.pub(b)) == c.dh(b, c.pub(a)))
  }

  /** A MAC: the tag of some input under a password, or bytes that are no tag at all. */
  datatype Tag = Tag(password: string, input: seq<Byte>) | NoTag

  /** A handshake body after its type byte. */
  datatype Body = Body(pub: seq<Byte>, tag: Tag) | WrongLength

  /** A session key is the hash of these bytes. */
  datatype SessionKey = Digest(input: seq<Byte>)

  /** "simorgh-session-key|" */
  const LABEL: seq<Byte> := [115, 105, 109, 111, 114, 103, 104, 45, 115, 101, 115, 115, 105, 111, 110, 45, 107, 101, 121, 124]

  predicate ByteLess(x: Byte, y: Byte) {
    x < y
  }

  /** bytes.Compare(a, b) < 0. */
  predicate Before(a: seq<Byte>, b: seq<Byte>) {
    Lexical.Precedes(ByteLess, a, b)
  }

  function BuildHello(c: Curve, password: string, priv: Secret): (b: Body) {
    Body(c.pub(priv), Tag(password, c.pub(priv)))
  }

  /** The client public key of a valid hello. */
  function ParseHello(password: string, b: Body): (pub: Option<seq<Byte>>) {
    if b.WrongLength? || b.tag != Tag(password, b.pub) then None else Some(b.pub)
  }

  function BuildHelloAck(c: Curve, password: string, clientPub: seq<Byte>, priv: Secret): (b: Body) {
    Body(c.pub(priv), Tag(password, c.pub(priv) + clientPub))
  }

  function ParseHelloAck(password: string, clientPub: seq<Byte>, b: Body): (pub: Option<seq<Byte>>) {
    if b.WrongLength? || b.tag != Tag(password, b.pub + clientPub) then None else Some(b.pub)
  }

  function DeriveSessionKey(shared: Shared, clientPub: seq<Byte>, serverPub: seq<Byte>): (k: SessionKey) {
    if Before(clientPub, serverPub) then Digest(LABEL + shared + clientPub + serverPub)
    else Digest(LABEL + shared + serverPub + clientPub)
  }

  /** The key does not depend on which end is called the client. */
  lemma DeriveIsSymmetric(shared: Shared, p: seq<Byte>, q: seq<Byte>)
    ensures DeriveSessionKey(shared, p, q) == DeriveSessionKey(shared, q, p)
  {
    Lexical.Asymmetric(ByteLess, p, q);
    Lexical.Total(ByteLess, p, q);
  }

  /** The two public keys, whoever is called the client. */
  predicate SamePair(p: seq<Byte>, q: seq<Byte>, p': seq<Byte>, q': seq<Byte>) {
    (p == p' && q == q') || (p == q' && q == p')
  }

  lemma SplitAtEnds(a: seq<Byte>, s: seq<Byte>, p: seq<Byte>, q: seq<Byte>, s': seq<Byte>, p': seq<Byte>, q': seq<Byte>)
    requires |p| == |p'| && |q| == |q'| && a + s + p + q == a + s' + p' + q'
    ensures s == s' && p == p' && q == q'
  {
    var x, y := a + s + p + q, a + s' + p' + q';
    var n := |a| + |s|;
    assert |s| == |s'|;
    assert x[|a|..n] == s && y[|a|..n] == s';
    assert x[n..n + |p|] == p && y[n..n + |p|] == p';
    assert x[n + |p|..] == q && y[n + |p|..] == q';
  }

  /** The key binds the shared secret and both public keys: two are the same if and only if
      these are. */
  lemma SameKeyIff(s: Shared, p: seq<Byte>, q: seq<Byte>, s': Shared, p': seq<Byte>, q': seq<Byte>)
    requires |p| == |q| == |p'| == |q'| == KEY_LEN
    ensures DeriveSessionKey(s, p, q) == DeriveSessionKey(s', p', q') <==> s == s' && SamePair(p, q, p', q')
  {
    DeriveIsSymmetric(s, p, q);
    var (x, y) := if Before(p, q) then (p, q) else (q, p);
    var (x', y') := if Before(p', q') then (p', q') else (q', p');
    if DeriveSessionKey(s, p, q) == DeriveSessionKey(s', p', q') {
      SplitAtEnds(LABEL, s, x, y, s', x', y');
    }
  }

  // ---- the protocol ----------------------------------------------------------------------

  datatype Pending = Pending(priv: Secret, clientPub: seq<Byte>)

  /** A finished handshake as the client or as a server sees it. */
  datatype Agreed = Agreed(clientPub: seq<Byte>, serverPub: seq<Byte>, shared: Shared, key: SessionKey)

  /** `pending` is the client's table; the rest is history: which client keys were generated,
      which tags were computed with the password, what each end agreed on. */
  datatype World = World(
    pending: map<Addr, Pending>, clientPubs: set<seq<Byte>>, tags: set<Tag>,
    byServer: set<Agreed>, byClient: seq<(Addr, Agreed)>)

  datatype Event =
    | Attempt(to: Addr, priv: Secret)
    | GiveUp(to: Addr)
    | HelloArrives(body: Body, priv: Secret)
    | AckArrives(from: Addr, body: Body)

  /** The network carries anything, but a tag under the password was computed by one of the
      ends before. Ephemeral client keys do not repeat. */
  ghost predicate Possible(c: Curve, password: string, w: World, ev: Event) {
    match ev
    case Attempt(_, priv) => c.pub(priv) !in w.clientPubs
    case GiveUp(_) => true
    case HelloArrives(body, _) => body.Body? && body.tag.Tag? && body.tag.password == password ==> body.tag in w.tags
    case AckArrives(_, body) => body.Body? && body.tag.Tag? && body.tag.password == password ==> body.tag in w.tags
  }

  /** The server's side of one hello: parse, answer, derive. */
  function ServerAgrees(c: Curve, password: string, body: Body, priv: Secret): (r: Option<Agreed>) {
    var clientPub := ParseHello(password, body);
    if clientPub.None? || |clientPub.value| != KEY_LEN || c.dh(priv, clientPub.value).None? then None
    else
      var shared := c.dh(priv, clientPub.value).value;
      Some(Agreed(clientPub.value, c.pub(priv), shared, DeriveSessionKey(shared, clientPub.value, c.pub(priv))))
  }

  /** The client's side of one acknowledgement. */
  function ClientAgrees(c: Curve, password: string, p: Pending, body: Body): (r: Option<Agreed>) {
    var serverPub := ParseHelloAck(password, p.clientPub, body);
    if serverPub.None? || |serverPub.value| != KEY_LEN || c.dh(p.priv, serverPub.value).None? then None
    else
      var shared := c.dh(p.priv, serverPub.value).value;
      Some(Agreed(p.clientPub, serverPub.value, shared, DeriveSessionKey(shared, p.clientPub, serverPub.value)))
  }

  function Step(c: Curve, password: string, w: World, ev: Event): (w': World) {
    match ev
    case Attempt(to, priv) =>
      w.(pending := w.pending[to := Pending(priv, c.pub(priv))], clientPubs := w.clientPubs + {c.pub(priv)},
         tags := w.tags + {BuildHello(c, password, priv).tag})
    case GiveUp(to) => w.(pending := w.pending - {to})
    case HelloArrives(body, priv) =>
      var a := ServerAgrees(c, password, body, priv);
      if a.None? then w
      else w.(byServer := w.byServer + {a.value}, tags := w.tags + {BuildHelloAck(c, password, a.value.clientPub, priv).tag})
    case AckArrives(from, body) =>
      if from !in w.pending then w
      else
        var a := ClientAgrees(c, password, w.pending[from], body);
        if a.None? then w
        else w.(pending := w.pending - {from}, byClient := w.byClient + [(from, a.value)])
  }

  // ---- agreement ---------------------------------------------------------------------------

  /** What a tag of 64 bytes under the password testifies to. */
  ghost predicate Witness(c: Curve, w: World, input: seq<Byte>, priv: Secret, clientPub: seq<Byte>) {
    && |clientPub| == KEY_LEN && input == c.pub(priv) + clientPub && c.dh(priv, clientPub).Some?
    && var shared := c.dh(priv, clientPub).value;
       Agreed(clientPub, c.pub(priv), shared, DeriveSessionKey(shared, clientPub, c.pub(priv))) in w.byServer
  }

  ghost predicate TagOk(c: Curve, password: string, w: World, t: Tag) {
    t.Tag? && t.password == password && |t.input| == 2 * KEY_LEN ==>
      exists priv, clientPub :: Witness(c, w, t.input, priv, clientPub)
  }

  ghost predicate Inv(c: Curve, password: string, w: World) {
    && (forall t {:trigger t in w.tags} :: t in w.tags ==> TagOk(c, password, w, t))
    && (forall to :: to in w.pending ==> w.pending[to].clientPub == c.pub(w.pending[to].priv)
                                         && w.pending[to].clientPub in w.clientPubs)
    && (forall i :: 0 <= i < |w.byClient| ==> w.byClient[i].1 in w.byServer)
    && (forall a :: a in w.byServer ==> Derived(a) && a.clientPub in w.clientPubs)
    && (forall t {:trigger t in w.tags} :: t in w.tags && t.Tag? && |t.input| == KEY_LEN ==> t.input in w.clientPubs)
  }

  /** The key of an agreement is made from its secret and its public keys. */
  predicate Derived(a: Agreed) {
    |a.clientPub| == |a.serverPub| == KEY_LEN && a.key == DeriveSessionKey(a.shared, a.clientPub, a.serverPub)
  }

  lemma WitnessStays(c: Curve, password: string, w: World, w': World, t: Tag)
    requires TagOk(c, password, w, t) && w.byServer <= w'.byServer
    ensures TagOk(c, password, w', t)
  {
    if t.Tag? && t.password == password && |t.input| == 2 * KEY_LEN {
      var priv, clientPub :| Witness(c, w, t.input, priv, clientPub);
      assert Witness(c, w', t.input, priv, clientPub);
    }
  }

  /** An acknowledgement the client accepts was computed by a server for this very client
      key, and both ends derive the same session key. */
  lemma AcceptedMeansAgreed(c: Curve, password: string, w: World, p: Pending, body: Body)
    requires CurveOk(c) && Inv(c, password, w)
    requires p.clientPub == c.pub(p.priv) && Possible(c, password, w, AckArrives("", body))
    ensures ClientAgrees(c, password, p, body).Some? ==> ClientAgrees(c, password, p, body).value in w.byServer
  {
    if ClientAgrees(c, password, p, body).Some? {
      var t := body.tag;
      assert t in w.tags && |t.input| == 2 * KEY_LEN;
      assert TagOk(c, password, w, t);
      var priv, clientPub :| Witness(c, w, t.input, priv, clientPub);
      assert t.input[..KEY_LEN] == body.pub == c.pub(priv);
      assert t.input[KEY_LEN..] == p.clientPub == clientPub;
      assert c.dh(p.priv, c.pub(priv)) == c.dh(priv, c.pub(p.priv));
    }
  }

  lemma StepKeeps(c: Curve, password: string, w: World, ev: Event)
    requires CurveOk(c) && Inv(c, password, w) && Possible(c, password, w, ev)
    ensures Inv(c, password, Step(c, password, w, ev))
  {
    var w' := Step(c, password, w, ev);
    forall t | t in w'.tags ensures TagOk(c, password, w', t) {
      if t in w.tags {
        WitnessStays(c, password, w, w', t);
      } else if ev.HelloArrives? {
        assert Witness(c, w', t.input, ev.priv, ev.body.pub);
      }
    }
    if ev.AckArrives? && ev.from in w.pending { AcceptedMeansAgreed(c, password, w, w.pending[ev.from], ev.body); }
  }

  ghost predicate IsRun(c: Curve, password: string, evs: seq<Event>, ws: seq<World>) {
    && |ws| == |evs| + 1 && ws[0] == World(map[], {}, {}, {}, [])
    && forall k :: 0 <= k < |evs| ==> Possible(c, password, ws[k], evs[k]) && ws[k + 1] == Step(c, password, ws[k], evs[k])
  }

  lemma {:induction false} RunKeeps(c: Curve, password: string, evs: seq<Event>, ws: seq<World>, k: nat)
    requires CurveOk(c) && IsRun(c, password, evs, ws) && k <= |evs|
    ensures Inv(c, password, ws[k])
  {
    if k > 0 {
      RunKeeps(c, password, evs, ws, k - 1);
      StepKeeps(c, password, ws[k - 1], evs[k - 1]);
    }
  }

  /** In every run, whatever the client completed some server derived too: the same key, for
      exactly this client's public key. */
  lemma KeysAgree(c: Curve, password: string, evs: seq<Event>, ws: seq<World>, k: nat, i: nat)
    requires CurveOk(c) && IsRun(c, password, evs, ws) && k <= |evs| && i < |ws[k].byClient|
    ensures ws[k].byClient[i].1 in ws[k].byServer
  {
    RunKeeps(c, password, evs, ws, k);
  }

  /** In every run, servers agree only with public keys that a client with the password has
      generated. */
  lemma ServersAnswerClients(c: Curve, password: string, evs: seq<Event>, ws: seq<World>, k: nat, a: Agreed)
    requires CurveOk(c) && IsRun(c, password, evs, ws) && k <= |evs| && a in ws[k].byServer
    ensures a.clientPub in ws[k].clientPubs
  {
    RunKeeps(c, password, evs, ws, k);
  }

  /** In every run, two handshakes of servers have one key if and only if they have one shared
      secret and one pair of public keys. */
  lemma KeysAreApart(c: Curve, password: string, evs: seq<Event>, ws: seq<World>, k: nat, a: Agreed, a': Agreed)
    requires CurveOk(c) && IsRun(c, password, evs, ws) && k <= |evs| && a in ws[k].byServer && a' in ws[k].byServer
    ensures a.key == a'.key <==> a.shared == a'.shared && SamePair(a.clientPub, a.serverPub, a'.clientPub, a'.serverPub)
  {
    RunKeeps(c, password, evs, ws, k);
    SameKeyIff(a.shared, a.clientPub, a.serverPub, a'.shared, a'.clientPub, a'.serverPub);
  }

  // ---- which attempt an acknowledgement completes --------------------------------------------

  /** Event `j` is the latest attempt at `to` before event `k`. */
  ghost predicate Latest(evs: seq<Event>, k: nat, to: Addr, j: nat) {
    && j < k <= |evs| && evs[j].Attempt? && evs[j].to == to
    && forall i :: j < i < k && evs[i].Attempt? ==> evs[i].to != to
  }

  /** What is pending for an address is the key of the latest attempt at it. */
  lemma {:induction false} PendingIsLatest(c: Curve, password: string, evs: seq<Event>, ws: seq<World>, k: nat, to: Addr) returns (j: nat)
    requires IsRun(c, password, evs, ws) && k <= |evs| && to in ws[k].pending
    ensures Latest(evs, k, to, j) && ws[k].pending[to] == Pending(evs[j].priv, c.pub(evs[j].priv))
  {
    var ev := evs[k - 1];
    assert ws[k] == Step(c, password, ws[k - 1], ev);
    if ev.Attempt? && ev.to == to {
      j := k - 1;
    } else {
      j := PendingIsLatest(c, password, evs, ws, k - 1, to);
    }
  }

  lemma {:induction false} PubsGrow(c: Curve, password: string, evs: seq<Event>, ws: seq<World>, i: nat, k: nat)
    requires IsRun(c, password, evs, ws) && i <= k <= |evs|
    ensures ws[i].clientPubs <= ws[k].clientPubs
    decreases k
  {
    if i < k { PubsGrow(c, password, evs, ws, i, k - 1); }
  }

  lemma AttemptsDiffer(c: Curve, password: string, evs: seq<Event>, ws: seq<World>, i: nat, j: nat)
    requires IsRun(c, password, evs, ws) && i < j < |evs| && evs[i].Attempt? && evs[j].Attempt?
    ensures c.pub(evs[i].priv) != c.pub(evs[j].priv)
  {
    assert ws[i + 1] == Step(c, password, ws[i], evs[i]);
    PubsGrow(c, password, evs, ws, i + 1, j);
    assert Possible(c, password, ws[j], evs[j]);
  }

  /** Event `k` is an acknowledgement that completes a handshake. */
  ghost predicate Completes(evs: seq<Event>, ws: seq<World>, k: nat) {
    k < |evs| && k + 1 < |ws| && evs[k].AckArrives? && ws[k + 1] != ws[k]
  }

  /** In every run, an acknowledgement that completes at an address binds the client key of the
      latest attempt at that address. */
  lemma CompletesTheLatest(c: Curve, password: string, evs: seq<Event>, ws: seq<World>, k: nat) returns (j: nat)
    requires IsRun(c, password, evs, ws) && Completes(evs, ws, k)
    ensures Latest(evs, k, evs[k].from, j) && evs[k].body.Body?
    ensures evs[k].body.tag == Tag(password, evs[k].body.pub + c.pub(evs[j].priv))
    ensures |ws[k + 1].byClient| == |ws[k].byClient| + 1
    ensures ws[k + 1].byClient[|ws[k].byClient|].1.clientPub == c.pub(evs[j].priv)
  {
    assert ws[k + 1] == Step(c, password, ws[k], evs[k]);
    j := PendingIsLatest(c, password, evs, ws, k, evs[k].from);
  }

  /** What the ends of an untouched exchange compute: both the same, or neither anything. */
  lemma UntouchedAgrees(c: Curve, password: string, priv: Secret, serverPriv: Secret)
    requires CurveOk(c)
    ensures var p := Pending(priv, c.pub(priv));
            var server := ServerAgrees(c, password, BuildHello(c, password, priv), serverPriv);
            var client := ClientAgrees(c, password, p, BuildHelloAck(c, password, c.pub(priv), serverPriv));
            && server == client && (server.Some? <==> c.dh(priv, c.pub(serverPriv)).Some?)
            && (server.Some? ==> server.value.shared == c.dh(priv, c.pub(serverPriv)).value)
  {
    assert c.dh(priv, c.pub(serverPriv)) == c.dh(serverPriv, c.pub(priv));
  }

  lemma {:induction false} ServersGrow(c: Curve, password: string, evs: seq<Event>, ws: seq<World>, i: nat, k: nat)
    requires IsRun(c, password, evs, ws) && i <= k <= |evs|
    ensures ws[i].byServer <= ws[k].byServer
    decreases k
  {
    if i < k {
      ServersGrow(c, password, evs, ws, i, k - 1);
      assert ws[k] == Step(c, password, ws[k - 1], evs[k - 1]);
    }
  }

  /** In every run, whatever else happens: when the hello of the attempt that is pending has
      reached a server and its acknowledgement comes back, the handshake completes if and only if
      the curve accepts the keys, and with the key that the server has. */
  lemma UntouchedCompletes(c: Curve, password: string, evs: seq<Event>, ws: seq<World>, i: nat, j: nat, k: nat)
    requires CurveOk(c) && IsRun(c, password, evs, ws) && i < k < |evs| && j < k
    requires evs[i].Attempt? && Latest(evs, k, evs[i].to, i) && evs[i].to in ws[k].pending
    requires evs[j].HelloArrives? && evs[j].body == BuildHello(c, password, evs[i].priv)
    requires evs[k] == AckArrives(evs[i].to, BuildHelloAck(c, password, c.pub(evs[i].priv), evs[j].priv))
    ensures Completes(evs, ws, k) <==> c.dh(evs[i].priv, c.pub(evs[j].priv)).Some?
    ensures Completes(evs, ws, k) ==>
              var a := ServerAgrees(c, password, evs[j].body, evs[j].priv);
              a.Some? && a.value in ws[k + 1].byServer && ws[k + 1].byClient == ws[k].byClient + [(evs[i].to, a.value)]
  {
    var l := PendingIsLatest(c, password, evs, ws, k, evs[i].to);
    assert l == i;
    UntouchedAgrees(c, password, evs[i].priv, evs[j].priv);
    assert ws[j + 1] == Step(c, password, ws[j], evs[j]) && ws[k + 1] == Step(c, password, ws[k], evs[k]);
    ServersGrow(c, password, evs, ws, j + 1, k + 1);
  }

  lemma {:induction false} TagsGrow(c: Curve, password: string, evs: seq<Event>, ws: seq<World>, i: nat, k: nat)
    requires IsRun(c, password, evs, ws) && i <= k <= |evs|
    ensures ws[i].tags <= ws[k].tags
    decreases k
  {
    if i < k {
      TagsGrow(c, password, evs, ws, i, k - 1);
      assert ws[k] == Step(c, password, ws[k - 1], evs[k - 1]);
    }
  }

  /** In every run, the hello of an attempt and a server's acknowledgement of a hello can arrive
      anywhere at any later time, as often as the network likes. */
  lemma AnythingSentCanArrive(c: Curve, password: string, evs: seq<Event>, ws: seq<World>, i: nat, k: nat, from: Addr, priv: Secret)
    requires IsRun(c, password, evs, ws) && i < k <= |evs|
    ensures evs[i].Attempt? ==> Possible(c, password, ws[k], HelloArrives(BuildHello(c, password, evs[i].priv), priv))
    ensures evs[i].HelloArrives? && ServerAgrees(c, password, evs[i].body, evs[i].priv).Some? ==>
              Possible(c, password, ws[k], AckArrives(from, BuildHelloAck(c, password, evs[i].body.pub, evs[i].priv)))
  {
    assert ws[i + 1] == Step(c, password, ws[i], evs[i]);
    TagsGrow(c, password, evs, ws, i + 1, k);
  }

  lemma {:induction false} NothingPending(c: Curve, password: string, evs: seq<Event>, ws: seq<World>, i: nat, k: nat)
    requires IsRun(c, password, evs, ws) && i < k <= |evs| && evs[i].GiveUp?
    requires forall m :: i < m < k && evs[m].Attempt? ==> evs[m].to != evs[i].to
    ensures evs[i].to !in ws[k].pending
    decreases k
  {
    assert ws[k] == Step(c, password, ws[k - 1], evs[k - 1]);
    if k - 1 > i { NothingPending(c, password, evs, ws, i, k - 1); }
  }

  /** In every run, an attempt that was given up is not completed, whatever arrives. */
  lemma GivenUpIsOver(c: Curve, password: string, evs: seq<Event>, ws: seq<World>, i: nat, k: nat)
    requires IsRun(c, password, evs, ws) && i < k < |evs| && evs[i].GiveUp?
    requires forall m :: i < m < k && evs[m].Attempt? ==> evs[m].to != evs[i].to
    requires evs[k].AckArrives? && evs[k].from == evs[i].to
    ensures ws[k + 1] == ws[k]
  {
    NothingPending(c, password, evs, ws, i, k);
    assert ws[k + 1] == Step(c, password, ws[k], evs[k]);
  }

  lemma AckNamesItsHello(c: Curve, password: string, oldPub: seq<Byte>, newPub: seq<Byte>, serverPriv: Secret)
    requires oldPub != newPub
    ensures var ack := BuildHelloAck(c, password, oldPub, serverPriv); ack.tag != Tag(password, ack.pub + newPub)
  {
    var pub := c.pub(serverPriv);
    assert (pub + oldPub)[|pub|..] == oldPub && (pub + newPub)[|pub|..] == newPub;
  }

  /** In every run, an acknowledgement of an earlier hello, to the same address or any other,
      never completes an attempt made after it, whatever happens in between. */
  lemma OldAckIsRefused(c: Curve, password: string, evs: seq<Event>, ws: seq<World>, i: nat, j: nat, k: nat, serverPriv: Secret)
    requires IsRun(c, password, evs, ws) && i < j < k < |evs|
    requires evs[i].Attempt? && evs[j].Attempt?
    requires evs[k] == AckArrives(evs[j].to, BuildHelloAck(c, password, c.pub(evs[i].priv), serverPriv))
    ensures ws[k + 1] == ws[k]
  {
    if Completes(evs, ws, k) {
      var l := CompletesTheLatest(c, password, evs, ws, k);
      AttemptsDiffer(c, password, evs, ws, i, l);
      AckNamesItsHello(c, password, c.pub(evs[i].priv), c.pub(evs[l].priv), serverPriv);
    }
  }

  /** Client keys that are pending or completed are all different. */
  ghost predicate KeysApart(w: World) {
    && (forall to, to' :: to in w.pending && to' in w.pending && to != to' ==>
          w.pending[to].clientPub != w.pending[to'].clientPub)
    && (forall to, i :: to in w.pending && 0 <= i < |w.byClient| ==> w.byClient[i].1.clientPub != w.pending[to].clientPub)
    && (forall i, j :: 0 <= i < j < |w.byClient| ==> w.byClient[i].1.clientPub != w.byClient[j].1.clientPub)
    && (forall to :: to in w.pending ==> w.pending[to].clientPub in w.clientPubs)
    && (forall i :: 0 <= i < |w.byClient| ==> w.byClient[i].1.clientPub in w.clientPubs)
  }

  /** In every run, no client key completes twice. */
  lemma {:induction false} NoKeyCompletesTwice(c: Curve, password: string, evs: seq<Event>, ws: seq<World>, k: nat)
    requires IsRun(c, password, evs, ws) && k <= |evs|
    ensures KeysApart(ws[k])
  {
    if k > 0 {
      NoKeyCompletesTwice(c, password, evs, ws, k - 1);
      assert Possible(c, password, ws[k - 1], evs[k - 1]) && ws[k] == Step(c, password, ws[k - 1], evs[k - 1]);
    }
  }

  // ---- the client's table ---------------------------------------------------------------------

  class Client {
    var pending: map<Addr, Pending>
    const password: string

    constructor (password: string)
      ensures pending == map[] && this.password == password
    {
      pending := map[];
      this.password := password;
    }

    /** The first half of `attemptHandshake`: remember the key, send the hello. */
    method Begin(c: Curve, to: Addr, priv: Secret) returns (hello: Body)
      modifies `pending
      ensures pending == old(pending)[to := Pending(priv, c.pub(priv))]
      ensures ParseHello(password, hello) == Some(c.pub(priv))
    {
      hello := BuildHello(c, password, priv);
      pending := pending[to := Pending(priv, c.pub(priv))];
    }

    /** `completeHandshake`. */
    method Complete(c: Curve, from: Addr, body: Body) returns (key: Option<SessionKey>)
      modifies `pending
      ensures key.Some? <==> from in old(pending) && ClientAgrees(c, password, old(pending)[from], body).Some?
      ensures key.Some? ==> key.value == ClientAgrees(c, password, old(pending)[from], body).value.key
      ensures pending == if key.Some? then old(pending) - {from} else old(pending)
    {
      if from !in pending { return None; }
      var p := pending[from];
      var serverPub := ParseHelloAck(password, p.clientPub, body);
      if serverPub.None? || |serverPub.value| != KEY_LEN { return None; }
      var shared := c.dh(p.priv, serverPub.value);
      if shared.None? { return None; }
      key := Some(DeriveSessionKey(shared.value, p.clientPub, serverPub.value));
      pending := pending - {from};
    }

    /** The deferred removal when `attemptHandshake` returns. */
    method Finish(to: Addr)
      modifies `pending
      ensures pending == old(pending) - {to}
    {
      pending := pending - {to};
    }
  }
}
