/** What the panel does to its database at every start (database/db.go): the tables as a value,
    each step as a function on it, and what a start as a whole achieves. */
module StartUp {
  import opened Options

  /** `rounds` counts how often the password was put through bcrypt. */
  datatype User = User(super: bool, enabled: bool, twoFactor: bool, token: string, rounds: nat)

  datatype Placement = Placement(port: int, enabled: bool)

  /** Tables by primary key; `nodes` holds the is_local flag, `placements` is keyed by inbound
      and node, as its unique index has it. */
  datatype Db = Db(
    users: map<int, User>, nextUser: int,
    settings: map<string, string>,
    inbounds: map<int, Option<int>>,
    access: set<(int, int)>,
    nodes: map<int, bool>, nextNode: int,
    placements: map<(int, int), Placement>,
    history: set<string>)

  const ENABLE := "twoFactorEnable"
  const TOKEN := "twoFactorToken"
  const SEEDER := "UserPasswordHash"

  /** The next primary keys are above all that are in use. */
  ghost predicate Sound(d: Db) {
    (forall id :: id in d.users ==> id < d.nextUser) && (forall n :: n in d.nodes ==> n < d.nextNode)
  }

  lemma EmptyOrNot(s: set<int>)
    ensures s == {} || exists a :: a in s
  {
    if forall a :: a !in s { assert s == {}; }
  }

  lemma {:induction false} HasLeast(s: set<int>)
    requires s != {}
    ensures exists x :: x in s && forall y :: y in s ==> x <= y
  {
    EmptyOrNot(s);
    var a :| a in s;
    if s != {a} {
      HasLeast(s - {a});
      var b :| b in s - {a} && forall y :: y in s - {a} ==> b <= y;
      var x := if a <= b then a else b;
      assert x in s && forall y :: y in s ==> x <= y by {
        forall y | y in s ensures x <= y { if y != a { assert y in s - {a}; } }
      }
    }
  }

  /** The first row in order of id. */
  function Least(s: set<int>): (x: int)
    requires s != {}
    ensures x in s && forall y :: y in s ==> x <= y
  {
    HasLeast(s);
    var x :| x in s && forall y :: y in s ==> x <= y;
    x
  }

  function Supers(users: map<int, User>): (s: set<int>) {
    set id | id in users && users[id].super
  }

  function Locals(nodes: map<int, bool>): (s: set<int>) {
    set n | n in nodes && nodes[n]
  }

  // ---- The steps ----

  function WithAdmin(d: Db): (r: Db) {
    if d.users != map[] then d
    else d.(users := map[d.nextUser := User(true, true, false, "", 1)], nextUser := d.nextUser + 1)
  }

  function WithSuper(d: Db): (r: Db) {
    if Supers(d.users) != {} || d.users.Keys == {} then d
    else
      var id := Least(d.users.Keys);
      d.(users := d.users[id := d.users[id].(super := true, enabled := true)])
  }

  predicate SharedSecret(d: Db) {
    ENABLE in d.settings && d.settings[ENABLE] == "true" && TOKEN in d.settings && d.settings[TOKEN] != ""
  }

  function WithTwoFactorMoved(d: Db): (r: Db) {
    if !SharedSecret(d) || Supers(d.users) == {} then d
    else
      var id := Least(Supers(d.users));
      var u := d.users[id];
      var u' := if u.twoFactor then u else u.(twoFactor := true, token := d.settings[TOKEN]);
      d.(users := d.users[id := u'], settings := d.settings[ENABLE := ""][TOKEN := ""])
  }

  predicate Owned(d: Db, id: int)
    requires id in d.inbounds
  {
    d.inbounds[id].Some? && d.inbounds[id].value in d.users
  }

  function WithOwners(d: Db): (r: Db) {
    if Supers(d.users) == {} then d
    else
      var super := Least(Supers(d.users));
      d.(inbounds := map id | id in d.inbounds :: if Owned(d, id) then d.inbounds[id] else Some(super))
  }

  /** The inbound is granted to its owner: there is one and it is no super admin. */
  predicate Granted(d: Db, id: int)
    requires id in d.inbounds
  {
    d.inbounds[id].Some? && d.inbounds[id].value > 0 && d.inbounds[id].value !in Supers(d.users)
  }

  function Grants(d: Db, ids: set<int>): (s: set<(int, int)>)
    requires ids <= d.inbounds.Keys
  {
    set id | id in ids && Granted(d, id) :: (d.inbounds[id].value, id)
  }

  function WithGrants(d: Db): (r: Db) {
    if d.access != {} then d else d.(access := Grants(d, d.inbounds.Keys))
  }

  predicate Placed(placements: map<(int, int), Placement>, id: int) {
    exists p :: p in placements.Keys && p.0 == id
  }

  function WithLocalNode(d: Db): (r: Db) {
    if Locals(d.nodes) != {} then d
    else d.(nodes := d.nodes[d.nextNode := true], nextNode := d.nextNode + 1)
  }

  /** Placements on the node `n` for those of `ids` that have none. */
  function Missing(placements: map<(int, int), Placement>, ids: set<int>, n: int): (m: map<(int, int), Placement>) {
    map id | id in ids && !Placed(placements, id) :: (id, n) := Placement(0, true)
  }

  function WithPlacements(d: Db): (r: Db)
    requires Locals(d.nodes) != {}
  {
    d.(placements := d.placements + Missing(d.placements, d.inbounds.Keys, Least(Locals(d.nodes))))
  }

  function Rehashed(users: map<int, User>): (r: map<int, User>) {
    map id | id in users :: users[id].(rounds := users[id].rounds + 1)
  }

  function WithHashes(d: Db, wasEmpty: bool): (r: Db) {
    if d.history == {} && wasEmpty then d.(history := {SEEDER})
    else if SEEDER !in d.history && !wasEmpty then
      d.(users := Rehashed(d.users), history := d.history + {SEEDER})
    else d
  }

  /** The accounts, then the tables that refer to them, then the nodes. */
  function Accounts(d: Db): (r: Db) {
    WithTwoFactorMoved(WithSuper(WithAdmin(d)))
  }

  function Tables(d: Db): (r: Db) {
    WithGrants(WithOwners(d))
  }

  function LocalNode(d: Db): (r: Db) {
    assert Locals(d.nodes) == {} ==> d.nextNode in Locals(WithLocalNode(d).nodes);
    WithPlacements(WithLocalNode(d))
  }

  /** `InitDB` from the opened database on. */
  function Started(d: Db): (r: Db) {
    WithHashes(LocalNode(Tables(Accounts(d))), d.users == map[])
  }

  // ---- What each group of steps achieves ----

  ghost predicate AdminDone(d: Db, r: Db) {
    r.users.Keys != {} && r == d.(users := r.users, nextUser := r.nextUser)
    && (d.users != map[] ==> r == d)
    && (d.users == map[] ==>
      r.users.Keys == {d.nextUser} && r.nextUser == d.nextUser + 1
      && var u := r.users[d.nextUser]; u.super && u.enabled && !u.twoFactor && u.rounds == 1)
  }

  lemma NoKeys(users: map<int, User>)
    ensures users.Keys == {} ==> users == map[]
  {
  }

  lemma AdminAchieves(d: Db)
    ensures AdminDone(d, WithAdmin(d))
  {
    NoKeys(d.users);
    assert d.nextUser in WithAdmin(d).users.Keys || d.users != map[];
  }

  /** The super admins, and for want of any the account with the lowest id. */
  function FirstSupers(users: map<int, User>): (s: set<int>)
    requires users.Keys != {}
    ensures s != {}
  {
    if Supers(users) != {} then Supers(users) else {Least(users.Keys)}
  }

  /** The same accounts, up to the role and the enabling of the one that is promoted. */
  ghost predicate SuperDone(d: Db, r: Db) {
    d.users.Keys != {} && r == d.(users := r.users) && r.users.Keys == d.users.Keys
    && Supers(r.users) == FirstSupers(d.users)
    && forall id :: id in d.users ==>
      r.users[id] == d.users[id].(super := r.users[id].super, enabled := r.users[id].enabled)
      && (r.users[id].enabled <==> d.users[id].enabled || id in FirstSupers(d.users) - Supers(d.users))
  }

  lemma SuperAchieves(d: Db)
    requires d.users.Keys != {}
    ensures SuperDone(d, WithSuper(d))
  {
    if Supers(d.users) == {} {
      var id := Least(d.users.Keys);
      assert forall k :: k in d.users ==> k !in Supers(d.users);
      assert Supers(WithSuper(d).users) == {id};
    }
  }

  /** The same accounts, up to second factors. */
  ghost predicate MoveDone(d: Db, r: Db)
    requires Supers(d.users) != {}
  {
    r == d.(users := r.users, settings := r.settings) && r.users.Keys == d.users.Keys
    && Supers(r.users) == Supers(d.users) && !SharedSecret(r)
    && (forall id :: id in d.users ==>
      r.users[id] == d.users[id].(twoFactor := r.users[id].twoFactor, token := r.users[id].token))
    && (SharedSecret(d) ==>
      r.settings == d.settings[ENABLE := ""][TOKEN := ""]
      && SecretMoved(d.users, d.settings[TOKEN], r.users))
  }

  lemma MoveAchieves(d: Db)
    requires Supers(d.users) != {}
    ensures MoveDone(d, WithTwoFactorMoved(d))
  {
    assert Least(Supers(d.users)) in d.users;
    assert Supers(WithTwoFactorMoved(d).users) == Supers(d.users);
  }

  /** Where the shared second factor `token` of `users` has gone. */
  ghost predicate SecretMoved(users: map<int, User>, token: string, r: map<int, User>) {
    Supers(r) != {}
    && var id := Least(Supers(r));
      id in users && r[id].twoFactor && r[id].token == if users[id].twoFactor then users[id].token else token
  }

  ghost predicate AccountsDone(d: Db, r: Db) {
    Supers(r.users) != {} && !SharedSecret(r) && d.users.Keys <= r.users.Keys
    && (d.users == map[] ==>
      r.users.Keys == {d.nextUser} && r.users[d.nextUser].super && r.users[d.nextUser].enabled && r.users[d.nextUser].rounds == 1)
    && (d.users.Keys != {} ==>
      r.users.Keys == d.users.Keys && Supers(r.users) == FirstSupers(d.users)
      && forall id :: id in d.users ==>
        (r.users[id].enabled <==> d.users[id].enabled || id in FirstSupers(d.users) - Supers(d.users)))
    && (d.users != map[] && SharedSecret(d) ==> SecretMoved(d.users, d.settings[TOKEN], r.users))
    && (SharedSecret(d) ==> r.settings == d.settings[ENABLE := ""][TOKEN := ""])
    && r == d.(users := r.users, nextUser := r.nextUser, settings := r.settings)
  }

  lemma AccountStages(d: Db, a: Db, s: Db, r: Db)
    requires AdminDone(d, a) && SuperDone(a, s) && MoveDone(s, r)
    ensures AccountsDone(d, r)
  {
    if d.users != map[] && SharedSecret(d) { assert SecretMoved(s.users, d.settings[TOKEN], r.users); }
  }

  lemma AccountsAchieve(d: Db)
    ensures AccountsDone(d, Accounts(d))
  {
    var a := WithAdmin(d);
    var s := WithSuper(a);
    AdminAchieves(d);
    SuperAchieves(a);
    MoveAchieves(s);
    AccountStages(d, a, s, WithTwoFactorMoved(s));
  }

  ghost predicate TablesDone(d: Db, r: Db)
    requires Supers(d.users) != {}
  {
    r == d.(inbounds := r.inbounds, access := r.access) && r.inbounds.Keys == d.inbounds.Keys
    && (forall id :: id in d.inbounds ==>
      r.inbounds[id] == if Owned(d, id) then d.inbounds[id] else Some(Least(Supers(d.users))))
    && r.access == if d.access != {} then d.access else Grants(r, r.inbounds.Keys)
  }

  lemma TablesAchieve(d: Db)
    requires Supers(d.users) != {}
    ensures TablesDone(d, Tables(d))
  {
  }

  ghost predicate NodesDone(d: Db, r: Db) {
    r == d.(nodes := r.nodes, nextNode := r.nextNode, placements := r.placements)
    && Locals(r.nodes) != {}
    && r.nodes == (if Locals(d.nodes) != {} then d.nodes else d.nodes[d.nextNode := true])
    && r.nextNode == (if Locals(d.nodes) != {} then d.nextNode else d.nextNode + 1)
    && (forall id :: id in d.inbounds ==> Placed(r.placements, id))
    && (forall p :: p in d.placements ==> p in r.placements && r.placements[p] == d.placements[p])
    && (forall p :: p in r.placements && p !in d.placements ==>
      p.0 in d.inbounds && !Placed(d.placements, p.0) && p.1 == Least(Locals(r.nodes))
      && r.placements[p] == Placement(0, true))
  }

  lemma LocalNodeAchieves(d: Db)
    ensures NodesDone(d, LocalNode(d))
  {
    var w := WithLocalNode(d);
    assert Locals(d.nodes) == {} ==> d.nextNode in Locals(w.nodes);
    var n := Least(Locals(w.nodes));
    var m := Missing(d.placements, d.inbounds.Keys, n);
    forall id | id in d.inbounds ensures Placed(LocalNode(d).placements, id) {
      if Placed(d.placements, id) {
        var p :| p in d.placements.Keys && p.0 == id;
        assert p in LocalNode(d).placements.Keys;
      } else {
        assert (id, n) in m;
        assert (id, n) in LocalNode(d).placements.Keys;
      }
    }
  }

  ghost predicate HashesDone(d: Db, r: Db) {
    r == d.(users := r.users, history := r.history) && r.users.Keys == d.users.Keys
    && (forall id :: id in d.users ==> r.users[id] == d.users[id].(rounds := r.users[id].rounds))
    && Supers(r.users) == Supers(d.users)
  }

  lemma HashesAchieve(d: Db, wasEmpty: bool)
    ensures HashesDone(d, WithHashes(d, wasEmpty))
  {
    assert Supers(Rehashed(d.users)) == Supers(d.users);
  }

  /** The states a start goes through. */
  ghost predicate Stages(d: Db, a: Db, t: Db, e: Db, r: Db) {
    AccountsDone(d, a) && TablesDone(a, t) && NodesDone(t, e) && HashesDone(e, r)
  }

  lemma StartStages(d: Db)
    ensures var a := Accounts(d); var t := Tables(a); var e := LocalNode(t);
      Stages(d, a, t, e, Started(d))
  {
    AccountsAchieve(d);
    TablesAchieve(Accounts(d));
    LocalNodeAchieves(Tables(Accounts(d)));
    HashesAchieve(LocalNode(Tables(Accounts(d))), d.users == map[]);
  }

  // ---- A start as a whole ----

  /** Nothing is left for a start to do but hash passwords. */
  ghost predicate Settled(d: Db) {
    Supers(d.users) != {} && !SharedSecret(d)
    && (forall id :: id in d.inbounds ==> Owned(d, id) && Placed(d.placements, id))
    && (d.access == {} ==> Grants(d, d.inbounds.Keys) == {})
    && Locals(d.nodes) != {}
  }

  lemma SettledAccounts(d: Db)
    requires Settled(d)
    ensures d.users != map[] && Accounts(d) == d
  {
    assert Least(Supers(d.users)) in d.users;
  }

  lemma SettledTables(d: Db)
    requires Settled(d)
    ensures Tables(d) == d
  {
    assert WithOwners(d).inbounds == d.inbounds;
  }

  lemma SettledNodes(d: Db)
    requires Settled(d)
    ensures LocalNode(d) == d
  {
    assert Missing(d.placements, d.inbounds.Keys, Least(Locals(d.nodes))) == map[];
  }

  lemma StagesSettle(d: Db, a: Db, t: Db, e: Db, r: Db)
    requires Stages(d, a, t, e, r)
    ensures Settled(r)
  {
    assert Grants(r, r.inbounds.Keys) == Grants(t, t.inbounds.Keys);
    assert Least(Supers(a.users)) in a.users;
    assert forall id :: id in t.inbounds ==> Owned(t, id);
  }

  /** A start from a settled state only hashes passwords. */
  lemma SettledStart(d: Db)
    requires Settled(d)
    ensures Started(d) == WithHashes(d, false)
  {
    SettledAccounts(d);
    SettledTables(d);
    SettledNodes(d);
  }

  /** The one state in which a start leaves the next one something to do: no users, but a
      history of seeders without the password seeder. */
  predicate LosesSeederMark(d: Db) {
    d.users == map[] && d.history != {} && SEEDER !in d.history
  }

  lemma StagesKeepHistory(d: Db, a: Db, t: Db, e: Db, r: Db)
    requires Stages(d, a, t, e, r)
    ensures e.history == d.history
  {
  }

  lemma HashMark(e: Db, wasEmpty: bool)
    ensures SEEDER in WithHashes(e, wasEmpty).history <==> SEEDER in e.history || !wasEmpty || e.history == {}
  {
  }

  lemma SeederMark(d: Db)
    ensures SEEDER in Started(d).history <==> !LosesSeederMark(d)
  {
    StartStages(d);
    var e := LocalNode(Tables(Accounts(d)));
    StagesKeepHistory(d, Accounts(d), Tables(Accounts(d)), e, Started(d));
    HashMark(e, d.users == map[]);
  }

  /** Two starts are one start, except from that state. */
  lemma TwiceIsOnce(d: Db)
    ensures Started(Started(d)) == Started(d) <==> !LosesSeederMark(d)
  {
    var r := Started(d);
    StartStages(d);
    StagesSettle(d, Accounts(d), Tables(Accounts(d)), LocalNode(Tables(Accounts(d))), r);
    SeederMark(d);
    HashedOnceMore(r);
  }

  lemma HashedOnceMore(r: Db)
    requires Settled(r)
    ensures Started(r) == r <==> SEEDER in r.history
  {
    SettledStart(r);
    var k := Least(Supers(r.users));
    assert k in r.users && Rehashed(r.users)[k] != r.users[k];
  }

  /** From that state the second start hashes the hash of the default administrator's password. */
  lemma MarkIsLost(d: Db)
    requires LosesSeederMark(d)
    ensures Started(d).users.Keys == {d.nextUser} && Started(d).users[d.nextUser].rounds == 1
    ensures Started(Started(d)).users == Rehashed(Started(d).users)
  {
    var e := LocalNode(Tables(Accounts(d)));
    StartStages(d);
    assert Started(d) == e;
    StagesSettle(d, Accounts(d), Tables(Accounts(d)), e, e);
    SettledStart(e);
  }

  /** How often a password is hashed: once for the default administrator, and once more for
      every account there was if the password seeder is not on record. */
  lemma RoundsAfterStart(d: Db)
    ensures d.users == map[] ==> Started(d).users.Keys == {d.nextUser} && Started(d).users[d.nextUser].rounds == 1
    ensures d.users != map[] ==>
      Started(d).users.Keys == d.users.Keys
      && forall id :: id in d.users ==>
        Started(d).users[id].rounds == d.users[id].rounds + if SEEDER in d.history then 0 else 1
  {
    var a := Accounts(d);
    RoundsOfAccounts(d);
    AccountsAchieve(d);
    TablesAchieve(a);
    LocalNodeAchieves(Tables(a));
  }

  lemma RoundsOfAccounts(d: Db)
    ensures Accounts(d).history == d.history
    ensures d.users == map[] ==> Accounts(d).users.Keys == {d.nextUser} && Accounts(d).users[d.nextUser].rounds == 1
    ensures d.users != map[] ==>
      Accounts(d).users.Keys == d.users.Keys && forall id :: id in d.users ==> Accounts(d).users[id].rounds == d.users[id].rounds
  {
    AdminAchieves(d);
    SuperAchieves(WithAdmin(d));
    MoveAchieves(WithSuper(WithAdmin(d)));
    NoKeys(d.users);
  }

  ghost predicate OwnersAchieved(d: Db, r: Db) {
    Supers(r.users) != {}
    && (d.users.Keys != {} ==> r.users.Keys == d.users.Keys && Supers(r.users) == FirstSupers(d.users))
    && (d.users.Keys == {} ==> r.users.Keys == {d.nextUser})
    && r.inbounds.Keys == d.inbounds.Keys
    && (forall id :: id in d.inbounds ==> Owned(r, id))
    && (forall id :: id in d.inbounds ==>
      r.inbounds[id] == if Owned(d, id) then d.inbounds[id] else Some(Least(Supers(r.users))))
  }

  ghost predicate PlacementsAchieved(d: Db, r: Db) {
    Locals(r.nodes) != {}
    && (forall n :: n in d.nodes ==> n in r.nodes && r.nodes[n] == d.nodes[n])
    && (forall id :: id in d.inbounds ==> Placed(r.placements, id))
    && (forall p :: p in d.placements ==> p in r.placements && r.placements[p] == d.placements[p])
    && (forall p :: p in r.placements && p !in d.placements ==>
      p.0 in d.inbounds && !Placed(d.placements, p.0) && p.1 == Least(Locals(r.nodes))
      && r.placements[p] == Placement(0, true))
  }

  lemma StagesOwners(d: Db, a: Db, t: Db, e: Db, r: Db)
    requires Stages(d, a, t, e, r)
    ensures OwnersAchieved(d, r)
  {
    NoKeys(d.users);
    assert Least(Supers(a.users)) in a.users;
    assert r.users.Keys == a.users.Keys && r.inbounds == t.inbounds && Supers(r.users) == Supers(a.users);
    if d.users.Keys != {} { assert forall id :: id in d.inbounds ==> (Owned(a, id) <==> Owned(d, id)); }
  }

  lemma StagesPlacements(d: Db, a: Db, t: Db, e: Db, r: Db)
    requires Sound(d) && Stages(d, a, t, e, r)
    ensures PlacementsAchieved(d, r)
  {
    assert d.nextNode !in d.nodes;
    assert t.nodes == d.nodes && t.placements == d.placements && t.inbounds.Keys == d.inbounds.Keys;
    assert r.nodes == e.nodes && r.placements == e.placements;
  }

  /** After a start there is a super admin (the account with the lowest id is promoted only if
      there was none); every inbound has an existing owner and a placement; owners that exist,
      placements and nodes stay as they are; the first super admin gets the other inbounds, and
      new placements are only for inbounds that had none, on the first local node. */
  lemma StartAchieves(d: Db)
    requires Sound(d)
    ensures OwnersAchieved(d, Started(d)) && PlacementsAchieved(d, Started(d))
  {
    var a := Accounts(d);
    var t := Tables(a);
    var e := LocalNode(t);
    StartStages(d);
    StagesOwners(d, a, t, e, Started(d));
    StagesPlacements(d, a, t, e, Started(d));
  }

  /** A shared second factor ends up with the first super admin, unless that account had one
      of its own, which it then keeps; the settings no longer hold it. */
  lemma SecretIsMoved(d: Db)
    requires d.users != map[] && ENABLE in d.settings && d.settings[ENABLE] == "true"
    requires TOKEN in d.settings && d.settings[TOKEN] != ""
    ensures SecretMoved(d.users, d.settings[TOKEN], Started(d).users)
    ensures Started(d).settings == d.settings[ENABLE := ""][TOKEN := ""]
  {
    StartStages(d);
    SecretSurvives(d, LocalNode(Tables(Accounts(d))), Started(d));
  }

  /** Without a shared second factor that is switched on, settings and second factors stay. */
  lemma NoSecretStays(d: Db, id: int)
    requires !(ENABLE in d.settings && d.settings[ENABLE] == "true") || !(TOKEN in d.settings && d.settings[TOKEN] != "")
    ensures Started(d).settings == d.settings
    ensures id in d.users ==>
      id in Started(d).users && Started(d).users[id].twoFactor == d.users[id].twoFactor
      && Started(d).users[id].token == d.users[id].token
  {
    var a := WithAdmin(d);
    AdminAchieves(d);
    SuperAchieves(a);
    assert Accounts(d) == WithSuper(a);
    TablesAchieve(Accounts(d));
    LocalNodeAchieves(Tables(Accounts(d)));
    HashesAchieve(LocalNode(Tables(Accounts(d))), d.users == map[]);
  }

  lemma SecretSurvives(d: Db, e: Db, r: Db)
    requires HashesDone(e, r) && SharedSecret(d) && SecretMoved(d.users, d.settings[TOKEN], e.users)
    ensures SecretMoved(d.users, d.settings[TOKEN], r.users)
  {
    assert Least(Supers(e.users)) in e.users;
  }

  /** With an empty access table a start gives every inbound to the ordinary administrator who
      owns it and to nobody else; a table with any entry is left alone. */
  lemma OwnersGetAccess(d: Db, user: int, id: int)
    ensures d.access != {} ==> Started(d).access == d.access
    ensures d.access == {} ==>
      ((user, id) in Started(d).access <==>
       id in Started(d).inbounds && Started(d).inbounds[id] == Some(user) && user > 0 && user !in Supers(Started(d).users))
  {
    StartStages(d);
    StagesAccess(d, Accounts(d), Tables(Accounts(d)), LocalNode(Tables(Accounts(d))), Started(d), user, id);
  }

  lemma StagesAccess(d: Db, a: Db, t: Db, e: Db, r: Db, user: int, id: int)
    requires Stages(d, a, t, e, r)
    ensures d.access != {} ==> r.access == d.access
    ensures d.access == {} ==>
      ((user, id) in r.access <==>
       id in r.inbounds && r.inbounds[id] == Some(user) && user > 0 && user !in Supers(r.users))
  {
    if d.access == {} {
      assert r.access == Grants(t, t.inbounds.Keys);
      if id in d.inbounds { assert Granted(t, id) ==> (t.inbounds[id].value, id) in r.access; }
    }
  }
}
