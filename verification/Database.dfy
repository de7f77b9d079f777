/** The start of the panel as the program does it: statement by statement on the tables. */
module Database {
  import opened Options
  import opened StartUp

  class Tables {
    var users: map<int, User>
    var nextUser: int
    var settings: map<string, string>
    var inbounds: map<int, Option<int>>
    var access: set<(int, int)>
    var nodes: map<int, bool>
    var nextNode: int
    var placements: map<(int, int), Placement>
    var history: set<string>

    ghost function View(): (d: Db)
      reads this
    {
      Db(users, nextUser, settings, inbounds, access, nodes, nextNode, placements, history)
    }

    constructor (d: Db)
      ensures View() == d
    {
      users, nextUser, settings, inbounds := d.users, d.nextUser, d.settings, d.inbounds;
      access, nodes, nextNode := d.access, d.nodes, d.nextNode;
      placements, history := d.placements, d.history;
    }

    method InitUser()
      modifies this
      ensures View() == WithAdmin(old(View()))
    {
      if users == map[] {
        users := users[nextUser := User(true, true, false, "", 1)];
        nextUser := nextUser + 1;
      }
    }

    method MigrateSuperAdmin()
      modifies this
      ensures View() == WithSuper(old(View()))
    {
      if Supers(users) != {} { return; }
      if users.Keys == {} { return; }
      var first := Least(users.Keys);
      users := users[first := users[first].(super := true, enabled := true)];
    }

    method MigrateGlobalTwoFactor()
      modifies this
      ensures View() == WithTwoFactorMoved(old(View()))
    {
      if ENABLE !in settings || settings[ENABLE] != "true" { return; }
      if TOKEN !in settings || settings[TOKEN] == "" { return; }
      if Supers(users) == {} { return; }
      var super := Least(Supers(users));
      if !users[super].twoFactor {
        users := users[super := users[super].(twoFactor := true, token := settings[TOKEN])];
      } else {
        assert users == users[super := users[super]];
      }
      settings := settings[ENABLE := ""][TOKEN := ""];
    }

    method MigrateInboundOwners()
      modifies this
      ensures View() == WithOwners(old(View()))
    {
      if Supers(users) == {} { return; }
      var super := Least(Supers(users));
      inbounds := map id | id in inbounds ::
        if inbounds[id].Some? && inbounds[id].value in users then inbounds[id] else Some(super);
    }

    method MigrateInboundAccess()
      modifies this
      ensures View() == WithGrants(old(View()))
    {
      if access != {} { return; }
      ghost var d := View();
      var todo := inbounds.Keys;
      while todo != {}
        invariant todo <= inbounds.Keys == d.inbounds.Keys
        invariant View() == d.(access := Grants(d, inbounds.Keys - todo))
        decreases todo
      {
        EmptyOrNot(todo);
        var id :| id in todo;
        todo := todo - {id};
        assert inbounds.Keys - todo == (inbounds.Keys - (todo + {id})) + {id};
        var owner := if inbounds[id].Some? then inbounds[id].value else 0;
        if owner > 0 && owner !in Supers(users) {
          access := access + {(owner, id)};
        }
      }
    }

    /** The loop of `seedLocalNode`. */
    method PlaceAll(local: int)
      modifies `placements
      ensures placements == old(placements) + Missing(old(placements), inbounds.Keys, local)
    {
      ghost var was := placements;
      var todo := inbounds.Keys;
      assert was + Missing(was, {}, local) == was;
      while todo != {}
        invariant todo <= inbounds.Keys
        invariant placements == was + Missing(was, inbounds.Keys - todo, local)
        decreases todo
      {
        EmptyOrNot(todo);
        var id :| id in todo;
        OneMorePlaced(was, inbounds.Keys - todo, id, local);
        assert inbounds.Keys - (todo - {id}) == (inbounds.Keys - todo) + {id};
        todo := todo - {id};
        if !Placed(placements, id) {
          placements := placements[(id, local) := Placement(0, true)];
        }
      }
      assert inbounds.Keys - {} == inbounds.Keys;
    }

    method SeedLocalNode()
      modifies this
      ensures View() == LocalNode(old(View()))
    {
      if Locals(nodes) == {} {
        nodes := nodes[nextNode := true];
        nextNode := nextNode + 1;
        assert old(nextNode) in Locals(nodes);
      }
      PlaceAll(Least(Locals(nodes)));
    }

    method RunSeeders(wasEmpty: bool)
      modifies this
      ensures View() == WithHashes(old(View()), wasEmpty)
    {
      if history == {} && wasEmpty {
        history := {SEEDER};
      } else if SEEDER !in history && !wasEmpty {
        ghost var d := View();
        var todo := users.Keys;
        while todo != {}
          invariant todo <= users.Keys == d.users.Keys
          invariant View() == d.(users := users)
          invariant forall id :: id in d.users ==>
            users[id] == if id in todo then d.users[id] else d.users[id].(rounds := d.users[id].rounds + 1)
          decreases todo
        {
          EmptyOrNot(todo);
          var id :| id in todo;
          todo := todo - {id};
          users := users[id := users[id].(rounds := users[id].rounds + 1)];
        }
        assert forall id :: id in d.users ==> users[id] == Rehashed(d.users)[id];
        assert users == Rehashed(d.users);
        history := history + {SEEDER};
      }
    }

    /** `InitDB`: a start, in this order. */
    method Init()
      modifies this
      ensures View() == Started(old(View()))
    {
      var wasEmpty := users == map[];
      InitUser();
      MigrateSuperAdmin();
      MigrateGlobalTwoFactor();
      MigrateInboundOwners();
      MigrateInboundAccess();
      SeedLocalNode();
      RunSeeders(wasEmpty);
    }
  }

  /** One inbound more in a loop that looks at the table as it is by then. */
  lemma OneMorePlaced(ps: map<(int, int), Placement>, ids: set<int>, id: int, n: int)
    requires id !in ids
    ensures var now := ps + Missing(ps, ids, n);
      ps + Missing(ps, ids + {id}, n) == if Placed(now, id) then now else now[(id, n) := Placement(0, true)]
  {
    var now := ps + Missing(ps, ids, n);
    assert Placed(now, id) <==> Placed(ps, id) by {
      if Placed(ps, id) {
        var p :| p in ps.Keys && p.0 == id;
        assert p in now.Keys;
      }
      if Placed(now, id) {
        var p :| p in now.Keys && p.0 == id;
        assert p in ps.Keys;
      }
    }
  }
}
