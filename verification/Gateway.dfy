// Runs of the whole gateway on objects: any number of PlaySession objects that share the
// network library and the SDK, and the SessionManage that holds them. They do what the
// World model says, so its theorems are theorems about the objects.

module Gateways {
  import opened Bytes
  import opened Network
  import opened Sessions
  import opened World
  import opened Outside
  import opened PlaySessions
  import opened SessionManagers

  // The object is the session, and makes its calls to this library and this SDK.
  ghost predicate Stands(p: PlaySession, s: Session, net: Net, sdk: Sdk)
    reads p, p.buffer
  {
    p.Valid() && p.State() == s && p.net == net && p.sdk == sdk
  }

  // No two objects the same or with the same buffer, all in the pool.
  ghost predicate Apart(objs: map<Id, PlaySession>, pool: set<object>) {
    && (forall id :: id in objs ==> objs[id] in pool && objs[id].buffer in pool)
    && (forall i, j :: i in objs && j in objs && i != j ==> objs[i] != objs[j] && objs[i].buffer != objs[j].buffer)
  }

  // An object for each session.
  ghost predicate Alive(sessions: map<Id, Session>, objs: map<Id, PlaySession>, net: Net, sdk: Sdk, pool: set<object>)
    reads pool
  {
    && objs.Keys == sessions.Keys && Apart(objs, pool)
    && forall id :: id in objs ==> Stands(objs[id], sessions[id], net, sdk)
  }

  // What the registry holds, as objects.
  ghost function Objects(registry: map<Key, Id>, objs: map<Id, PlaySession>): map<Key, PlaySession>
    requires registry.Values <= objs.Keys
  {
    map k | k in registry :: objs[registry[k]]
  }

  // The objects, the registry and the network log are those of the world.
  ghost predicate Mirrors(w: World, objs: map<Id, PlaySession>, manage: SessionManage, net: Net, sdk: Sdk,
                          pool: set<object>)
    reads pool, manage, net
  {
    && manage !in pool && net !in pool
    && Alive(w.sessions, objs, net, sdk, pool) && w.registry.Values <= objs.Keys
    && manage.sessionMap == Objects(w.registry, objs)
    && net.log == AllOnWire(w.log)
  }

  twostate lemma Untouched(p: PlaySession)
    requires old(p.Valid()) && unchanged(p) && unchanged(p.buffer)
    ensures p.Valid() && p.State() == old(p.State())
  {
  }

  // ---------- one operation ----------

  method ActOn(p: PlaySession, op: SessionOp, net: Net, sdk: Sdk, ghost s: Session)
    requires Stands(p, s, net, sdk) && Sendable(s, op)
    modifies p, p.buffer, net, sdk`log
    ensures Stands(p, Perform(s, op).after, net, sdk)
    ensures net.log == old(net.log) + AllOnWire(Perform(s, op).net)
  {
    var _ := p.Do(op);
  }

  method Act(id: Id, op: SessionOp, objs: map<Id, PlaySession>, net: Net, sdk: Sdk,
             ghost sessions: map<Id, Session>, ghost pool: set<object>)
    requires Alive(sessions, objs, net, sdk, pool) && id in objs && Sendable(sessions[id], op)
    modifies pool, net, sdk`log
    ensures Alive(sessions[id := Perform(sessions[id], op).after], objs, net, sdk, pool)
    ensures net.log == old(net.log) + AllOnWire(Perform(sessions[id], op).net)
  {
    ActOn(objs[id], op, net, sdk, sessions[id]);
    forall i | i in objs && i != id ensures Stands(objs[i], sessions[i], net, sdk) {
      Untouched(objs[i]);
    }
  }

  method Make(id: Id, stamp: word32, objs: map<Id, PlaySession>, net: Net, sdk: Sdk,
              ghost sessions: map<Id, Session>, ghost pool: set<object>)
    returns (more: map<Id, PlaySession>, ghost wider: set<object>)
    requires Alive(sessions, objs, net, sdk, pool) && id !in objs
    ensures Alive(sessions[id := NewSession(stamp)], more, net, sdk, wider)
    ensures objs.Keys <= more.Keys && (forall i :: i in objs ==> more[i] == objs[i])
    ensures pool <= wider && fresh(wider - pool)
  {
    var p := new PlaySession(net, sdk, "", stamp, false);
    more, wider := objs[id := p], pool + {p, p.buffer};
  }

  // ---------- the registry ----------

  lemma RegisteredObjects(registry: map<Key, Id>, objs: map<Id, PlaySession>, key: Key, id: Id)
    requires registry.Values <= objs.Keys && id in objs
    ensures Registered(registry, key, id).Values <= objs.Keys
    ensures Registered(Objects(registry, objs), key, objs[id]) == Objects(Registered(registry, key, id), objs)
  {
    forall i | i in Registered(registry, key, id).Values ensures i in objs.Keys {
      assert i == id || i in registry.Values;
    }
  }

  lemma UnregisteredObjects(registry: map<Key, Id>, objs: map<Id, PlaySession>, key: Key)
    requires registry.Values <= objs.Keys
    ensures Unregistered(registry, key).Values <= objs.Keys
    ensures Unregistered(Objects(registry, objs), key) == Objects(Unregistered(registry, key), objs)
  {
  }

  lemma ReclaimedObjects(registry: map<Key, Id>, objs: map<Id, PlaySession>, holders: set<Id>,
                         holding: set<PlaySession>)
    requires registry.Values <= objs.Keys
    requires forall k :: k in registry ==> (registry[k] in holders <==> objs[registry[k]] in holding)
    ensures Reclaimed(registry, holders).Values <= objs.Keys
    ensures Reclaimed(Objects(registry, objs), holding) == Objects(Reclaimed(registry, holders), objs)
  {
  }

  lemma SameObjects(registry: map<Key, Id>, objs: map<Id, PlaySession>, other: map<Id, PlaySession>)
    requires registry.Values <= objs.Keys && registry.Values <= other.Keys
    requires forall id :: id in objs && id in other ==> objs[id] == other[id]
    ensures Objects(registry, objs) == Objects(registry, other)
  {
  }

  // ---------- one operation of the world ----------

  method Create(id: Id, stamp: word32, objs: map<Id, PlaySession>, manage: SessionManage, net: Net, sdk: Sdk,
                ghost w: World, ghost pool: set<object>)
    returns (after: map<Id, PlaySession>, ghost wider: set<object>)
    requires Mirrors(w, objs, manage, net, sdk, pool) && id !in objs
    ensures Mirrors(Step(w, WorldOp.Create(id, stamp)), after, manage, net, sdk, wider)
    ensures pool <= wider && fresh(wider - pool)
  {
    after, wider := Make(id, stamp, objs, net, sdk, w.sessions, pool);
    SameObjects(w.registry, objs, after);
  }

  method Do(id: Id, op: SessionOp, objs: map<Id, PlaySession>, manage: SessionManage, net: Net, sdk: Sdk,
            ghost w: World, ghost pool: set<object>)
    requires Mirrors(w, objs, manage, net, sdk, pool) && Enabled(w, WorldOp.Do(id, op)) && Sendable(w.sessions[id], op)
    modifies pool, net, sdk`log
    ensures Mirrors(Step(w, WorldOp.Do(id, op)), objs, manage, net, sdk, pool)
  {
    AllOnWireAppend(w.log, Perform(w.sessions[id], op).net);
    Act(id, op, objs, net, sdk, w.sessions, pool);
  }

  method Insert(key: Key, id: Id, objs: map<Id, PlaySession>, manage: SessionManage, net: Net, sdk: Sdk,
                ghost w: World, ghost pool: set<object>)
    requires Mirrors(w, objs, manage, net, sdk, pool) && id in objs
    modifies manage
    ensures Mirrors(Step(w, WorldOp.Insert(key, id)), objs, manage, net, sdk, pool)
  {
    RegisteredObjects(w.registry, objs, key, id);
    var _ := manage.InsertPlaySession(key, objs[id]);
  }

  method Delete(key: Key, objs: map<Id, PlaySession>, manage: SessionManage, net: Net, sdk: Sdk,
                ghost w: World, ghost pool: set<object>)
    requires Mirrors(w, objs, manage, net, sdk, pool)
    modifies manage
    ensures Mirrors(Step(w, WorldOp.Delete(key)), objs, manage, net, sdk, pool)
  {
    UnregisteredObjects(w.registry, objs, key);
    manage.DelPlaySession(key);
  }

  method OnClose(h: nat, objs: map<Id, PlaySession>, manage: SessionManage, net: Net, sdk: Sdk,
                 ghost w: World, ghost pool: set<object>)
    requires Mirrors(w, objs, manage, net, sdk, pool)
    modifies manage
    ensures Mirrors(Step(w, WorldOp.OnClose(h)), objs, manage, net, sdk, pool)
  {
    HoldersAreHolding(w, objs, manage, net, sdk, pool, h);
    ReclaimedObjects(w.registry, objs, Holders(w, h), manage.Holding(h));
    manage.DisconnectPlaySession(h);
  }

  lemma HoldersAreHolding(w: World, objs: map<Id, PlaySession>, manage: SessionManage, net: Net, sdk: Sdk,
                          pool: set<object>, h: nat)
    requires Mirrors(w, objs, manage, net, sdk, pool)
    ensures forall k :: k in w.registry ==>
              (w.registry[k] in Holders(w, h) <==> objs[w.registry[k]] in manage.Holding(h))
  {
    forall k | k in w.registry ensures w.registry[k] in Holders(w, h) <==> objs[w.registry[k]] in manage.Holding(h) {
      var id := w.registry[k];
      assert Stands(objs[id], w.sessions[id], net, sdk);
      assert manage.sessionMap[k] == objs[id];
    }
  }

  method Discard(id: Id, disconnect: int, objs: map<Id, PlaySession>, manage: SessionManage, net: Net, sdk: Sdk,
                 ghost w: World, ghost pool: set<object>)
    returns (after: map<Id, PlaySession>)
    requires Mirrors(w, objs, manage, net, sdk, pool) && Enabled(w, WorldOp.Discard(id, disconnect))
    modifies pool, net, sdk`log
    ensures Mirrors(Step(w, WorldOp.Discard(id, disconnect)), after, manage, net, sdk, pool)
  {
    AllOnWireAppend(w.log, Perform(w.sessions[id], Destroy(disconnect)).net);
    Act(id, Destroy(disconnect), objs, net, sdk, w.sessions, pool);
    after := objs - {id};
    SameObjects(w.registry, objs, after);
  }

  // The operation in the world, and what is asked of whoever sends.
  predicate Doable(w: World, op: WorldOp) {
    Enabled(w, op) && (op.Do? ==> Sendable(w.sessions[op.id], op.op))
  }

  method DoOne(op: WorldOp, objs: map<Id, PlaySession>, manage: SessionManage, net: Net, sdk: Sdk,
               ghost w: World, ghost pool: set<object>)
    returns (after: map<Id, PlaySession>, ghost wider: set<object>)
    requires Mirrors(w, objs, manage, net, sdk, pool) && Doable(w, op)
    modifies pool, manage, net, sdk`log
    ensures Mirrors(Step(w, op), after, manage, net, sdk, wider)
    ensures pool <= wider && fresh(wider - pool)
  {
    after, wider := objs, pool;
    match op
    case Create(id, stamp) => after, wider := Create(id, stamp, objs, manage, net, sdk, w, pool);
    case Do(id, o) => Do(id, o, objs, manage, net, sdk, w, pool);
    case Insert(key, id) => Insert(key, id, objs, manage, net, sdk, w, pool);
    case Delete(key) => Delete(key, objs, manage, net, sdk, w, pool);
    case OnClose(h) => OnClose(h, objs, manage, net, sdk, w, pool);
    case Discard(id, disconnect) => after := Discard(id, disconnect, objs, manage, net, sdk, w, pool);
  }

  // ---------- whole runs ----------

  ghost predicate AlwaysDoable(ops: seq<WorldOp>)
    decreases |ops|
  {
    ops == [] ||
    (AlwaysDoable(ops[..|ops| - 1]) && IsRun(ops[..|ops| - 1]) && Doable(At(ops[..|ops| - 1]), ops[|ops| - 1]))
  }

  lemma {:induction false} DoableAt(ops: seq<WorldOp>, k: nat)
    requires AlwaysDoable(ops) && k <= |ops|
    ensures IsRun(ops[..k]) && AlwaysDoable(ops[..k])
    ensures k < |ops| ==> Doable(At(ops[..k]), ops[k])
    decreases |ops|
  {
    if k < |ops| {
      DoableAt(ops[..|ops| - 1], k);
      assert ops[..|ops| - 1][..k] == ops[..k];
      if k == |ops| - 1 {
        assert ops[..k] == ops[..|ops| - 1];
      }
    } else {
      assert ops[..k] == ops;
    }
  }

  // From nothing, any operations in any order: the objects, the registry and the bytes on
  // the network are at every moment those that the World model gives.
  method DoRun(ops: seq<WorldOp>) returns (objs: map<Id, PlaySession>, manage: SessionManage, net: Net, sdk: Sdk,
                                           ghost pool: set<object>)
    requires AlwaysDoable(ops)
    ensures IsRun(ops) && Mirrors(At(ops), objs, manage, net, sdk, pool)
  {
    net := new Net();
    sdk := new Sdk();
    manage := new SessionManage();
    objs, pool := map[], {};
    for k := 0 to |ops|
      invariant IsRun(ops[..k]) && Mirrors(At(ops[..k]), objs, manage, net, sdk, pool)
      invariant fresh(pool) && fresh(manage) && fresh(net) && fresh(sdk)
    {
      DoableAt(ops, k);
      DoableAt(ops, k + 1);
      objs, pool := DoOne(ops[k], objs, manage, net, sdk, At(ops[..k]), pool);
      assert ops[..k + 1][..k] == ops[..k];
    }
    assert ops[..|ops|] == ops;
  }
}
