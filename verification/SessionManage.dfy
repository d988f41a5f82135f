// The registry as the program has it: a map from keys to session objects, changed in
// place. Each method does what the registry functions of the World model say.

module SessionManagers {
  import opened World
  import opened PlaySessions

  ghost predicate OneKeyEach<S>(registry: map<Key, S>) {
    forall k, l :: k in registry && l in registry && registry[k] == registry[l] ==> k == l
  }

  lemma {:induction false} CountByKey<S>(registry: map<Key, S>)
    requires OneKeyEach(registry)
    ensures |registry.Values| == |registry|
    decreases |registry|
  {
    if registry != map[] {
      var key :| key in registry;
      var rest := registry - {key};
      assert rest.Keys == registry.Keys - {key};
      CountByKey(rest);
      forall s ensures s in registry.Values <==> s in rest.Values || s == registry[key] {
        if s in registry.Values && s != registry[key] {
          var k :| k in registry && registry[k] == s;
          assert k in rest;
        }
      }
      assert registry.Values == rest.Values + {registry[key]};
    }
  }

  class SessionManage {
    var sessionMap: map<Key, PlaySession>

    constructor ()
      ensures sessionMap == map[]
    {
      sessionMap := map[];
    }

    // The registered sessions that hold the handle.
    ghost function Holding(h: nat): set<PlaySession>
      reads this, sessionMap.Values
    {
      set p | p in sessionMap.Values && p.mediaClient == h
    }

    // Null if there is none.
    method GetPlaySession(key: Key) returns (p: PlaySession?)
      ensures p == if key in sessionMap then sessionMap[key] else null
    {
      if key in sessionMap {
        return sessionMap[key];
      }
      return null;
    }

    // A taken key keeps its session, and the caller is not told.
    method InsertPlaySession(key: Key, p: PlaySession?) returns (ok: bool)
      modifies this
      ensures ok <==> p != null
      ensures sessionMap == if p == null then old(sessionMap) else Registered(old(sessionMap), key, p)
    {
      if p != null {
        if key !in sessionMap {
          sessionMap := sessionMap[key := p];
        }
        return true;
      }
      return false;
    }

    method DelPlaySession(key: Key)
      modifies this
      ensures sessionMap == Unregistered(old(sessionMap), key)
    {
      if key in sessionMap {
        sessionMap := map k | k in sessionMap && k != key :: sessionMap[k];
      }
    }

    // Visits every entry once, in any order, and erases those whose session has the
    // handle.
    method DisconnectPlaySession(h: nat)
      modifies this
      ensures sessionMap == Reclaimed(old(sessionMap), old(Holding(h)))
    {
      ghost var before := sessionMap;
      var left := sessionMap.Keys;
      while left != {}
        invariant left <= sessionMap.Keys <= before.Keys
        invariant forall k :: k in sessionMap ==> sessionMap[k] == before[k]
        invariant forall k :: k in before && k !in left ==> (k in sessionMap <==> before[k].mediaClient != h)
        decreases left
      {
        var key :| key in left;
        if h == sessionMap[key].mediaClient {
          sessionMap := map k | k in sessionMap && k != key :: sessionMap[k];
        }
        left := left - {key};
      }
      assert forall k :: k in before ==> before[k] in before.Values;
    }

    // The number of registered sessions, if no session is registered twice.
    method GetPlaySessionCount() returns (n: nat)
      ensures n == |sessionMap|
      ensures OneKeyEach(sessionMap) ==> n == |sessionMap.Values|
    {
      n := |sessionMap|;
      if OneKeyEach(sessionMap) {
        CountByKey(sessionMap);
      }
    }
  }
}
