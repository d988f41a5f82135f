// All sessions together: the live sessions, the registry that finds them by key and
// reclaims them by network handle, and the network log they share.

// Discipline of network handles, stated on the log alone.
module HandleLog {
  import opened Network

  type Log = seq<Event<Batch>>

  // The call uses the handle.
  predicate Uses(e: Event<Batch>, h: nat) {
    !e.Connected? && e.handle == h
  }

  // The call ends the life of the handle: a disconnect that succeeded or a write that
  // failed.
  predicate Ends(e: Event<Batch>, h: nat) {
    e.handle == h && match e
                     case Connected(_) => false
                     case Wrote(_, _, answer) => answer != 0
                     case Disconnected(_, answer) => answer == 0
  }

  predicate Issued(log: Log, h: nat) {
    exists i :: 0 <= i < |log| && log[i] == Connected(h)
  }

  predicate Ended(log: Log, h: nat) {
    exists i :: 0 <= i < |log| && Ends(log[i], h)
  }

  predicate Usable(log: Log, h: nat) {
    h != 0 && Issued(log, h) && !Ended(log, h)
  }

  // Every use, at its time, is of a handle that was issued, is not 0 and has not ended.
  ghost predicate Disciplined(log: Log) {
    forall i :: 0 <= i < |log| && !log[i].Connected? ==> Usable(log[..i], log[i].handle)
  }

  // Read the other way: no write or disconnect of a handle comes after its successful
  // disconnect or failed write, no handle is disconnected successfully twice, and
  // handle 0 is never used.
  lemma DisciplineMeans(log: Log, i: nat, j: nat, h: nat)
    requires Disciplined(log) && i < |log| && j < |log|
    ensures i < j && Ends(log[i], h) ==> !Uses(log[j], h)
    ensures log[i] == Disconnected(h, 0) && log[j] == Disconnected(h, 0) ==> i == j
    ensures !Uses(log[i], 0)
    ensures Uses(log[j], h) ==> exists k :: 0 <= k < j && log[k] == Connected(h)
  {
    if i < j && Ends(log[i], h) {
      assert log[..j][i] == log[i];
      assert Ended(log[..j], h);
    }
    if j < i && Ends(log[j], h) {
      assert log[..i][j] == log[j];
      assert Ended(log[..i], h);
    }
    if Uses(log[j], h) {
      assert Usable(log[..j], h);
      var k :| 0 <= k < |log[..j]| && log[..j][k] == Connected(h);
      assert log[k] == Connected(h);
    }
  }

  lemma IssuedSnoc(log: Log, e: Event<Batch>, h: nat)
    ensures Issued(log + [e], h) <==> Issued(log, h) || e == Connected(h)
    ensures Ended(log + [e], h) <==> Ended(log, h) || Ends(e, h)
  {
    var after := log + [e];
    assert after[|log|] == e;
    assert forall i :: 0 <= i < |log| ==> after[i] == log[i];
    if Issued(log, h) {
      var i :| 0 <= i < |log| && log[i] == Connected(h);
      assert after[i] == Connected(h);
    }
    if Ended(log, h) {
      var i :| 0 <= i < |log| && Ends(log[i], h);
      assert Ends(after[i], h);
    }
  }

  lemma DisciplinedSnoc(log: Log, e: Event<Batch>)
    requires Disciplined(log) && (e.Connected? || Usable(log, e.handle))
    ensures Disciplined(log + [e])
  {
    var after := log + [e];
    forall i | 0 <= i < |after| && !after[i].Connected? ensures Usable(after[..i], after[i].handle) {
      assert after[..i] == if i < |log| then log[..i] else log;
    }
  }
}

module World {
  import opened Bytes
  import opened Framing
  import opened Network
  import opened SendBuffer
  import opened Sessions
  import opened HandleLog

  type Id = nat
  type Key = string

  datatype World = World(sessions: map<Id, Session>, registry: map<Key, Id>, log: Log)

  // Create and Discard bracket the life of a session; a session is only discarded when
  // the registry does not hold it. OnClose is the network library's report that the
  // connection with this handle is gone.
  datatype WorldOp =
    | Create(id: Id, stamp: word32)
    | Do(id: Id, op: SessionOp)
    | Insert(key: Key, id: Id)
    | Delete(key: Key)
    | OnClose(handle: nat)
    | Discard(id: Id, disconnect: int)

  const NEW_WORLD := World(map[], map[], [])

  // ---------- the registry ----------

  // A key that is taken keeps its session.
  function Registered<S>(registry: map<Key, S>, key: Key, session: S): map<Key, S> {
    if key in registry then registry else registry[key := session]
  }

  function Unregistered<S>(registry: map<Key, S>, key: Key): map<Key, S> {
    registry - {key}
  }

  // The intended effect of the disconnect loop: every entry whose session is in the set
  // of those that hold the handle goes.
  function Reclaimed<S(==)>(registry: map<Key, S>, holders: set<S>): map<Key, S> {
    map k | k in registry && registry[k] !in holders :: registry[k]
  }

  // The handle a session holds, 0 if it holds none.
  function ClientOf(w: World, id: Id): nat {
    if id in w.sessions then w.sessions[id].sender.client else 0
  }

  function Holders(w: World, h: nat): set<Id> {
    set id | id in w.sessions && ClientOf(w, id) == h
  }

  // ---------- steps ----------

  // What callers and the network library do: connects yield new non-zero handles, and
  // only live sessions act or are inserted.
  predicate Enabled(w: World, op: WorldOp) {
    match op
    case Create(id, _) => id !in w.sessions
    case Do(id, op) =>
      && id in w.sessions && !op.Destroy?
      && (op.Connect? && op.result == 0 ==> op.handle != 0 && !Issued(w.log, op.handle))
    case Insert(_, id) => id in w.sessions
    case Discard(id, _) => id in w.sessions && id !in w.registry.Values
    case _ => true
  }

  function Step(w: World, op: WorldOp): World
    requires Enabled(w, op)
  {
    match op
    case Create(id, stamp) => w.(sessions := w.sessions[id := NewSession(stamp)])
    case Do(id, op) =>
      var e := Perform(w.sessions[id], op);
      w.(sessions := w.sessions[id := e.after], log := w.log + e.net)
    case Insert(key, id) => w.(registry := Registered(w.registry, key, id))
    case Delete(key) => w.(registry := Unregistered(w.registry, key))
    case OnClose(handle) => w.(registry := Reclaimed(w.registry, Holders(w, handle)))
    case Discard(id, disconnect) =>
      var e := Perform(w.sessions[id], Destroy(disconnect));
      w.(sessions := w.sessions - {id}, log := w.log + e.net)
  }

  // A run from the empty world.
  ghost predicate IsRun(ops: seq<WorldOp>)
    decreases |ops|, 0
  {
    ops == [] || (IsRun(ops[..|ops| - 1]) && Enabled(At(ops[..|ops| - 1]), ops[|ops| - 1]))
  }

  ghost function At(ops: seq<WorldOp>): World
    requires IsRun(ops)
    decreases |ops|, 1
  {
    if ops == [] then NEW_WORLD else Step(At(ops[..|ops| - 1]), ops[|ops| - 1])
  }

  // ---------- invariant ----------

  ghost predicate Inv(w: World) {
    && Disciplined(w.log)
    && (forall id :: ClientOf(w, id) != 0 ==> Usable(w.log, ClientOf(w, id)))
    && (forall i, j :: ClientOf(w, i) != 0 && ClientOf(w, i) == ClientOf(w, j) ==> i == j)
    && w.registry.Values <= w.sessions.Keys
  }

  // What one operation of a session can do to the network and to its handle.
  lemma SessionStep(s: Session, op: SessionOp)
    ensures var e, h := Perform(s, op), s.sender.client;
            var h' := e.after.sender.client;
            || (e.net == [] && (if op.Connect? then op.result != 0 && h' == 0 else h' == h))
            || (|e.net| == 1 && !op.Connect? && h != 0 && Uses(e.net[0], h) &&
                h' == if Ends(e.net[0], h) then 0 else h)
            || (op.Connect? && op.result == 0 && e.net == [Connected(op.handle)] && h' == op.handle)
  {
  }

  lemma UsableSnoc(log: Log, e: Event<Batch>, h: nat)
    ensures Usable(log, h) && !Ends(e, h) ==> Usable(log + [e], h)
    ensures h != 0 && e == Connected(h) && !Ended(log, h) ==> Usable(log + [e], h)
  {
    IssuedSnoc(log, e, h);
  }

  // Only issued handles end.
  lemma {:induction false} EndedWasIssued(log: Log, h: nat)
    requires Disciplined(log) && Ended(log, h)
    ensures Issued(log, h)
  {
    var i :| 0 <= i < |log| && Ends(log[i], h);
    assert Usable(log[..i], h);
    var k :| 0 <= k < i && log[..i][k] == Connected(h);
    assert log[k] == Connected(h);
  }

  // One session acts (and possibly goes away).
  lemma ActKeepsInv(w: World, id: Id, op: SessionOp, w': World)
    requires Inv(w) && id in w.sessions
    requires op.Connect? && op.result == 0 ==> op.handle != 0 && !Issued(w.log, op.handle)
    requires w'.log == w.log + Perform(w.sessions[id], op).net && w'.registry == w.registry
    requires w'.sessions == w.sessions[id := Perform(w.sessions[id], op).after]
    ensures Inv(w')
  {
    var s := w.sessions[id];
    var e := Perform(s, op);
    SessionStep(s, op);
    assert ClientOf(w, id) == s.sender.client;
    assert forall i :: ClientOf(w', i) == if i == id then e.after.sender.client else ClientOf(w, i);
    if e.net == [] {
      assert w'.log == w.log;
    } else {
      var event := e.net[0];
      assert e.net == [event];
      DisciplinedSnoc(w.log, event);
      if op.Connect? && Ended(w.log, op.handle) {
        EndedWasIssued(w.log, op.handle);
      }
      forall i | ClientOf(w', i) != 0 ensures Usable(w'.log, ClientOf(w', i)) {
        UsableSnoc(w.log, event, ClientOf(w', i));
        assert i != id ==> Usable(w.log, ClientOf(w, i));
      }
    }
  }

  lemma DropKeepsInv(w: World, id: Id)
    requires Inv(w) && id !in w.registry.Values
    ensures Inv(w.(sessions := w.sessions - {id}))
  {
    var w' := w.(sessions := w.sessions - {id});
    assert forall i :: ClientOf(w', i) == if i == id then 0 else ClientOf(w, i);
  }

  lemma StepKeepsInv(w: World, op: WorldOp)
    requires Inv(w) && Enabled(w, op)
    ensures Inv(Step(w, op))
  {
    match op
    case Do(id, o) => ActKeepsInv(w, id, o, Step(w, op));
    case Discard(id, disconnect) =>
      var e := Perform(w.sessions[id], Destroy(disconnect));
      var v := World(w.sessions[id := e.after], w.registry, w.log + e.net);
      ActKeepsInv(w, id, Destroy(disconnect), v);
      DropKeepsInv(v, id);
      assert v.sessions - {id} == w.sessions - {id};
    case _ =>
      assert forall i :: ClientOf(Step(w, op), i) == ClientOf(w, i);
  }

  lemma {:induction false} RunsKeepInv(ops: seq<WorldOp>)
    requires IsRun(ops)
    ensures Inv(At(ops))
    decreases |ops|
  {
    if ops != [] {
      RunsKeepInv(ops[..|ops| - 1]);
      StepKeepsInv(At(ops[..|ops| - 1]), ops[|ops| - 1]);
    }
  }

  // ---------- theorems about every run ----------

  // Over every run of any number of sessions: no write or disconnect uses a handle after
  // its successful disconnect or failed write, each handle is disconnected successfully at
  // most once, handle 0 is never used, and every used handle was issued before.
  lemma HandleDiscipline(ops: seq<WorldOp>, i: nat, j: nat, h: nat)
    requires IsRun(ops) && i < |At(ops).log| && j < |At(ops).log|
    ensures var log := At(ops).log;
            && (i < j && Ends(log[i], h) ==> !Uses(log[j], h))
            && (log[i] == Disconnected(h, 0) && log[j] == Disconnected(h, 0) ==> i == j)
            && !Uses(log[i], 0)
            && (Uses(log[j], h) ==> exists k :: 0 <= k < j && log[k] == Connected(h))
  {
    RunsKeepInv(ops);
    DisciplineMeans(At(ops).log, i, j, h);
  }

  // After every run, the report that a connection is gone removes exactly the entries of
  // one session, the one that holds the handle; every other entry, all sessions and the
  // log stay.
  lemma OnCloseRemovesTheHolder(ops: seq<WorldOp>, h: nat, holder: Id)
    requires IsRun(ops) && h != 0 && ClientOf(At(ops), holder) == h
    ensures var w := At(ops);
            var w' := Step(w, OnClose(h));
            && w'.sessions == w.sessions && w'.log == w.log
            && (forall k :: k in w.registry ==> (k in w'.registry <==> w.registry[k] != holder))
            && (forall k :: k in w'.registry ==> k in w.registry && w'.registry[k] == w.registry[k])
  {
    RunsKeepInv(ops);
    assert Holders(At(ops), h) == {holder};
  }

  // And none if no session holds the handle.
  lemma OnCloseOfNobody(w: World, h: nat)
    requires forall id :: ClientOf(w, id) != h
    ensures Step(w, OnClose(h)) == w
  {
    assert Holders(w, h) == {};
  }

  // Every insert is of a session not registered at that time, as callers do with the
  // sessions they have just made.
  ghost predicate InsertsNew(ops: seq<WorldOp>)
    requires IsRun(ops)
    decreases |ops|
  {
    ops == [] ||
    (var before, op := ops[..|ops| - 1], ops[|ops| - 1];
     InsertsNew(before) && (op.Insert? ==> op.id !in At(before).registry.Values))
  }

  // Then no session is registered twice, so the report removes at most one entry.
  lemma {:induction false} OneKeyPerSession(ops: seq<WorldOp>, k: Key, l: Key)
    requires IsRun(ops) && InsertsNew(ops)
    requires k in At(ops).registry && l in At(ops).registry && At(ops).registry[k] == At(ops).registry[l]
    ensures k == l
    decreases |ops|
  {
    if ops != [] {
      var w, op := At(ops[..|ops| - 1]), ops[|ops| - 1];
      if k in w.registry && l in w.registry && w.registry[k] == w.registry[l] {
        OneKeyPerSession(ops[..|ops| - 1], k, l);
      }
    }
  }

  // A failed write gives the handle up, so the report that its connection is gone then
  // finds no holder: the registry keeps the stopped session until its key is deleted.
  lemma FailedWriteHidesFromOnClose(ops: seq<WorldOp>, id: Id, data: seq<byte>, answer: int)
    requires IsRun(ops) && id in At(ops).sessions && answer != 0
    requires Perform(At(ops).sessions[id], SendPacket(data, answer)).result == answer
    ensures var w, h := At(ops), ClientOf(At(ops), id);
            var w' := Step(w, Do(id, SendPacket(data, answer)));
            h != 0 && Step(w', OnClose(h)) == w'
  {
    RunsKeepInv(ops);
    var w, h := At(ops), ClientOf(At(ops), id);
    var w' := Step(w, Do(id, SendPacket(data, answer)));
    StepKeepsInv(w, Do(id, SendPacket(data, answer)));
    assert forall i :: ClientOf(w', i) == if i == id then 0 else ClientOf(w, i);
    OnCloseOfNobody(w', h);
  }

  // ---------- first insert wins ----------

  datatype Lookup = Absent | Found(id: Id)

  function Get(registry: map<Key, Id>, key: Key): Lookup {
    if key in registry then Found(registry[key]) else Absent
  }

  // The session of the first insert under the key at or after the position.
  function FirstInsert(ops: seq<WorldOp>, key: Key, from: nat): Lookup
    decreases |ops| - from
  {
    if from >= |ops| then Absent
    else if ops[from].Insert? && ops[from].key == key then Found(ops[from].id)
    else FirstInsert(ops, key, from + 1)
  }

  // The operations tell, without the registry, what is found under a key after them: the
  // session of the first insert there since the last removal. A removal is the deletion of
  // the key, or the report on the handle that the session so found holds at that time.
  ghost function Expected(ops: seq<WorldOp>, key: Key): Lookup
    requires IsRun(ops)
    decreases |ops|, 2
  {
    FirstInsert(ops, key, LastRemoval(ops, key))
  }

  ghost predicate Removes(ops: seq<WorldOp>, key: Key)
    requires IsRun(ops) && ops != []
    decreases |ops|, 0
  {
    var before := ops[..|ops| - 1];
    match ops[|ops| - 1]
    case Delete(k) => k == key
    case OnClose(h) =>
      Expected(before, key).Found? && Expected(before, key).id in Holders(At(before), h)
    case _ => false
  }

  // The position after the last removal for the key, 0 if there was none.
  ghost function LastRemoval(ops: seq<WorldOp>, key: Key): (n: nat)
    requires IsRun(ops)
    ensures n <= |ops|
    decreases |ops|, 1
  {
    if ops == [] then 0
    else if Removes(ops, key) then |ops|
    else LastRemoval(ops[..|ops| - 1], key)
  }

  lemma {:induction false} FirstInsertSnoc(ops: seq<WorldOp>, op: WorldOp, key: Key, from: nat)
    requires from <= |ops|
    ensures FirstInsert(ops + [op], key, from)
         == if FirstInsert(ops, key, from).Found? then FirstInsert(ops, key, from)
            else if op.Insert? && op.key == key then Found(op.id)
            else Absent
    decreases |ops| - from
  {
    if from < |ops| {
      FirstInsertSnoc(ops, op, key, from + 1);
    }
  }

  // One more operation: a removal, or the first insert, or neither.
  lemma ExpectedStep(ops: seq<WorldOp>, key: Key)
    requires IsRun(ops) && ops != []
    ensures var before, op := ops[..|ops| - 1], ops[|ops| - 1];
            Expected(ops, key) ==
              if Removes(ops, key) then Absent
              else if Expected(before, key).Found? then Expected(before, key)
              else if op.Insert? && op.key == key then Found(op.id)
              else Absent
  {
    var before, op := ops[..|ops| - 1], ops[|ops| - 1];
    if Removes(ops, key) {
      assert LastRemoval(ops, key) == |ops|;
    } else {
      assert LastRemoval(ops, key) == LastRemoval(before, key);
      FirstInsertSnoc(before, op, key, LastRemoval(before, key));
      assert before + [op] == ops;
    }
  }

  // Over every run, what is found under a key is the session that was inserted there
  // first since the last removal for the key.
  lemma {:induction false} FirstInsertWins(ops: seq<WorldOp>, key: Key)
    requires IsRun(ops)
    ensures Get(At(ops).registry, key) == Expected(ops, key)
    decreases |ops|
  {
    if ops == [] {
      assert LastRemoval(ops, key) == 0;
    } else {
      FirstInsertWins(ops[..|ops| - 1], key);
      LookupStep(At(ops[..|ops| - 1]), ops[|ops| - 1], key);
      ExpectedStep(ops, key);
    }
  }

  lemma LookupStep(w: World, op: WorldOp, key: Key)
    requires Enabled(w, op)
    ensures Get(Step(w, op).registry, key)
         == match op
            case Delete(k) => if k == key then Absent else Get(w.registry, key)
            case OnClose(h) => if key in w.registry && w.registry[key] in Holders(w, h) then Absent
                               else Get(w.registry, key)
            case Insert(k, id) => if k == key && key !in w.registry then Found(id) else Get(w.registry, key)
            case _ => Get(w.registry, key)
  {
  }

  // ---------- where network handles go ----------

  function Connects(log: Log, h: nat): nat {
    if log == [] then 0
    else Connects(log[..|log| - 1], h) + if log[|log| - 1] == Connected(h) then 1 else 0
  }

  function Endings(log: Log, h: nat): nat {
    if log == [] then 0
    else Endings(log[..|log| - 1], h) + if Ends(log[|log| - 1], h) then 1 else 0
  }

  // The operation lets go of the handle and does not end it: its session connects anew, or
  // is destroyed and the disconnect fails.
  predicate Abandons(w: World, op: WorldOp, h: nat) {
    h != 0 &&
    match op
    case Do(id, o) => o.Connect? && ClientOf(w, id) == h
    case Discard(id, disconnect) => ClientOf(w, id) == h && disconnect != 0
    case _ => false
  }

  ghost function Abandoned(ops: seq<WorldOp>, h: nat): nat
    requires IsRun(ops)
    decreases |ops|
  {
    if ops == [] then 0
    else Abandoned(ops[..|ops| - 1], h) + if Abandons(At(ops[..|ops| - 1]), ops[|ops| - 1], h) then 1 else 0
  }

  // Over every run, the books of every network handle balance: connected is ended, held by
  // a session, or abandoned.
  lemma {:induction false} NetworkHandlesConserved(ops: seq<WorldOp>, h: nat)
    requires IsRun(ops) && h != 0
    ensures Connects(At(ops).log, h) == Endings(At(ops).log, h) + |Holders(At(ops), h)| + Abandoned(ops, h)
    decreases |ops|
  {
    if ops != [] {
      var before, op := ops[..|ops| - 1], ops[|ops| - 1];
      RunsKeepInv(before);
      NetworkHandlesConserved(before, h);
      StepBalances(At(before), op, h);
    } else {
      assert Holders(NEW_WORLD, h) == {};
    }
  }

  lemma CountsSnoc(log: Log, e: Event<Batch>, h: nat)
    ensures Connects(log + [e], h) == Connects(log, h) + if e == Connected(h) then 1 else 0
    ensures Endings(log + [e], h) == Endings(log, h) + if Ends(e, h) then 1 else 0
  {
    assert (log + [e])[..|log|] == log;
  }

  // What one operation adds to the books.
  ghost predicate Balances(w: World, op: WorldOp, w': World, h: nat) {
    Connects(w'.log, h) - Connects(w.log, h)
    == Endings(w'.log, h) - Endings(w.log, h) + |Holders(w', h)| - |Holders(w, h)| +
       (if Abandons(w, op, h) then 1 else 0)
  }

  lemma StepBalances(w: World, op: WorldOp, h: nat)
    requires Inv(w) && Enabled(w, op) && h != 0
    ensures Balances(w, op, Step(w, op), h)
  {
    var w' := Step(w, op);
    match op
    case Do(id, o) =>
      ActBooks(w, id, o, w'.log, h);
      HoldersAfter(w, id, w', h);
    case Discard(id, disconnect) =>
      ActBooks(w, id, Destroy(disconnect), w'.log, h);
      HoldersAfter(w, id, w', h);
    case _ =>
      assert forall i :: ClientOf(w', i) == ClientOf(w, i);
      assert Holders(w', h) == Holders(w, h);
  }

  // 1 if the session holds the handle.
  function Has(w: World, id: Id, h: nat): nat {
    if ClientOf(w, id) == h then 1 else 0
  }

  // Only the acting session changes what it holds.
  lemma HoldersAfter(w: World, id: Id, w': World, h: nat)
    requires h != 0 && forall i :: i != id ==> ClientOf(w', i) == ClientOf(w, i)
    ensures |Holders(w', h)| - |Holders(w, h)| == Has(w', id, h) - Has(w, id, h)
  {
    assert Holders(w', h) - {id} == Holders(w, h) - {id};
    OneMore(Holders(w, h), id);
    OneMore(Holders(w', h), id);
  }

  lemma OneMore(s: set<Id>, id: Id)
    ensures |s| == |s - {id}| + if id in s then 1 else 0
  {
    if id !in s {
      assert s - {id} == s;
    }
  }

  // What an operation of one session adds to the counts of the log.
  lemma ActBooks(w: World, id: Id, op: SessionOp, log: Log, h: nat)
    requires Inv(w) && id in w.sessions && h != 0
    requires op.Connect? && op.result == 0 ==> op.handle != 0 && !Issued(w.log, op.handle)
    requires log == w.log + Perform(w.sessions[id], op).net
    ensures var c, c' := ClientOf(w, id), Perform(w.sessions[id], op).after.sender.client;
            && Connects(log, h) - Connects(w.log, h)
               == (if op.Connect? && op.result == 0 && op.handle == h then 1 else 0)
            && Endings(log, h) - Endings(w.log, h) == (if !op.Connect? && c == h && c' == 0 then 1 else 0)
            && (if op.Connect? then c' == (if op.result == 0 then op.handle else 0) else c' == c || c' == 0)
            && (op.Destroy? ==> (c == h ==> (c' == 0 <==> op.disconnect == 0)))
            && (op.Connect? && op.result == 0 && op.handle == h ==> c != h)
  {
    var s := w.sessions[id];
    var e := Perform(s, op);
    SessionStep(s, op);
    if e.net == [] {
      assert log == w.log;
    } else {
      assert e.net == [e.net[0]];
      CountsSnoc(w.log, e.net[0], h);
    }
  }

  // Every handle is ended or held, over a run, if and only if no session that holds one
  // connects anew, and none that holds one is destroyed with a failing disconnect.
  ghost predicate NeverAbandons(ops: seq<WorldOp>)
    requires IsRun(ops)
    decreases |ops|
  {
    ops == [] ||
    (NeverAbandons(ops[..|ops| - 1]) &&
     match ops[|ops| - 1]
     case Do(id, o) => o.Connect? ==> ClientOf(At(ops[..|ops| - 1]), id) == 0
     case Discard(id, disconnect) => ClientOf(At(ops[..|ops| - 1]), id) == 0 || disconnect == 0
     case _ => true)
  }

  ghost predicate NoHandleLost(w: World) {
    forall h :: h != 0 ==> Connects(w.log, h) == Endings(w.log, h) + |Holders(w, h)|
  }

  lemma NoHandleLostIff(ops: seq<WorldOp>)
    requires IsRun(ops)
    ensures NoHandleLost(At(ops)) <==> NeverAbandons(ops)
  {
    if NeverAbandons(ops) {
      forall h | h != 0 ensures Connects(At(ops).log, h) == Endings(At(ops).log, h) + |Holders(At(ops), h)| {
        NetworkHandlesConserved(ops, h);
        NoneAbandoned(ops, h);
      }
    } else {
      var h := SomeAbandoned(ops);
      NetworkHandlesConserved(ops, h);
    }
  }

  lemma {:induction false} NoneAbandoned(ops: seq<WorldOp>, h: nat)
    requires IsRun(ops) && NeverAbandons(ops) && h != 0
    ensures Abandoned(ops, h) == 0
    decreases |ops|
  {
    if ops != [] {
      NoneAbandoned(ops[..|ops| - 1], h);
    }
  }

  lemma {:induction false} SomeAbandoned(ops: seq<WorldOp>) returns (h: nat)
    requires IsRun(ops) && !NeverAbandons(ops)
    ensures h != 0 && Abandoned(ops, h) > 0
    decreases |ops|
  {
    var before, op := ops[..|ops| - 1], ops[|ops| - 1];
    if NeverAbandons(before) {
      h := ClientOf(At(before), op.id);
      assert Abandons(At(before), op, h);
    } else {
      h := SomeAbandoned(before);
    }
  }

  // ---------- when the report reclaims ----------

  lemma {:induction false} ConnectsIff(log: Log, h: nat)
    ensures Connects(log, h) > 0 <==> Issued(log, h)
  {
    if log != [] {
      var before, e := log[..|log| - 1], log[|log| - 1];
      ConnectsIff(before, h);
      IssuedSnoc(before, e, h);
      assert before + [e] == log;
    }
  }

  lemma {:induction false} EndingsIff(log: Log, h: nat)
    ensures Endings(log, h) > 0 <==> Ended(log, h)
  {
    if log != [] {
      var before, e := log[..|log| - 1], log[|log| - 1];
      EndingsIff(before, h);
      IssuedSnoc(before, e, h);
      assert before + [e] == log;
    }
  }

  // A session connected with this handle in the run.
  ghost predicate ConnectedBy(ops: seq<WorldOp>, id: Id, h: nat) {
    exists m :: 0 <= m < |ops| && ops[m] == Do(id, Connect(0, h))
  }

  lemma ConnectedBySnoc(ops: seq<WorldOp>, id: Id, h: nat)
    requires ops != []
    ensures ConnectedBy(ops, id, h) <==> ConnectedBy(ops[..|ops| - 1], id, h) || ops[|ops| - 1] == Do(id, Connect(0, h))
  {
    var before := ops[..|ops| - 1];
    if ConnectedBy(before, id, h) {
      var m :| 0 <= m < |before| && before[m] == Do(id, Connect(0, h));
      assert ops[m] == before[m];
    }
    if ConnectedBy(ops, id, h) {
      var m :| 0 <= m < |ops| && ops[m] == Do(id, Connect(0, h));
      assert m < |before| ==> before[m] == ops[m];
    }
  }

  // The connects of the log are those of the run, no more than one for a handle, and only
  // the session that made it ever holds it.
  ghost predicate OneConnect(ops: seq<WorldOp>, h: nat)
    requires IsRun(ops)
  {
    && Connects(At(ops).log, h) <= 1
    && (forall id :: ConnectedBy(ops, id, h) ==> Connects(At(ops).log, h) == 1)
    && (forall id :: ClientOf(At(ops), id) == h ==> ConnectedBy(ops, id, h))
    && (forall i, j :: ConnectedBy(ops, i, h) && ConnectedBy(ops, j, h) ==> i == j)
  }

  // What one operation adds to the connects, and whose handle it can set.
  lemma OneOpConnects(w: World, op: WorldOp, h: nat)
    requires Inv(w) && Enabled(w, op) && h != 0
    ensures op.Do? && op.op == Connect(0, h) ==>
              Connects(w.log, h) == 0 && Connects(Step(w, op).log, h) == 1
    ensures !(op.Do? && op.op == Connect(0, h)) ==> Connects(Step(w, op).log, h) == Connects(w.log, h)
    ensures forall id :: ClientOf(Step(w, op), id) == h ==>
              ClientOf(w, id) == h || op == Do(id, Connect(0, h))
  {
    match op
    case Do(id, o) =>
      ActBooks(w, id, o, Step(w, op).log, h);
      ConnectsIff(w.log, h);
    case Discard(id, disconnect) =>
      ActBooks(w, id, Destroy(disconnect), Step(w, op).log, h);
    case _ =>
  }

  lemma {:induction false} RunsConnectOnce(ops: seq<WorldOp>, h: nat)
    requires IsRun(ops) && h != 0
    ensures OneConnect(ops, h)
    decreases |ops|
  {
    if ops != [] {
      var before, op := ops[..|ops| - 1], ops[|ops| - 1];
      RunsKeepInv(before);
      RunsConnectOnce(before, h);
      OneOpConnects(At(before), op, h);
      forall id ensures ConnectedBy(ops, id, h) <==> ConnectedBy(before, id, h) || op == Do(id, Connect(0, h)) {
        ConnectedBySnoc(ops, id, h);
      }
    }
  }

  // The report on the handle that a registered session connected with reclaims the session
  // if and only if that handle has not ended, by a failed write or a successful disconnect,
  // and has not been abandoned.
  lemma OnCloseReclaimsIff(ops: seq<WorldOp>, key: Key, h: nat)
    requires IsRun(ops) && h != 0 && key in At(ops).registry && ConnectedBy(ops, At(ops).registry[key], h)
    ensures key !in Step(At(ops), OnClose(h)).registry <==> !Ended(At(ops).log, h) && Abandoned(ops, h) == 0
  {
    var w := At(ops);
    RunsConnectOnce(ops, h);
    NetworkHandlesConserved(ops, h);
    EndingsIff(w.log, h);
    SomeHolder(w, h);
    if w.registry[key] in Holders(w, h) {
      assert |Holders(w, h)| > 0;
    }
  }

  lemma SomeHolder(w: World, h: nat)
    ensures |Holders(w, h)| > 0 ==> exists id :: id in Holders(w, h)
  {
    if Holders(w, h) == {} {
      assert |Holders(w, h)| == 0;
    }
  }

  // A handle that has ended stays out of reach of the report for ever.
  lemma EndedHidesFromOnClose(ops: seq<WorldOp>, h: nat)
    requires IsRun(ops) && Ended(At(ops).log, h)
    ensures Step(At(ops), OnClose(h)) == At(ops)
  {
    RunsKeepInv(ops);
    var i :| 0 <= i < |At(ops).log| && Ends(At(ops).log[i], h);
    assert Usable(At(ops).log[..i], h);
    OnCloseOfNobody(At(ops), h);
  }

  // ---------- runs that go wrong ----------

  lemma NextStep(ops: seq<WorldOp>, op: WorldOp)
    requires IsRun(ops) && Enabled(At(ops), op)
    ensures IsRun(ops + [op]) && At(ops + [op]) == Step(At(ops), op)
  {
    assert (ops + [op])[..|ops|] == ops;
  }

  // The key is taken by a session that has stopped for good.
  ghost predicate DeadUnderKey(w: World, key: Key) {
    && key in w.registry && w.registry[key] in w.sessions
    && !w.sessions[w.registry[key]].sender.running && ClientOf(w, w.registry[key]) == 0
  }

  // A session connects, starts, is registered, and its second packet meets a failing
  // write; the report that the connection is gone then leaves the session registered.
  lemma DeadSessionStaysRegistered() returns (ops: seq<WorldOp>)
    ensures ops == [Create(1, 0), Do(1, Connect(0, 7)), Do(1, StartReal(Done, 5, 0)), Insert("cam", 1),
                    Do(1, SendPacket([1], 0)), Do(1, SendPacket([2], 1)), OnClose(7)]
    ensures IsRun(ops) && DeadUnderKey(At(ops), "cam")
  {
    var s, t;
    ops, s := RegisteredAndRunning();
    SecondWriteFails(s, [1], [2]);
    ops, t := ActNext(ops, 1, SendPacket([1], 0), s);
    ops, t := ActNext(ops, 1, SendPacket([2], 1), t);
    NobodyLeft(At(ops), 7);
    NextStep(ops, OnClose(7));
    ops := ops + [OnClose(7)];
  }

  lemma SecondWriteFails(s: Session, a: seq<byte>, b: seq<byte>)
    requires s.sender == Sender(true, 7, [], 0, 0)
    ensures var t := Perform(Perform(s, SendPacket(a, 0)).after, SendPacket(b, 1)).after.sender;
            !t.running && t.client == 0
  {
    assert Perform(s, SendPacket(a, 0)).after.sender == Sender(true, 7, [] + [Packet(0, a)], 1, 1);
  }

  lemma NobodyLeft(w: World, h: nat)
    requires h != 0 && w.sessions.Keys == {1} && ClientOf(w, 1) == 0
    ensures Step(w, OnClose(h)) == w
  {
    assert forall id :: ClientOf(w, id) != h;
    OnCloseOfNobody(w, h);
  }

  lemma RegisteredAndRunning() returns (ops: seq<WorldOp>, s: Session)
    ensures ops == [Create(1, 0), Do(1, Connect(0, 7)), Do(1, StartReal(Done, 5, 0)), Insert("cam", 1)]
    ensures IsRun(ops) && At(ops).sessions == map[1 := s] && At(ops).registry == map["cam" := 1]
    ensures s.sender == Sender(true, 7, [], 0, 0)
  {
    ops, s := [], NewSession(0);
    NextStep(ops, Create(1, 0));
    ops := ops + [Create(1, 0)];
    assert At(ops) == World(map[1 := s], map[], []);
    ops, s := ActNext(ops, 1, Connect(0, 7), s);
    ops, s := ActNext(ops, 1, StartReal(Done, 5, 0), s);
    NextStep(ops, Insert("cam", 1));
    ops := ops + [Insert("cam", 1)];
  }

  // The only session acts.
  lemma ActNext(ops: seq<WorldOp>, id: Id, op: SessionOp, s: Session) returns (next: seq<WorldOp>, after: Session)
    requires IsRun(ops) && At(ops).sessions == map[id := s] && !op.Destroy?
    requires op.Connect? && op.result == 0 ==> op.handle != 0 && At(ops).log == []
    ensures after == Perform(s, op).after && next == ops + [Do(id, op)]
    ensures IsRun(next) && At(next).sessions == map[id := after] && At(next).registry == At(ops).registry
    ensures At(next).log == At(ops).log + Perform(s, op).net
  {
    next, after := ops + [Do(id, op)], Perform(s, op).after;
    NextStep(ops, Do(id, op));
  }

  // A session that is connected connects again, and that fails: the first handle is lost.
  lemma ReconnectLosesHandle() returns (ops: seq<WorldOp>)
    ensures ops == [Create(1, 0), Do(1, Connect(0, 7)), Do(1, Connect(1, 0))]
    ensures IsRun(ops) && !NoHandleLost(At(ops))
  {
    var s, before;
    ops, s := [], NewSession(0);
    NextStep(ops, Create(1, 0));
    ops := ops + [Create(1, 0)];
    assert At(ops) == World(map[1 := s], map[], []);
    before, s := ActNext(ops, 1, Connect(0, 7), s);
    ops, s := ActNext(before, 1, Connect(1, 0), s);
    assert ops[..|ops| - 1] == before;
    assert !NeverAbandons(ops);
    NoHandleLostIff(ops);
  }
}
