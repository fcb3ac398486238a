// database/reconnect.go: the connector that reopens DuckDB after a fatal
// invalidation. Every locked section of the mutex is one atomic step, so a run
// of many goroutines is a sequence of such steps.
module Reconnect {
  import opened Wrappers

  type InstanceId = nat
  type ConnId = nat
  type ThreadId = nat

  // An invalidation error; table is "" when it carries no mutation target.
  datatype Trigger = Trigger(message: string, table: string)

  // What the driver answers while a locked section opens a connection.
  datatype Native = Native(factoryOk: bool, connectOk: bool, instance: InstanceId)

  datatype Outcome =
    | Refused                             // ErrDatabaseRecovering
    | MustRecover(handed: Option<Trigger>) // the lock is released around the callback
    | RecoveryFailed
    | OpenFailed
    | Opened(instance: InstanceId)

  // The fields guarded by the mutex, the occupancy of the gate, and the native
  // instances that are open.
  datatype Connector = Connector(
    dead: bool,
    recovering: bool,
    openConns: int,
    inner: Option<InstanceId>,
    trigger: Option<Trigger>,
    occupied: nat,
    instances: set<InstanceId>)

  // ------------------------------------------------------------ locked sections

  function Release(c: Connector): Connector {
    c.(occupied := if c.occupied > 0 then c.occupied - 1 else 0)
  }

  function CloseInner(c: Connector): Connector {
    if c.inner.None? then c else c.(inner := None, instances := c.instances - {c.inner.value})
  }

  function OpenConnection(c: Connector, native: Native): (Connector, Outcome) {
    if c.inner.None? && !native.factoryOk then (Release(c), OpenFailed)
    else
      var ready :=
        if c.inner.Some? then c
        else c.(inner := Some(native.instance), instances := c.instances + {native.instance});
      if !native.connectOk then (Release(ready), OpenFailed)
      else (ready.(openConns := ready.openConns + 1), Opened(ready.inner.value))
  }

  function Enter(c: Connector, native: Native): (Connector, Outcome) {
    if !c.dead then OpenConnection(c, native)
    else if c.openConns > 0 || c.recovering then (Release(c), Refused)
    else (CloseInner(c).(recovering := true), MustRecover(c.trigger))
  }

  function AfterRecovery(c: Connector, recovered: bool, native: Native): (Connector, Outcome) {
    var idle := c.(recovering := false);
    if !recovered then (Release(idle), RecoveryFailed)
    else OpenConnection(idle.(dead := false, trigger := None), native)
  }

  function NamesTable(t: Option<Trigger>): bool {
    t.Some? && t.value.table != ""
  }

  function MarkDead(c: Connector, t: Trigger): Connector {
    if !c.dead then c.(dead := true, trigger := Some(t))
    else if c.trigger.None? || (!NamesTable(c.trigger) && t.table != "") then c.(trigger := Some(t))
    else c
  }

  function ConnClosed(c: Connector): Connector {
    var less := if c.openConns > 0 then Release(c.(openConns := c.openConns - 1)) else c;
    if less.dead && less.openConns == 0 then CloseInner(less) else less
  }

  function Shutdown(c: Connector): Connector {
    CloseInner(c).(dead := false, recovering := false, trigger := None)
  }

  // ------------------------------------------------------------------ the objects

  class ConnectionGate {
    const limit: nat
    var occupied: nat

    constructor (limit: int)
      ensures this.limit == (if limit <= 0 then 16 else limit) && occupied == 0
    {
      this.limit := if limit <= 0 then 16 else limit;
      occupied := 0;
    }

    // The select on a full channel waits; here the step is then not taken.
    method TryAcquire() returns (acquired: bool)
      modifies this
      ensures acquired <==> old(occupied) < limit
      ensures occupied == old(occupied) + if acquired then 1 else 0
    {
      acquired := occupied < limit;
      if acquired {
        occupied := occupied + 1;
      }
    }

    method Release()
      modifies this
      ensures occupied == if old(occupied) > 0 then old(occupied) - 1 else 0
    {
      if occupied > 0 {
        occupied := occupied - 1;
      }
    }
  }

  class ReconnectingConnector {
    const gate: ConnectionGate
    var inner: Option<InstanceId>
    var openConns: int
    var dead: bool
    var recovering: bool
    var trigger: Option<Trigger>
    ghost var instances: set<InstanceId>

    ghost function State(): Connector
      reads this, gate
    {
      Connector(dead, recovering, openConns, inner, trigger, gate.occupied, instances)
    }

    // Nothing but the gate has changed.
    ghost predicate Unchanged(before: Connector)
      reads this, gate
    {
      && dead == before.dead && recovering == before.recovering && openConns == before.openConns
      && inner == before.inner && trigger == before.trigger && instances == before.instances
    }

    // A connection is opened on the instance there is, or on a new one; a failure
    // gives the token back, and a new instance stays for the next attempt.
    ghost predicate Connects(before: Connector, native: Native, r: Outcome)
      reads this, gate
    {
      var fresh_ := before.inner.None? && native.factoryOk;
      && inner == (if fresh_ then Some(native.instance) else before.inner)
      && instances == before.instances + (if fresh_ then {native.instance} else {})
      && if inner.Some? && native.connectOk then
           r == Opened(inner.value) && openConns == before.openConns + 1 && gate.occupied == before.occupied
         else r == OpenFailed && openConns == before.openConns && gate.occupied == Less(before.occupied)
    }

    constructor (gate: ConnectionGate)
      ensures this.gate == gate
      ensures State() == Connector(false, false, 0, None, None, gate.occupied, {})
    {
      this.gate := gate;
      inner, openConns, dead, recovering, trigger, instances := None, 0, false, false, None, {};
    }

    method CloseInnerLocked()
      modifies this
      ensures State() == CloseInner(old(State()))
    {
      if inner.None? {
        return;
      }
      instances := instances - {inner.value};
      inner := None;
    }

    // Connect, up to the point where it returns or calls recover.
    method ConnectEnter(native: Native) returns (r: Outcome)
      modifies this, gate
      ensures (State(), r) == Enter(old(State()), native)
      ensures old(dead) && (old(openConns) > 0 || old(recovering)) ==>
        && r == Refused && Unchanged(old(State())) && gate.occupied == Less(old(gate.occupied))
      ensures old(dead) && old(openConns) <= 0 && !old(recovering) ==>
        && r == MustRecover(old(trigger)) && recovering && dead && inner.None? && trigger == old(trigger)
        && gate.occupied == old(gate.occupied) && openConns == old(openConns)
        && instances == old(instances) - (if old(inner).Some? then {old(inner).value} else {})
      ensures !old(dead) ==>
        Connects(old(State()), native, r) && !dead && recovering == old(recovering) && trigger == old(trigger)
    {
      if dead {
        if openConns > 0 || recovering {
          gate.Release();
          return Refused;
        }
        CloseInnerLocked();
        recovering := true;
        return MustRecover(trigger);
      }
      r := OpenLocked(native);
    }

    // Connect, from the moment recover returned.
    method ConnectResume(recovered: bool, native: Native) returns (r: Outcome)
      modifies this, gate
      ensures (State(), r) == AfterRecovery(old(State()), recovered, native)
      ensures !recovering
      ensures !recovered ==>
        && r == RecoveryFailed && dead == old(dead) && trigger == old(trigger) && inner == old(inner)
        && openConns == old(openConns) && instances == old(instances) && gate.occupied == Less(old(gate.occupied))
      ensures recovered ==> Connects(old(State()), native, r) && !dead && trigger.None?
    {
      recovering := false;
      if !recovered {
        gate.Release();
        return RecoveryFailed;
      }
      dead := false;
      trigger := None;
      r := OpenLocked(native);
    }

    method OpenLocked(native: Native) returns (r: Outcome)
      modifies this, gate
      ensures (State(), r) == OpenConnection(old(State()), native)
    {
      if inner.None? {
        if !native.factoryOk {
          gate.Release();
          return OpenFailed;
        }
        inner := Some(native.instance);
        instances := instances + {native.instance};
      }
      if !native.connectOk {
        gate.Release();
        return OpenFailed;
      }
      openConns := openConns + 1;
      return Opened(inner.value);
    }

    method MarkInstanceDead(t: Trigger)
      modifies this
      ensures State() == MarkDead(old(State()), t)
      ensures dead && recovering == old(recovering) && openConns == old(openConns) && inner == old(inner)
      ensures trigger ==
        if !old(dead) || old(trigger).None? || (old(trigger).value.table == "" && t.table != "") then Some(t)
        else old(trigger)
      ensures gate.occupied == old(gate.occupied) && instances == old(instances)
    {
      if dead {
        if trigger.None? || (!NamesTable(trigger) && t.table != "") {
          trigger := Some(t);
        }
        return;
      }
      dead := true;
      trigger := Some(t);
    }

    method ConnectionClosed()
      modifies this, gate
      ensures State() == ConnClosed(old(State()))
      ensures openConns == (if old(openConns) > 0 then old(openConns) - 1 else old(openConns))
      ensures gate.occupied == (if old(openConns) > 0 then Less(old(gate.occupied)) else old(gate.occupied))
      ensures dead == old(dead) && recovering == old(recovering) && trigger == old(trigger)
      ensures inner == (if dead && openConns == 0 then None else old(inner))
      ensures instances == old(instances) -
        (if dead && openConns == 0 && old(inner).Some? then {old(inner).value} else {})
    {
      if openConns > 0 {
        openConns := openConns - 1;
        gate.Release();
      }
      if dead && openConns == 0 {
        CloseInnerLocked();
      }
    }

    method Close()
      modifies this
      ensures State() == Shutdown(old(State()))
      ensures !dead && !recovering && trigger.None? && inner.None? && openConns == old(openConns)
      ensures gate.occupied == old(gate.occupied)
      ensures instances == old(instances) - (if old(inner).Some? then {old(inner).value} else {})
    {
      CloseInnerLocked();
      dead := false;
      recovering := false;
      trigger := None;
    }
  }

  // A token given back; an empty gate stays empty.
  ghost function Less(occupied: nat): nat {
    if occupied > 0 then occupied - 1 else 0
  }

  // The wrapper handed to database/sql.
  class ReconnectingConn {
    const connector: ReconnectingConnector
    var closed: bool

    constructor (connector: ReconnectingConnector)
      ensures this.connector == connector && !closed
    {
      this.connector := connector;
      closed := false;
    }

    // Closing twice gives the connection back once.
    method Close()
      requires connector.gate as object != this && connector as object != this
      modifies this, connector, connector.gate
      ensures closed
      ensures connector.State() == if old(closed) then old(connector.State()) else ConnClosed(old(connector.State()))
    {
      if closed {
        return;
      }
      closed := true;
      connector.ConnectionClosed();
    }
  }

  // ------------------------------------------------------------ interleaved runs

  // Where a goroutine is inside Connect, between two locked sections.
  datatype Flight = Entering | Recovering(handed: Option<Trigger>)

  // A wrapped connection from Connect until its connClosed section has run.
  datatype Connection = Connection(instance: InstanceId, closing: bool)

  datatype System = System(
    c: Connector,
    limit: nat,
    flights: map<ThreadId, Flight>,
    conns: map<ConnId, Connection>,
    used: set<InstanceId>,   // instances ever opened
    seen: seq<Trigger>,      // invalidations since the instance was last alive
    closed: bool)

  datatype Event =
    | Arrive(thread: ThreadId)
    | EnterLock(thread: ThreadId, native: Native, conn: ConnId)
    | RecoverReturns(thread: ThreadId, recovered: bool, native: Native, conn: ConnId)
    | Invalidate(trigger: Trigger)
    | BeginClose(conn: ConnId)
    | FinishClose(conn: ConnId)
    | CloseConnector

  predicate Enabled(s: System, event: Event) {
    !s.closed &&
    match event
    case Arrive(t) => t !in s.flights && s.c.occupied < s.limit
    case EnterLock(t, native, conn) =>
      t in s.flights && s.flights[t].Entering? && conn !in s.conns && native.instance !in s.used
    case RecoverReturns(t, _, native, conn) =>
      t in s.flights && s.flights[t].Recovering? && conn !in s.conns && native.instance !in s.used
    case Invalidate(_) => true
    case BeginClose(conn) => conn in s.conns && !s.conns[conn].closing
    case FinishClose(conn) => conn in s.conns && s.conns[conn].closing
    case CloseConnector => true
  }

  // A goroutine leaves a locked section of Connect with an outcome.
  function Leave(s: System, t: ThreadId, after: (Connector, Outcome), conn: ConnId): System {
    var (c, outcome) := after;
    var used := s.used + c.instances;
    match outcome
    case MustRecover(handed) => s.(c := c, used := used, flights := s.flights[t := Recovering(handed)])
    case Opened(instance) =>
      s.(c := c, used := used, flights := s.flights - {t}, conns := s.conns[conn := Connection(instance, false)])
    case _ => s.(c := c, used := used, flights := s.flights - {t})
  }

  function Next(s: System, event: Event): System
    requires Enabled(s, event)
  {
    match event
    case Arrive(t) => s.(c := s.c.(occupied := s.c.occupied + 1), flights := s.flights[t := Entering])
    case EnterLock(t, native, conn) => Leave(s, t, Enter(s.c, native), conn)
    case RecoverReturns(t, recovered, native, conn) =>
      Leave(s, t, AfterRecovery(s.c, recovered, native), conn).(seen := if recovered then [] else s.seen)
    case Invalidate(trigger) => s.(c := MarkDead(s.c, trigger), seen := s.seen + [trigger])
    case BeginClose(conn) => s.(conns := s.conns[conn := s.conns[conn].(closing := true)])
    case FinishClose(conn) => s.(c := ConnClosed(s.c), conns := s.conns - {conn})
    case CloseConnector => s.(c := Shutdown(s.c), closed := true)
  }

  predicate Initial(s: System) {
    && s.c == Connector(false, false, 0, None, None, 0, {})
    && s.flights == map[] && s.conns == map[] && s.seen == [] && !s.closed
  }

  ghost predicate IsRun(states: seq<System>, events: seq<Event>) {
    && |states| == |events| + 1 && Initial(states[0])
    && forall i :: 0 <= i < |events| ==> Enabled(states[i], events[i]) && states[i + 1] == Next(states[i], events[i])
  }

  // ------------------------------------------------------------------- invariants

  // The first trigger naming a table, else the first seen.
  function Pick(seen: seq<Trigger>): Option<Trigger> {
    if exists i :: 0 <= i < |seen| && seen[i].table != "" then FirstNaming(seen)
    else if seen != [] then Some(seen[0])
    else None
  }

  function FirstNaming(seen: seq<Trigger>): Option<Trigger> {
    if seen == [] then None
    else if seen[0].table != "" then Some(seen[0])
    else FirstNaming(seen[1..])
  }

  ghost predicate Accounting(s: System) {
    && s.c.openConns == |s.conns|
    && s.c.occupied == s.c.openConns + |s.flights|
    && s.c.occupied <= s.limit
  }

  // At most one native instance is open, and every connection belongs to it.
  ghost predicate OneInstance(s: System) {
    && s.c.instances == (if s.c.inner.Some? then {s.c.inner.value} else {})
    && s.c.instances <= s.used
    && forall k :: k in s.conns ==> s.c.inner == Some(s.conns[k].instance)
  }

  ghost predicate RecoversAlone(s: System) {
    && (s.c.recovering ==> s.c.dead && s.c.openConns == 0 && s.c.inner.None?)
    && (s.c.recovering <==> exists t :: t in s.flights && s.flights[t].Recovering?)
    && (forall t, u :: t in s.flights && u in s.flights && s.flights[t].Recovering? && s.flights[u].Recovering? ==>
        t == u)
  }

  ghost predicate TriggerKept(s: System) {
    && (s.c.dead <==> s.seen != [])
    && s.c.trigger == Pick(s.seen)
  }

  ghost predicate Inv(s: System) {
    !s.closed ==> Accounting(s) && OneInstance(s) && RecoversAlone(s) && TriggerKept(s)
  }

  lemma {:induction false} PickAppend(seen: seq<Trigger>, t: Trigger)
    ensures Pick(seen + [t]) ==
      if seen == [] || (!NamesTable(Pick(seen)) && t.table != "") then Some(t) else Pick(seen)
    ensures seen != [] ==> Pick(seen).Some?
  {
    FirstNamingAppend(seen, t);
    var longer := seen + [t];
    assert forall i :: 0 <= i < |seen| ==> longer[i] == seen[i];
    assert longer[|seen|] == t;
  }

  lemma {:induction false} FirstNamingAppend(seen: seq<Trigger>, t: Trigger)
    ensures FirstNaming(seen).Some? <==> exists i :: 0 <= i < |seen| && seen[i].table != ""
    ensures FirstNaming(seen).Some? ==>
      FirstNaming(seen).value.table != "" && FirstNaming(seen + [t]) == FirstNaming(seen)
    ensures FirstNaming(seen).None? ==> FirstNaming(seen + [t]) == if t.table != "" then Some(t) else None
  {
    if seen == [] {
      assert seen + [t] == [t];
    } else {
      assert (seen + [t])[1..] == seen[1..] + [t];
      FirstNamingAppend(seen[1..], t);
      if i :| 0 <= i < |seen| && seen[i].table != "" && seen[0].table == "" {
        assert seen[1..][i - 1].table != "";
      }
    }
  }

  lemma RemoveSize<K, V>(m: map<K, V>, k: K)
    requires k in m
    ensures |m - {k}| == |m| - 1
  {
    assert (m - {k}).Keys == m.Keys - {k};
  }

  lemma AddSize<K, V>(m: map<K, V>, k: K, v: V)
    ensures |m[k := v]| == if k in m then |m| else |m| + 1
  {
    assert m[k := v].Keys == m.Keys + {k};
  }

  // What a locked section of Connect may do to the counters.
  ghost predicate Balanced(before: Connector, after: (Connector, Outcome)) {
    match after.1
    case MustRecover(_) => after.0.openConns == before.openConns && after.0.occupied == before.occupied
    case Opened(_) => after.0.openConns == before.openConns + 1 && after.0.occupied == before.occupied
    case _ => after.0.openConns == before.openConns && after.0.occupied == before.occupied - 1
  }

  lemma LeaveKeepsAccounting(s: System, t: ThreadId, after: (Connector, Outcome), conn: ConnId)
    requires Accounting(s) && t in s.flights && conn !in s.conns && Balanced(s.c, after)
    ensures Accounting(Leave(s, t, after, conn))
  {
    RemoveSize(s.flights, t);
    if after.1.MustRecover? { AddSize(s.flights, t, Recovering(after.1.handed)); }
    if after.1.Opened? { AddSize(s.conns, conn, Connection(after.1.instance, false)); }
  }

  lemma LeaveKeepsInstance(s: System, t: ThreadId, after: (Connector, Outcome), conn: ConnId)
    requires OneInstance(s)
    requires s.c.inner.Some? && s.conns != map[] ==> after.0.inner == s.c.inner
    requires after.0.instances == (if after.0.inner.Some? then {after.0.inner.value} else {})
    requires after.1.Opened? ==> after.0.inner == Some(after.1.instance)
    ensures OneInstance(Leave(s, t, after, conn))
  {
    forall k | k in s.conns ensures after.0.inner == Some(s.conns[k].instance) {
    }
  }

  lemma EmptyWhenZero<K, V>(m: map<K, V>)
    ensures |m| == 0 <==> m == map[]
  {
    if |m| == 0 { assert m.Keys == {}; }
  }

  lemma ArriveKeepsInv(s: System, t: ThreadId)
    requires Inv(s) && Enabled(s, Arrive(t))
    ensures Inv(Next(s, Arrive(t)))
  {
    AddSize(s.flights, t, Entering);
    assert forall u :: u in s.flights ==> s.flights[t := Entering][u] == s.flights[u];
  }

  lemma EnterKeepsAccounting(s: System, t: ThreadId, native: Native, conn: ConnId)
    requires Accounting(s) && Enabled(s, EnterLock(t, native, conn))
    ensures Accounting(Next(s, EnterLock(t, native, conn)))
  {
    RemoveSize(s.flights, t);
    LeaveKeepsAccounting(s, t, Enter(s.c, native), conn);
  }

  lemma EnterKeepsInstance(s: System, t: ThreadId, native: Native, conn: ConnId)
    requires Accounting(s) && OneInstance(s) && Enabled(s, EnterLock(t, native, conn))
    ensures OneInstance(Next(s, EnterLock(t, native, conn)))
  {
    EmptyWhenZero(s.conns);
    LeaveKeepsInstance(s, t, Enter(s.c, native), conn);
  }

  lemma EnterKeepsTrigger(s: System, t: ThreadId, native: Native, conn: ConnId)
    requires TriggerKept(s) && Enabled(s, EnterLock(t, native, conn))
    ensures TriggerKept(Next(s, EnterLock(t, native, conn)))
  {
  }

  lemma EnterKeepsInv(s: System, t: ThreadId, native: Native, conn: ConnId)
    requires Inv(s) && Enabled(s, EnterLock(t, native, conn))
    ensures Inv(Next(s, EnterLock(t, native, conn)))
  {
    EnterKeepsAccounting(s, t, native, conn);
    EnterKeepsInstance(s, t, native, conn);
    EnterKeepsAlone(s, t, native, conn);
    EnterKeepsTrigger(s, t, native, conn);
  }

  lemma ResumeKeepsAccounting(s: System, t: ThreadId, recovered: bool, native: Native, conn: ConnId)
    requires Accounting(s) && Enabled(s, RecoverReturns(t, recovered, native, conn))
    ensures Accounting(Next(s, RecoverReturns(t, recovered, native, conn)))
  {
    RemoveSize(s.flights, t);
    LeaveKeepsAccounting(s, t, AfterRecovery(s.c, recovered, native), conn);
  }

  lemma ResumeKeepsInstance(s: System, t: ThreadId, recovered: bool, native: Native, conn: ConnId)
    requires Accounting(s) && OneInstance(s) && RecoversAlone(s)
    requires Enabled(s, RecoverReturns(t, recovered, native, conn))
    ensures OneInstance(Next(s, RecoverReturns(t, recovered, native, conn)))
  {
    assert s.flights[t].Recovering? && s.c.recovering;
    EmptyWhenZero(s.conns);
    LeaveKeepsInstance(s, t, AfterRecovery(s.c, recovered, native), conn);
  }

  lemma ResumeKeepsTrigger(s: System, t: ThreadId, recovered: bool, native: Native, conn: ConnId)
    requires TriggerKept(s) && RecoversAlone(s) && Enabled(s, RecoverReturns(t, recovered, native, conn))
    ensures TriggerKept(Next(s, RecoverReturns(t, recovered, native, conn)))
  {
    assert s.flights[t].Recovering? && s.c.recovering;
  }

  lemma ResumeKeepsInv(s: System, t: ThreadId, recovered: bool, native: Native, conn: ConnId)
    requires Inv(s) && Enabled(s, RecoverReturns(t, recovered, native, conn))
    ensures Inv(Next(s, RecoverReturns(t, recovered, native, conn)))
  {
    ResumeKeepsAccounting(s, t, recovered, native, conn);
    ResumeKeepsInstance(s, t, recovered, native, conn);
    ResumeKeepsAlone(s, t, recovered, native, conn);
    ResumeKeepsTrigger(s, t, recovered, native, conn);
  }

  lemma FinishKeepsInv(s: System, conn: ConnId)
    requires Inv(s) && Enabled(s, FinishClose(conn))
    ensures Inv(Next(s, FinishClose(conn)))
  {
    RemoveSize(s.conns, conn);
    EmptyWhenZero(s.conns - {conn});
  }

  lemma StepKeepsInv(s: System, event: Event)
    requires Inv(s) && Enabled(s, event)
    ensures Inv(Next(s, event))
  {
    match event
    case Arrive(t) => ArriveKeepsInv(s, t);
    case EnterLock(t, native, conn) => EnterKeepsInv(s, t, native, conn);
    case RecoverReturns(t, recovered, native, conn) => ResumeKeepsInv(s, t, recovered, native, conn);
    case Invalidate(trigger) => PickAppend(s.seen, trigger);
    case BeginClose(conn) => AddSize(s.conns, conn, s.conns[conn].(closing := true));
    case FinishClose(conn) => FinishKeepsInv(s, conn);
    case CloseConnector =>
  }

  lemma EnterKeepsAlone(s: System, t: ThreadId, native: Native, conn: ConnId)
    requires Accounting(s) && RecoversAlone(s) && Enabled(s, EnterLock(t, native, conn))
    ensures RecoversAlone(Next(s, EnterLock(t, native, conn)))
  {
    var next := Next(s, EnterLock(t, native, conn));
    if s.c.dead && s.c.openConns == 0 && !s.c.recovering {
      assert next.flights[t].Recovering?;
      assert forall u :: u in s.flights ==> s.flights[u].Entering?;
    } else {
      assert next.flights == s.flights - {t};
      if u :| u in s.flights && s.flights[u].Recovering? {
        assert next.flights[u].Recovering?;
      }
    }
  }

  lemma ResumeKeepsAlone(s: System, t: ThreadId, recovered: bool, native: Native, conn: ConnId)
    requires RecoversAlone(s) && Enabled(s, RecoverReturns(t, recovered, native, conn))
    ensures RecoversAlone(Next(s, RecoverReturns(t, recovered, native, conn)))
  {
    var next := Next(s, RecoverReturns(t, recovered, native, conn));
    assert next.flights == s.flights - {t};
    forall u | u in next.flights ensures next.flights[u].Entering? {
      assert s.flights[u].Recovering? ==> u == t;
    }
  }

  // Every state of every interleaving satisfies the invariant.
  lemma {:induction false} RunsKeepInv(states: seq<System>, events: seq<Event>, i: nat)
    requires IsRun(states, events) && i < |states|
    ensures Inv(states[i])
  {
    if i > 0 {
      RunsKeepInv(states, events, i - 1);
      StepKeepsInv(states[i - 1], events[i - 1]);
    }
  }

  // While a recovery callback runs there is no other recovery, no connection
  // and no native instance, and every other Connect is turned away.
  lemma RecoveryRunsAlone(states: seq<System>, events: seq<Event>, i: nat, t: ThreadId)
    requires IsRun(states, events) && i < |states| && !states[i].closed
    requires t in states[i].flights && states[i].flights[t].Recovering?
    ensures states[i].c.dead && states[i].c.instances == {} && states[i].conns == map[]
    ensures forall u :: u in states[i].flights && states[i].flights[u].Recovering? ==> u == t
    ensures forall native :: Enter(states[i].c, native).1 == Refused
  {
    RunsKeepInv(states, events, i);
    EmptyWhenZero(states[i].conns);
  }

  // The callback gets the first trigger that names a table, else the first seen.
  lemma RecoveryGetsPickedTrigger(
    states: seq<System>, events: seq<Event>, i: nat, t: ThreadId, native: Native, conn: ConnId)
    requires IsRun(states, events) && i < |states|
    requires Enabled(states[i], EnterLock(t, native, conn))
    requires Enter(states[i].c, native).1.MustRecover?
    ensures states[i].seen != [] && Enter(states[i].c, native).1.handed == Pick(states[i].seen)
    ensures var seen, handed := states[i].seen, Enter(states[i].c, native).1.handed;
            exists k :: FirstChoice(seen, k) && handed == Some(seen[k])
  {
    RunsKeepInv(states, events, i);
    PickIsSeen(states[i].seen);
  }

  // The first that names a table, or the first of all if none does
  ghost predicate FirstChoice(seen: seq<Trigger>, k: int) {
    && 0 <= k < |seen|
    && if forall j :: 0 <= j < |seen| ==> seen[j].table == "" then k == 0
       else seen[k].table != "" && forall j :: 0 <= j < k ==> seen[j].table == ""
  }

  lemma PickIsSeen(seen: seq<Trigger>)
    requires seen != []
    ensures exists k :: FirstChoice(seen, k) && Pick(seen) == Some(seen[k])
  {
    if exists j :: 0 <= j < |seen| && seen[j].table != "" {
      var k := FirstNamingIsSeen(seen);
      assert FirstChoice(seen, k);
    } else {
      assert FirstChoice(seen, 0) && Pick(seen) == Some(seen[0]);
    }
  }

  lemma {:induction false} FirstNamingIsSeen(seen: seq<Trigger>) returns (k: nat)
    requires exists j :: 0 <= j < |seen| && seen[j].table != ""
    ensures k < |seen| && FirstNaming(seen) == Some(seen[k]) && seen[k].table != ""
    ensures forall j :: 0 <= j < k ==> seen[j].table == ""
  {
    k := 0;
    if seen[0].table == "" {
      var j :| 0 <= j < |seen| && seen[j].table != "";
      assert seen[1..][j - 1].table != "";
      var rest := FirstNamingIsSeen(seen[1..]);
      k := rest + 1;
    }
  }

  // There are runs, for every limit of the gate.
  lemma RunsBegin(limit: nat)
    ensures IsRun([System(Connector(false, false, 0, None, None, 0, {}), limit, map[], map[], {}, [], false)], [])
  {
  }

  // A dead connector that has given back its connections comes back: from every
  // such state of a run, with room in the gate, a goroutine may connect, recover and
  // leave with a connection on the new instance.
  lemma RecoveryCanComplete(
    states: seq<System>, events: seq<Event>, t: ThreadId, native: Native, conn: ConnId)
    returns (states': seq<System>, events': seq<Event>)
    requires IsRun(states, events)
    requires var s := states[|events|];
             && !s.closed && s.c.dead && !s.c.recovering && s.c.openConns == 0 && s.c.occupied < s.limit
             && t !in s.flights && native.factoryOk && native.connectOk && native.instance !in s.used
    ensures IsRun(states', events') && |events'| == |events| + 3
    ensures states <= states' && events <= events'
    ensures var s := states'[|events'|];
            && !s.c.dead && s.c.instances == {native.instance} && conn in s.conns
            && s.conns[conn].instance == native.instance && s.seen == []
  {
    hide Next, Enabled, Inv;
    RunsKeepInv(states, events, |events|);
    var s1, s2, s3 := RecoverySteps(states[|events|], t, native, conn);
    states' := states + [s1, s2, s3];
    events' := events + [Arrive(t), EnterLock(t, native, conn), RecoverReturns(t, true, native, conn)];
    forall i | 0 <= i < |events'|
      ensures Enabled(states'[i], events'[i]) && states'[i + 1] == Next(states'[i], events'[i])
    {
      if i < |events| {
        assert states'[i] == states[i] && states'[i + 1] == states[i + 1] && events'[i] == events[i];
      } else {
        assert i == |events| || i == |events| + 1 || i == |events| + 2;
      }
    }
  }

  ghost predicate ReadyToOpen(s: System, t: ThreadId, native: Native, conn: ConnId) {
    && !s.closed && s.c.inner.None? && s.c.instances == {} && s.conns == map[]
    && t in s.flights && s.flights[t].Recovering?
    && native.factoryOk && native.connectOk && native.instance !in s.used
  }

  lemma EnterIdle(s: System, t: ThreadId, native: Native, conn: ConnId)
    requires Inv(s) && !s.closed && s.c.dead && !s.c.recovering && s.c.openConns == 0
    requires t in s.flights && s.flights[t].Entering?
    requires native.factoryOk && native.connectOk && native.instance !in s.used
    ensures Enabled(s, EnterLock(t, native, conn))
    ensures ReadyToOpen(Next(s, EnterLock(t, native, conn)), t, native, conn)
  {
    EmptyWhenZero(s.conns);
    assert s.conns == map[];
    hide Pick, RecoversAlone, TriggerKept;
  }

  lemma ResumeOpens(s: System, t: ThreadId, native: Native, conn: ConnId)
    requires ReadyToOpen(s, t, native, conn)
    ensures Enabled(s, RecoverReturns(t, true, native, conn))
    ensures var s' := Next(s, RecoverReturns(t, true, native, conn));
            && !s'.c.dead && s'.c.instances == {native.instance} && conn in s'.conns
            && s'.conns[conn].instance == native.instance && s'.seen == []
  {
  }

  lemma ArriveEnters(s: System, t: ThreadId)
    requires Inv(s) && !s.closed && s.c.occupied < s.limit && t !in s.flights
    ensures Enabled(s, Arrive(t)) && Inv(Next(s, Arrive(t)))
    ensures var s' := Next(s, Arrive(t));
            s' == s.(c := s.c.(occupied := s.c.occupied + 1), flights := s.flights[t := Entering])
  {
    ArriveKeepsInv(s, t);
  }

  lemma RecoverySteps(s0: System, t: ThreadId, native: Native, conn: ConnId)
    returns (s1: System, s2: System, s3: System)
    requires Inv(s0) && !s0.closed && s0.c.dead && !s0.c.recovering && s0.c.openConns == 0 && s0.c.occupied < s0.limit
    requires t !in s0.flights && native.factoryOk && native.connectOk && native.instance !in s0.used
    ensures Enabled(s0, Arrive(t)) && s1 == Next(s0, Arrive(t))
    ensures Enabled(s1, EnterLock(t, native, conn)) && s2 == Next(s1, EnterLock(t, native, conn))
    ensures Enabled(s2, RecoverReturns(t, true, native, conn))
    ensures s3 == Next(s2, RecoverReturns(t, true, native, conn))
    ensures !s3.c.dead && s3.c.instances == {native.instance} && conn in s3.conns
    ensures s3.conns[conn].instance == native.instance && s3.seen == []
  {
    hide Enabled, Next, Inv, ReadyToOpen;
    ArriveEnters(s0, t);
    s1 := Next(s0, Arrive(t));
    EnterIdle(s1, t, native, conn);
    s2 := Next(s1, EnterLock(t, native, conn));
    ResumeOpens(s2, t, native, conn);
    s3 := Next(s2, RecoverReturns(t, true, native, conn));
  }

  // A failed recovery changes nothing but the gate: the connector stays dead
  // with the same trigger, and the next Connect recovers again.
  lemma FailedRecoveryStaysDead(
    states: seq<System>, events: seq<Event>, i: nat, t: ThreadId, native: Native, conn: ConnId)
    requires IsRun(states, events) && i < |states|
    requires Enabled(states[i], RecoverReturns(t, false, native, conn))
    ensures var next := Next(states[i], RecoverReturns(t, false, native, conn));
      && next.c.dead && !next.c.recovering && next.c.instances == {}
      && next.c.trigger == Pick(states[i].seen)
      && forall again: Native :: Enter(next.c, again).1 == MustRecover(next.c.trigger)
  {
    RunsKeepInv(states, events, i);
    assert states[i].flights[t].Recovering?;
  }

  // Every release finds a token: the default branch of the gate is never taken.
  lemma ReleaseFindsToken(states: seq<System>, events: seq<Event>, i: nat)
    requires IsRun(states, events) && i < |states| && !states[i].closed
    ensures forall t :: t in states[i].flights ==> states[i].c.occupied > 0
    ensures forall k :: k in states[i].conns ==> states[i].c.occupied > 0 && states[i].c.openConns > 0
  {
    RunsKeepInv(states, events, i);
    EmptyWhenZero(states[i].flights);
    EmptyWhenZero(states[i].conns);
  }

  // A connection in use always belongs to the one native instance that is open.
  lemma ConnectionsAreLive(states: seq<System>, events: seq<Event>, i: nat, k: ConnId)
    requires IsRun(states, events) && i < |states| && !states[i].closed && k in states[i].conns
    ensures states[i].c.instances == {states[i].conns[k].instance}
  {
    RunsKeepInv(states, events, i);
  }
}
