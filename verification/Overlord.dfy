/** The overlord's reserve, dispatch, confirm-or-roll-back protocol on its capped routing table.

    A run is a sequence of labels, one per block of code that executes under the routing lock or
    between two awaits.  Requests carry a program counter; a dispatch driver is spawned when a
    route is reserved and lives on when its request is dropped.  Answers from middleManagers,
    the order in which blocks interleave and the moments at which requests are dropped are
    arbitrary: they are chosen by the labels. */
module Overlord {
  import opened Common

  datatype TaskId = TaskId(name: string)
  type RequestId = nat
  type DriverId = nat

  datatype RouteState = Dispatching(index: nat) | Routed(index: nat)

  type Routing = map<TaskId, RouteState>

  datatype Config = Config(middlemanagers: nat, maxRoutes: nat)

  datatype Pc =
    | Arrived(task: TaskId)
    | Missed(task: TaskId)
    | Selected(task: TaskId, index: nat)
    | AtCapacity(task: TaskId, index: nat)
    | Polling(task: TaskId, index: nat, routed: seq<(TaskId, nat)>)
    | Admitting(task: TaskId, index: nat, candidate: Option<TaskId>)
    | Awaiting(driver: DriverId)

  datatype Driver = Driver(task: TaskId, index: nat)

  /** `drivers` holds the drivers that have not ended with a block of their own, and `dead` those of
      them that panicked.  `staleEvictions` counts the evictions that removed an entry which was
      `Dispatching` at the moment of its removal; no code reads it. */
  datatype State = State(
    next: nat,
    routing: Routing,
    requests: map<RequestId, Pc>,
    drivers: map<DriverId, Driver>,
    dead: set<DriverId>,
    staleEvictions: nat)

  const Initial := State(0, map[], map[], map[], {}, 0)

  datatype Label =
    | Arrive(request: RequestId, task: TaskId)
    | Lookup(request: RequestId)
    | Select(request: RequestId)
    | CheckCapacity(request: RequestId)
    | Snapshot(request: RequestId, routed: seq<(TaskId, nat)>)
    | Poll(request: RequestId, terminal: bool)
    | Admit(request: RequestId, driver: DriverId)
    | Complete(driver: DriverId, accepted: bool)
    | Panic(driver: DriverId)
    | Answer(request: RequestId)
    | CleanUp(request: RequestId)
    | Drop(request: RequestId)

  // ----- The critical sections ------------------------------------------------------------

  datatype Admission =
    | Relayed(route: RouteState)
    | CapacityExceeded
    | Reserved(evicted: Option<TaskId>)

  /** The verdict of the admission block: the idempotency check comes first, then capacity. */
  function Admissible(routing: Routing, maxRoutes: nat, task: TaskId, candidate: Option<TaskId>): Admission {
    if task in routing then Relayed(routing[task])
    else if |routing| < maxRoutes then Reserved(None)
    else if candidate.Some? && candidate.value in routing then Reserved(candidate)
    else CapacityExceeded
  }

  /** The routing table that the admission block leaves behind. */
  function AfterAdmission(routing: Routing, task: TaskId, index: nat, admission: Admission): Routing {
    match admission
    case Relayed(_) => routing
    case CapacityExceeded => routing
    case Reserved(None) => routing[task := Dispatching(index)]
    case Reserved(Some(victim)) => (routing - {victim})[task := Dispatching(index)]
  }

  /** The routing table after a driver confirms or rolls back its reservation. */
  function AfterCompletion(routing: Routing, driver: Driver, accepted: bool): Routing {
    if accepted then routing[driver.task := Routed(driver.index)] else routing - {driver.task}
  }

  /** An eviction is stale when the victim has become `Dispatching` again. */
  predicate Stale(routing: Routing, admission: Admission) {
    && admission.Reserved? && admission.evicted.Some?
    && admission.evicted.value in routing
    && routing[admission.evicted.value].Dispatching?
  }

  ghost predicate IsRoutedSnapshot(routing: Routing, routed: seq<(TaskId, nat)>) {
    && (forall i :: 0 <= i < |routed| ==> routed[i].0 in routing && routing[routed[i].0] == Routed(routed[i].1))
    && (forall t | t in routing && routing[t].Routed? :: (t, routing[t].index) in routed)
    && (forall i, j :: 0 <= i < j < |routed| ==> routed[i].0 != routed[j].0)
  }

  /** The mutex-guarded table and the round-robin counter, with one method per critical section. */
  class OverlordTable {
    var routing: Routing
    var next: nat
    const config: Config

    constructor (config: Config)
      ensures this.config == config && routing == map[] && next == 0
    {
      this.config := config;
      routing := map[];
      next := 0;
    }

    method LookupRoute(task: TaskId) returns (route: Option<RouteState>)
      ensures route.Some? <==> task in routing
      ensures route.Some? ==> route.value == routing[task]
    {
      route := if task in routing then Some(routing[task]) else None;
    }

    method SelectIndex() returns (index: Option<nat>)
      modifies `next
      ensures index == if config.middlemanagers == 0 then None else Some(old(next) % config.middlemanagers)
      ensures next == if config.middlemanagers == 0 then old(next) else (old(next) + 1) % U64_LIMIT
    {
      if config.middlemanagers == 0 {
        return None;
      }
      index := Some(next % config.middlemanagers);
      next := (next + 1) % U64_LIMIT;
    }

    /** The `Routed` entries, each once, in whatever order the table yields them. */
    method RoutedEntries() returns (routed: seq<(TaskId, nat)>)
      ensures IsRoutedSnapshot(routing, routed)
    {
      routed := [];
      var todo := routing.Keys;
      while todo != {}
        invariant todo <= routing.Keys
        invariant forall i :: 0 <= i < |routed| ==>
          routed[i].0 in routing.Keys - todo && routing[routed[i].0] == Routed(routed[i].1)
        invariant forall t | t in routing.Keys - todo && routing[t].Routed? :: (t, routing[t].index) in routed
        invariant forall i, j :: 0 <= i < j < |routed| ==> routed[i].0 != routed[j].0
        decreases |todo|
      {
        var t :| t in todo;
        todo := todo - {t};
        if routing[t].Routed? {
          routed := routed + [(t, routing[t].index)];
        }
      }
    }

    method AdmitTask(task: TaskId, index: nat, candidate: Option<TaskId>) returns (admission: Admission)
      modifies `routing
      ensures admission == Admissible(old(routing), config.maxRoutes, task, candidate)
      ensures routing == AfterAdmission(old(routing), task, index, admission)
      ensures task in old(routing) ==> admission == Relayed(old(routing)[task]) && routing == old(routing)
      ensures task !in old(routing) && |old(routing)| < config.maxRoutes ==>
        admission == Reserved(None) && routing == old(routing)[task := Dispatching(index)]
      ensures task !in old(routing) && |old(routing)| >= config.maxRoutes ==>
        if candidate.Some? && candidate.value in old(routing)
        then && admission == Reserved(candidate)
             && routing == (old(routing) - {candidate.value})[task := Dispatching(index)]
        else admission == CapacityExceeded && routing == old(routing)
    {
      if task in routing {
        return Relayed(routing[task]);
      }
      admission := Reserved(None);
      if |routing| >= config.maxRoutes {
        if candidate.Some? && candidate.value in routing {
          routing := routing - {candidate.value};
          admission := Reserved(candidate);
        } else {
          return CapacityExceeded;
        }
      }
      routing := routing[task := Dispatching(index)];
    }

    method CompleteDispatch(driver: Driver, accepted: bool)
      modifies `routing
      ensures routing == AfterCompletion(old(routing), driver, accepted)
      ensures if accepted then driver.task in routing && routing[driver.task] == Routed(driver.index)
              else driver.task !in routing
      ensures forall t | t != driver.task ::
        (t in routing <==> t in old(routing)) && (t in routing ==> routing[t] == old(routing)[t])
    {
      if accepted {
        routing := routing[driver.task := Routed(driver.index)];
      } else {
        routing := routing - {driver.task};
      }
    }
  }

  // ----- The transition system ------------------------------------------------------------

  ghost predicate InFlightDriver(s: State, d: DriverId) { d in s.drivers && d !in s.dead }

  ghost predicate Panicked(s: State, d: DriverId) { d in s.drivers && d in s.dead }

  ghost predicate Enabled(c: Config, s: State, l: Label) {
    match l
    case Arrive(r, _) => r !in s.requests
    case Lookup(r) => r in s.requests && s.requests[r].Arrived?
    case Select(r) => r in s.requests && s.requests[r].Missed?
    case CheckCapacity(r) => r in s.requests && s.requests[r].Selected?
    case Snapshot(r, routed) => r in s.requests && s.requests[r].AtCapacity? && IsRoutedSnapshot(s.routing, routed)
    case Poll(r, terminal) => r in s.requests && s.requests[r].Polling? && (terminal ==> s.requests[r].routed != [])
    case Admit(r, d) => r in s.requests && s.requests[r].Admitting? && d !in s.drivers
    case Complete(d, _) => InFlightDriver(s, d)
    case Panic(d) => InFlightDriver(s, d)
    case Answer(r) => r in s.requests && s.requests[r].Awaiting? && s.requests[r].driver !in s.drivers
    case CleanUp(r) => r in s.requests && s.requests[r].Awaiting? && Panicked(s, s.requests[r].driver)
    case Drop(r) => r in s.requests
  }

  ghost function Goto(s: State, r: RequestId, pc: Pc): State {
    s.(requests := s.requests[r := pc])
  }

  ghost function Finish(s: State, r: RequestId): State {
    s.(requests := s.requests - {r})
  }

  /** A reservation is confirmed or rolled back, and its driver is done. */
  ghost function Settle(s: State, d: DriverId, accepted: bool): State
    requires d in s.drivers
  {
    s.(routing := AfterCompletion(s.routing, s.drivers[d], accepted), drivers := s.drivers - {d}, dead := s.dead - {d})
  }

  ghost function Apply(c: Config, s: State, l: Label): State
    requires Enabled(c, s, l)
  {
    match l
    case Arrive(r, task) => Goto(s, r, Arrived(task))
    case Lookup(r) =>
      var task := s.requests[r].task;
      if task in s.routing then Finish(s, r) else Goto(s, r, Missed(task))
    case Select(r) =>
      if c.middlemanagers == 0 then Finish(s, r)
      else s.(next := (s.next + 1) % U64_LIMIT,
              requests := s.requests[r := Selected(s.requests[r].task, s.next % c.middlemanagers)])
    case CheckCapacity(r) =>
      var pc := s.requests[r];
      if |s.routing| >= c.maxRoutes then Goto(s, r, AtCapacity(pc.task, pc.index))
      else Goto(s, r, Admitting(pc.task, pc.index, None))
    case Snapshot(r, routed) =>
      var pc := s.requests[r];
      Goto(s, r, Polling(pc.task, pc.index, routed))
    case Poll(r, terminal) =>
      var pc := s.requests[r];
      if pc.routed == [] then Goto(s, r, Admitting(pc.task, pc.index, None))
      else if terminal then Goto(s, r, Admitting(pc.task, pc.index, Some(pc.routed[0].0)))
      else Goto(s, r, pc.(routed := pc.routed[1..]))
    case Admit(r, d) =>
      var pc := s.requests[r];
      var admission := Admissible(s.routing, c.maxRoutes, pc.task, pc.candidate);
      if admission.Reserved? then
        State(s.next,
              AfterAdmission(s.routing, pc.task, pc.index, admission),
              s.requests[r := Awaiting(d)],
              s.drivers[d := Driver(pc.task, pc.index)],
              s.dead,
              s.staleEvictions + if Stale(s.routing, admission) then 1 else 0)
      else Finish(s, r)
    case Complete(d, accepted) => Settle(s, d, accepted)
    case Panic(d) => s.(dead := s.dead + {d})
    case Answer(r) => Finish(s, r)
    case CleanUp(r) => Finish(Settle(s, s.requests[r].driver, false), r)
    case Drop(r) => Finish(s, r)
  }

  /** The state a run leads to; none when one of its labels is not enabled where it occurs. */
  ghost function Reach(c: Config, run: seq<Label>): Option<State> {
    if run == [] then Some(Initial)
    else
      var before := Reach(c, run[..|run| - 1]);
      var last := run[|run| - 1];
      if before.Some? && Enabled(c, before.value, last) then Some(Apply(c, before.value, last)) else None
  }

  ghost predicate IsRun(c: Config, run: seq<Label>) {
    Reach(c, run).Some?
  }

  ghost function After(c: Config, run: seq<Label>): State
    requires IsRun(c, run)
  {
    Reach(c, run).value
  }

  // ----- The invariant --------------------------------------------------------------------

  ghost function InFlight(routing: Routing): set<TaskId> {
    set t | t in routing && routing[t].Dispatching?
  }

  ghost function DriverTasks(drivers: map<DriverId, Driver>): map<DriverId, TaskId> {
    map d | d in drivers :: drivers[d].task
  }

  ghost predicate IndexesInRange(c: Config, s: State) {
    && (forall t | t in s.routing :: s.routing[t].index < c.middlemanagers)
    && (forall d | d in s.drivers :: s.drivers[d].index < c.middlemanagers)
    && (forall r | r in s.requests && !s.requests[r].Arrived? && !s.requests[r].Missed? && !s.requests[r].Awaiting? ::
          s.requests[r].index < c.middlemanagers)
  }

  /** Every reservation has its driver, in flight or panicked, at the index it was reserved for. */
  ghost predicate ReservationsDriven(s: State) {
    forall t | t in InFlight(s.routing) :: exists d :: d in s.drivers && s.drivers[d] == Driver(t, s.routing[t].index)
  }

  /** The drivers in excess of the reservations are paid for by stale evictions, and each of them
      may still add an entry of its own to the table. */
  ghost predicate Budget(c: Config, s: State) {
    && |s.drivers| <= s.staleEvictions + |InFlight(s.routing)|
    && |s.routing| + |s.drivers| <= c.maxRoutes + s.staleEvictions + |InFlight(s.routing)|
  }

  ghost predicate Inv(c: Config, s: State) {
    s.dead <= s.drivers.Keys && IndexesInRange(c, s) && ReservationsDriven(s) && Budget(c, s)
  }

  ghost function Victims(admission: Admission): set<TaskId> {
    if admission.Reserved? && admission.evicted.Some? then {admission.evicted.value} else {}
  }

  lemma ReservationKeys(routing: Routing, maxRoutes: nat, task: TaskId, index: nat,
                        candidate: Option<TaskId>)
    requires Admissible(routing, maxRoutes, task, candidate).Reserved?
    ensures var admission := Admissible(routing, maxRoutes, task, candidate);
            AfterAdmission(routing, task, index, admission).Keys == (routing.Keys - Victims(admission)) + {task}
  {
  }

  lemma ReservationInFlight(routing: Routing, maxRoutes: nat, task: TaskId, index: nat,
                            candidate: Option<TaskId>)
    requires Admissible(routing, maxRoutes, task, candidate).Reserved?
    ensures var admission := Admissible(routing, maxRoutes, task, candidate);
            InFlight(AfterAdmission(routing, task, index, admission)) ==
              (InFlight(routing) - Victims(admission)) + {task}
  {
  }

  /** What a reservation does to the size of the table and to the number of reservations. */
  lemma ReservationCounts(routing: Routing, maxRoutes: nat, task: TaskId, index: nat,
                          candidate: Option<TaskId>)
    requires Admissible(routing, maxRoutes, task, candidate).Reserved?
    ensures var admission := Admissible(routing, maxRoutes, task, candidate);
            var routing' := AfterAdmission(routing, task, index, admission);
            && |routing'| == |routing| + (if admission.evicted.Some? then 0 else 1)
            && |InFlight(routing')| == |InFlight(routing)| + (if Stale(routing, admission) then 0 else 1)
  {
    var admission := Admissible(routing, maxRoutes, task, candidate);
    ReservationKeys(routing, maxRoutes, task, index, candidate);
    ReservationInFlight(routing, maxRoutes, task, index, candidate);
    RemoveThenAdd(routing.Keys, Victims(admission), task);
    RemoveThenAdd(InFlight(routing), Victims(admission), task);
    VictimCounts(routing, maxRoutes, task, candidate);
  }

  /** The victim is one entry of the table, and one reservation exactly when the eviction is stale. */
  lemma VictimCounts(routing: Routing, maxRoutes: nat, task: TaskId, candidate: Option<TaskId>)
    requires Admissible(routing, maxRoutes, task, candidate).Reserved?
    ensures var admission := Admissible(routing, maxRoutes, task, candidate);
            && |routing.Keys * Victims(admission)| == (if admission.evicted.Some? then 1 else 0)
            && |InFlight(routing) * Victims(admission)| == (if Stale(routing, admission) then 1 else 0)
  {
    var admission := Admissible(routing, maxRoutes, task, candidate);
    assert routing.Keys * Victims(admission) == Victims(admission);
    if Stale(routing, admission) {
      assert InFlight(routing) * Victims(admission) == {admission.evicted.value};
    } else {
      assert InFlight(routing) * Victims(admission) == {};
    }
  }

  lemma CompletionKeys(routing: Routing, driver: Driver, accepted: bool)
    ensures AfterCompletion(routing, driver, accepted).Keys ==
            if accepted then routing.Keys + {driver.task} else routing.Keys - {driver.task}
  {
  }

  lemma CompletionInFlight(routing: Routing, driver: Driver, accepted: bool)
    ensures InFlight(AfterCompletion(routing, driver, accepted)) == InFlight(routing) - {driver.task}
  {
  }

  lemma AddRemoveCount(s: set<TaskId>, x: TaskId)
    ensures |s + {x}| == |s| + (if x in s then 0 else 1)
    ensures |s - {x}| == |s| - (if x in s then 1 else 0)
  {
    if x in s {
      assert s + {x} == s;
    } else {
      assert s - {x} == s;
    }
  }

  /** What a completion does to the size of the table and to the number of reservations. */
  lemma CompletionCounts(routing: Routing, driver: Driver, accepted: bool)
    ensures var routing' := AfterCompletion(routing, driver, accepted);
            && |InFlight(routing')| == |InFlight(routing)| - (if driver.task in InFlight(routing) then 1 else 0)
            && |routing'| <= |routing| + (if driver.task in InFlight(routing) then 0 else 1)
  {
    CompletionInFlight(routing, driver, accepted);
    AddRemoveCount(InFlight(routing), driver.task);
    CompletionTable(routing, driver, accepted);
  }

  lemma CompletionTable(routing: Routing, driver: Driver, accepted: bool)
    ensures |AfterCompletion(routing, driver, accepted)| <= |routing| + (if driver.task in routing then 0 else 1)
  {
    CompletionKeys(routing, driver, accepted);
    AddRemoveCount(routing.Keys, driver.task);
  }

  lemma AdmitKeepsReservationsDriven(c: Config, s: State, l: Label)
    requires ReservationsDriven(s) && l.Admit? && Enabled(c, s, l)
    ensures ReservationsDriven(Apply(c, s, l))
  {
    var pc := s.requests[l.request];
    if Admissible(s.routing, c.maxRoutes, pc.task, pc.candidate).Reserved? {
      var s' := Apply(c, s, l);
      forall t | t in InFlight(s'.routing)
        ensures exists d :: d in s'.drivers && s'.drivers[d] == Driver(t, s'.routing[t].index)
      {
        if t == pc.task {
          assert s'.drivers[l.driver] == Driver(t, s'.routing[t].index);
        } else {
          assert t in InFlight(s.routing);
          var d :| d in s.drivers && s.drivers[d] == Driver(t, s.routing[t].index);
          assert d in s'.drivers && s'.drivers[d] == Driver(t, s'.routing[t].index);
        }
      }
    }
  }

  lemma AdmitKeepsBudget(c: Config, s: State, l: Label)
    requires Budget(c, s) && l.Admit? && Enabled(c, s, l)
    ensures Budget(c, Apply(c, s, l))
  {
    var pc := s.requests[l.request];
    var admission := Admissible(s.routing, c.maxRoutes, pc.task, pc.candidate);
    if admission.Reserved? {
      ReservationCounts(s.routing, c.maxRoutes, pc.task, pc.index, pc.candidate);
      assert s.drivers[l.driver := Driver(pc.task, pc.index)].Keys == s.drivers.Keys + {l.driver};
    }
  }

  lemma AdmitKeepsIndexes(c: Config, s: State, l: Label)
    requires IndexesInRange(c, s) && l.Admit? && Enabled(c, s, l)
    ensures IndexesInRange(c, Apply(c, s, l))
  {
  }

  lemma AdmitKeepsInv(c: Config, s: State, l: Label)
    requires Inv(c, s) && l.Admit? && Enabled(c, s, l)
    ensures Inv(c, Apply(c, s, l))
  {
    AdmitKeepsReservationsDriven(c, s, l);
    AdmitKeepsBudget(c, s, l);
    AdmitKeepsIndexes(c, s, l);
  }

  lemma SettleKeepsReservationsDriven(s: State, d: DriverId, accepted: bool)
    requires ReservationsDriven(s) && d in s.drivers
    ensures ReservationsDriven(Settle(s, d, accepted))
  {
    var s' := Settle(s, d, accepted);
    CompletionInFlight(s.routing, s.drivers[d], accepted);
    forall t | t in InFlight(s'.routing)
      ensures exists e :: e in s'.drivers && s'.drivers[e] == Driver(t, s'.routing[t].index)
    {
      var e :| e in s.drivers && s.drivers[e] == Driver(t, s.routing[t].index);
      assert e in s'.drivers && s'.drivers[e] == Driver(t, s'.routing[t].index);
    }
  }

  lemma SettleKeepsBudget(c: Config, s: State, d: DriverId, accepted: bool)
    requires Budget(c, s) && d in s.drivers
    ensures Budget(c, Settle(s, d, accepted))
  {
    CompletionCounts(s.routing, s.drivers[d], accepted);
    assert Settle(s, d, accepted).drivers.Keys == s.drivers.Keys - {d};
  }

  lemma SettleKeepsIndexes(c: Config, s: State, d: DriverId, accepted: bool)
    requires IndexesInRange(c, s) && d in s.drivers
    ensures IndexesInRange(c, Settle(s, d, accepted))
  {
  }

  lemma SettleKeepsInv(c: Config, s: State, d: DriverId, accepted: bool)
    requires Inv(c, s) && d in s.drivers
    ensures Inv(c, Settle(s, d, accepted))
  {
    SettleKeepsReservationsDriven(s, d, accepted);
    SettleKeepsBudget(c, s, d, accepted);
    SettleKeepsIndexes(c, s, d, accepted);
  }

  predicate TouchesTable(l: Label) { l.Admit? || l.Complete? || l.CleanUp? }

  /** The other steps touch neither the table nor the drivers. */
  lemma OthersKeepTable(c: Config, s: State, l: Label)
    requires Enabled(c, s, l) && !TouchesTable(l)
    ensures var s' := Apply(c, s, l);
      s'.routing == s.routing && s'.drivers == s.drivers && s'.staleEvictions == s.staleEvictions
  {
    match l
    case Arrive(_, _) | Lookup(_) | Select(_) =>
    case CheckCapacity(_) | Snapshot(_, _) | Poll(_, _) =>
    case Panic(_) | Answer(_) | Drop(_) =>
    case Admit(_, _) =>
    case Complete(_, _) =>
    case CleanUp(_) =>
  }

  lemma OthersKeepIndexes(c: Config, s: State, l: Label)
    requires IndexesInRange(c, s) && Enabled(c, s, l) && !TouchesTable(l)
    ensures IndexesInRange(c, Apply(c, s, l))
  {
    var s' := Apply(c, s, l);
    OthersKeepTable(c, s, l);
    forall r | r in s'.requests && !s'.requests[r].Arrived? && !s'.requests[r].Missed? && !s'.requests[r].Awaiting?
      ensures s'.requests[r].index < c.middlemanagers
    {
      if r !in s.requests || s.requests[r] != s'.requests[r] {
        NewIndex(c, s, l, r);
      }
    }
  }

  /** The only new index comes from the round robin. */
  lemma NewIndex(c: Config, s: State, l: Label, r: RequestId)
    requires Enabled(c, s, l) && !TouchesTable(l)
    requires var s' := Apply(c, s, l);
      && r in s'.requests && !s'.requests[r].Arrived? && !s'.requests[r].Missed? && !s'.requests[r].Awaiting?
      && (r !in s.requests || s.requests[r] != s'.requests[r])
    ensures var s' := Apply(c, s, l);
      || (c.middlemanagers > 0 && s'.requests[r].index == s.next % c.middlemanagers)
      || (r in s.requests && !s.requests[r].Arrived? && !s.requests[r].Missed? && !s.requests[r].Awaiting?
          && s'.requests[r].index == s.requests[r].index)
  {
  }

  lemma OthersKeepInv(c: Config, s: State, l: Label)
    requires Inv(c, s) && Enabled(c, s, l) && !TouchesTable(l)
    ensures Inv(c, Apply(c, s, l))
  {
    OthersKeepTable(c, s, l);
    OthersKeepIndexes(c, s, l);
    SameTableSameInv(c, s, Apply(c, s, l));
  }

  lemma SameTableSameInv(c: Config, s: State, s': State)
    requires s'.routing == s.routing && s'.drivers == s.drivers && s'.staleEvictions == s.staleEvictions
    requires ReservationsDriven(s) && Budget(c, s)
    ensures ReservationsDriven(s') && Budget(c, s')
  {
  }

  lemma FinishKeepsInv(c: Config, s: State, r: RequestId)
    requires Inv(c, s)
    ensures Inv(c, Finish(s, r))
  {
    SameTableSameInv(c, s, Finish(s, r));
  }

  lemma StepKeepsInv(c: Config, s: State, l: Label)
    requires Inv(c, s) && Enabled(c, s, l)
    ensures Inv(c, Apply(c, s, l))
  {
    if l.Admit? {
      AdmitKeepsInv(c, s, l);
    } else if l.Complete? {
      SettleKeepsInv(c, s, l.driver, l.accepted);
    } else if l.CleanUp? {
      SettleKeepsInv(c, s, s.requests[l.request].driver, false);
      FinishKeepsInv(c, Settle(s, s.requests[l.request].driver, false), l.request);
    } else {
      OthersKeepInv(c, s, l);
    }
  }

  lemma {:induction false} RunKeepsInv(c: Config, run: seq<Label>)
    requires IsRun(c, run)
    ensures Inv(c, After(c, run))
    decreases |run|
  {
    if run == [] {
      assert InFlight(Initial.routing) == {};
    } else {
      RunKeepsInv(c, run[..|run| - 1]);
      StepKeepsInv(c, After(c, run[..|run| - 1]), run[|run| - 1]);
    }
  }

  lemma InFlightWithinDrivers(s: State)
    requires ReservationsDriven(s)
    ensures InFlight(s.routing) <= DriverTasks(s.drivers).Values
    ensures |InFlight(s.routing)| <= |DriverTasks(s.drivers).Values| <= |s.drivers|
  {
    var tasks := DriverTasks(s.drivers);
    forall t | t in InFlight(s.routing) ensures t in tasks.Values {
      var d :| d in s.drivers && s.drivers[d] == Driver(t, s.routing[t].index);
      assert d in tasks && tasks[d] == t;
    }
    assert tasks.Keys == s.drivers.Keys;
    SubsetCardinality(InFlight(s.routing), tasks.Values);
    ValuesCardinality(tasks);
  }

  /** As many drivers as reservations. */
  ghost predicate Matched(s: State) {
    |s.drivers| == |InFlight(s.routing)|
  }

  /** Then they correspond one to one. */
  lemma MatchedDrivers(s: State)
    requires ReservationsDriven(s) && Matched(s)
    ensures forall t :: t in InFlight(s.routing) <==> exists d :: d in s.drivers && s.drivers[d].task == t
    ensures forall d, e | d in s.drivers && e in s.drivers && s.drivers[d].task == s.drivers[e].task :: d == e
  {
    InFlightWithinDrivers(s);
    var tasks := DriverTasks(s.drivers);
    assert tasks.Keys == s.drivers.Keys;
    SubsetCardinality(InFlight(s.routing), tasks.Values);
    assert tasks.Values == InFlight(s.routing);
    forall d | d in s.drivers ensures s.drivers[d].task in InFlight(s.routing) {
      assert tasks[d] in tasks.Values;
    }
    forall d, e | d in s.drivers && e in s.drivers && s.drivers[d].task == s.drivers[e].task ensures d == e {
      ValuesCardinalityInjective(tasks, d, e);
    }
  }

  lemma InvBoundsTable(c: Config, s: State)
    requires Inv(c, s)
    ensures |s.routing| <= c.maxRoutes + s.staleEvictions
  {
    InFlightWithinDrivers(s);
  }

  // ----- Main results ---------------------------------------------------------------------

  /** The routing table outgrows its cap by at most one entry per stale eviction, on every run. */
  lemma CapHoldsUpToStaleEvictions(c: Config, run: seq<Label>)
    requires IsRun(c, run)
    ensures |After(c, run).routing| <= c.maxRoutes + After(c, run).staleEvictions
  {
    RunKeepsInv(c, run);
    InvBoundsTable(c, After(c, run));
  }

  /** Without stale evictions the reservations are exactly those of the drivers that have not ended, one
      driver each, so no task is dispatched twice at once and the cap is exact. */
  lemma ExactWithoutStaleEvictions(c: Config, run: seq<Label>)
    requires IsRun(c, run) && After(c, run).staleEvictions == 0
    ensures var s := After(c, run);
            && |s.routing| <= c.maxRoutes
            && (forall t :: t in InFlight(s.routing) <==> exists d :: d in s.drivers && s.drivers[d].task == t)
            && (forall d, e | d in s.drivers && e in s.drivers && s.drivers[d].task == s.drivers[e].task :: d == e)
  {
    RunKeepsInv(c, run);
    InFlightWithinDrivers(After(c, run));
    MatchedDrivers(After(c, run));
  }

  /** Only a panic makes a reservation leak: each has its driver, in flight or panicked, so once every
      driver has ended every entry is `Routed`; and every index handed to a middleManager look-up is
      in range. */
  lemma NoReservationLeak(c: Config, run: seq<Label>)
    requires IsRun(c, run)
    ensures var s := After(c, run);
            && IndexesInRange(c, s)
            && (forall t | t in s.routing && s.routing[t].Dispatching? ::
                  exists d :: d in s.drivers && s.drivers[d] == Driver(t, s.routing[t].index))
            && (s.drivers == map[] ==> forall t | t in s.routing :: s.routing[t].Routed?)
  {
    RunKeepsInv(c, run);
    var s := After(c, run);
    forall t | t in s.routing && s.routing[t].Dispatching?
      ensures exists d :: d in s.drivers && s.drivers[d] == Driver(t, s.routing[t].index)
    {
      assert t in InFlight(s.routing);
    }
  }

  ghost predicate Reserves(c: Config, run: seq<Label>, i: nat, task: TaskId)
    requires i < |run| && IsRun(c, run[..i])
  {
    var s := After(c, run[..i]);
    && run[i].Admit? && run[i].request in s.requests && s.requests[run[i].request].Admitting?
    && s.requests[run[i].request].task == task
    && Admissible(s.routing, c.maxRoutes, task, s.requests[run[i].request].candidate).Reserved?
  }

  lemma {:induction false} PrefixIsRun(c: Config, run: seq<Label>, i: nat)
    requires IsRun(c, run) && i <= |run|
    ensures IsRun(c, run[..i])
    ensures i < |run| ==> Enabled(c, After(c, run[..i]), run[i]) && IsRun(c, run[..i + 1])
                          && After(c, run[..i + 1]) == Apply(c, After(c, run[..i]), run[i])
    decreases |run|
  {
    if i == |run| {
      assert run[..i] == run;
    } else {
      var init := run[..|run| - 1];
      if i == |run| - 1 {
        assert run[..i + 1] == run;
      } else {
        PrefixIsRun(c, init, i);
        assert init[..i] == run[..i] && init[..i + 1] == run[..i + 1];
      }
    }
  }

  ghost predicate PresentAfter(c: Config, run: seq<Label>, i: nat, task: TaskId) {
    i <= |run| && IsRun(c, run[..i]) && task in After(c, run[..i]).routing
  }

  /** An entry present at one moment and absent at a later one goes away at some step in between. */
  lemma {:induction false} FirstRemoval(c: Config, run: seq<Label>, i: nat, j: nat, task: TaskId) returns (k: nat)
    requires i <= j && PresentAfter(c, run, i, task) && !PresentAfter(c, run, j, task)
    ensures i <= k < j && PresentAfter(c, run, k, task) && !PresentAfter(c, run, k + 1, task)
    decreases j - i
  {
    if PresentAfter(c, run, i + 1, task) {
      k := FirstRemoval(c, run, i + 1, j, task);
    } else {
      k := i;
    }
  }

  lemma ReservationInserts(c: Config, run: seq<Label>, i: nat, task: TaskId)
    requires IsRun(c, run) && i < |run| && IsRun(c, run[..i]) && Reserves(c, run, i, task)
    ensures !PresentAfter(c, run, i, task) && PresentAfter(c, run, i + 1, task)
  {
    PrefixIsRun(c, run, i);
  }

  /** Two reservations of one task are separated by a step that removes its entry. */
  lemma ReservationsAreSeparatedByRemoval(c: Config, run: seq<Label>, i: nat, j: nat, task: TaskId)
    returns (k: nat)
    requires IsRun(c, run) && i < j < |run|
    requires IsRun(c, run[..i]) && Reserves(c, run, i, task)
    requires IsRun(c, run[..j]) && Reserves(c, run, j, task)
    ensures i < k < j && PresentAfter(c, run, k, task) && !PresentAfter(c, run, k + 1, task)
  {
    ReservationInserts(c, run, i, task);
    ReservationInserts(c, run, j, task);
    k := FirstRemoval(c, run, i + 1, j, task);
  }

  // ----- Where a confirmed route comes from ---------------------------------------------------

  /** The step admits the task, which had no entry, at an index, under a driver that is new. */
  ghost predicate Admits(s: State, l: Label, s': State, d: DriverId, task: TaskId, index: nat) {
    && l.Admit? && l.driver == d && d !in s.drivers && task !in s.routing
    && l.request in s.requests && s.requests[l.request].Admitting?
    && s.requests[l.request].task == task && s.requests[l.request].index == index
    && task in s'.routing && s'.routing[task] == Dispatching(index)
    && d in s'.drivers && s'.drivers[d] == Driver(task, index)
  }

  ghost predicate AdmittedAt(c: Config, run: seq<Label>, a: nat, d: DriverId, task: TaskId, index: nat) {
    && a < |run| && IsRun(c, run[..a]) && IsRun(c, run[..a + 1])
    && Admits(After(c, run[..a]), run[a], After(c, run[..a + 1]), d, task, index)
  }

  lemma AdmittedLater(c: Config, run: seq<Label>, a: nat, d: DriverId, task: TaskId, index: nat)
    requires run != [] && AdmittedAt(c, run[..|run| - 1], a, d, task, index)
    ensures AdmittedAt(c, run, a, d, task, index)
  {
    var init := run[..|run| - 1];
    assert init[..a] == run[..a] && init[..a + 1] == run[..a + 1];
  }

  lemma AdmittedLast(c: Config, run: seq<Label>, d: DriverId, task: TaskId, index: nat)
    requires run != [] && IsRun(c, run)
    requires Admits(After(c, run[..|run| - 1]), run[|run| - 1], After(c, run), d, task, index)
    ensures AdmittedAt(c, run, |run| - 1, d, task, index)
  {
    assert run[..|run| - 1 + 1] == run;
  }

  /** Every driver was spawned by the admission of its task, at its index. */
  lemma {:induction false} DriverWasAdmitted(c: Config, run: seq<Label>, d: DriverId) returns (a: nat)
    requires IsRun(c, run) && d in After(c, run).drivers
    ensures var driver := After(c, run).drivers[d]; AdmittedAt(c, run, a, d, driver.task, driver.index)
    decreases |run|
  {
    var init, last := run[..|run| - 1], run[|run| - 1];
    var s, driver := After(c, init), After(c, run).drivers[d];
    if d in s.drivers && s.drivers[d] == driver {
      a := DriverWasAdmitted(c, init, d);
      AdmittedLater(c, run, a, d, driver.task, driver.index);
    } else {
      NewDriver(c, s, last, d);
      a := |run| - 1;
      AdmittedLast(c, run, d, driver.task, driver.index);
    }
  }

  lemma NewDriver(c: Config, s: State, l: Label, d: DriverId)
    requires Enabled(c, s, l) && d in Apply(c, s, l).drivers
    requires d !in s.drivers || s.drivers[d] != Apply(c, s, l).drivers[d]
    ensures var s' := Apply(c, s, l); Admits(s, l, s', d, s'.drivers[d].task, s'.drivers[d].index)
  {
    if !TouchesTable(l) {
      OthersKeepTable(c, s, l);
    }
  }

  lemma NewRoute(c: Config, s: State, l: Label, task: TaskId)
    requires Enabled(c, s, l) && task in Apply(c, s, l).routing && Apply(c, s, l).routing[task].Routed?
    requires task !in s.routing || s.routing[task] != Apply(c, s, l).routing[task]
    ensures l.Complete? && l.accepted && l.driver in s.drivers
    ensures s.drivers[l.driver] == Driver(task, Apply(c, s, l).routing[task].index)
  {
    if l.Admit? {
      AdmissionRoutesNothing(c, s, l, task);
    } else if !TouchesTable(l) {
      OthersKeepTable(c, s, l);
    }
  }

  lemma AdmissionRoutesNothing(c: Config, s: State, l: Label, task: TaskId)
    requires l.Admit? && Enabled(c, s, l) && task in Apply(c, s, l).routing && Apply(c, s, l).routing[task].Routed?
    ensures task in s.routing && s.routing[task] == Apply(c, s, l).routing[task]
  {
  }

  /** Some step of the run admitted the task at the index, and a later one accepted its driver. */
  ghost predicate Confirmed(c: Config, run: seq<Label>, task: TaskId, index: nat) {
    exists a: nat, b: nat, d: DriverId ::
      AdmittedAt(c, run, a, d, task, index) && a < b < |run| && run[b] == Complete(d, true)
  }

  lemma ConfirmedLater(c: Config, run: seq<Label>, task: TaskId, index: nat)
    requires run != [] && Confirmed(c, run[..|run| - 1], task, index)
    ensures Confirmed(c, run, task, index)
  {
    var init := run[..|run| - 1];
    var a: nat, b: nat, d: DriverId :|
      AdmittedAt(c, init, a, d, task, index) && a < b < |init| && init[b] == Complete(d, true);
    AdmittedLater(c, run, a, d, task, index);
    assert run[b] == Complete(d, true);
  }

  lemma JustConfirmed(c: Config, run: seq<Label>, task: TaskId)
    requires run != [] && IsRun(c, run)
    requires var s, s' := After(c, run[..|run| - 1]), After(c, run);
      && task in s'.routing && s'.routing[task].Routed?
      && (task !in s.routing || s.routing[task] != s'.routing[task])
    ensures Confirmed(c, run, task, After(c, run).routing[task].index)
  {
    var init, last, index := run[..|run| - 1], run[|run| - 1], After(c, run).routing[task].index;
    NewRoute(c, After(c, init), last, task);
    var a := DriverWasAdmitted(c, init, last.driver);
    AdmittedLater(c, run, a, last.driver, task, index);
    assert run[|run| - 1] == Complete(last.driver, true);
  }

  /** A route that is `Routed` at an index was reserved for a driver at that very index, and that driver
      was accepted. */
  lemma {:induction false} RoutedWasConfirmed(c: Config, run: seq<Label>, task: TaskId)
    requires IsRun(c, run) && task in After(c, run).routing && After(c, run).routing[task].Routed?
    ensures Confirmed(c, run, task, After(c, run).routing[task].index)
    decreases |run|
  {
    var init := run[..|run| - 1];
    var s, route := After(c, init), After(c, run).routing[task];
    if task in s.routing && s.routing[task] == route {
      RoutedWasConfirmed(c, init, task);
      ConfirmedLater(c, run, task, route.index);
    } else {
      JustConfirmed(c, run, task);
    }
  }

  /** What the admission of request `r` would do. */
  ghost function AdmissionOf(c: Config, s: State, r: RequestId): Admission
    requires r in s.requests && s.requests[r].Admitting?
  {
    Admissible(s.routing, c.maxRoutes, s.requests[r].task, s.requests[r].candidate)
  }

  /** From a state whose drivers and reservations match one to one, an admission keeps them matched
      exactly when the entry it evicts, if any, is still `Routed`. */
  lemma AdmissionKeepsMatchingIff(c: Config, s: State, r: RequestId, d: DriverId)
    requires Inv(c, s) && Enabled(c, s, Admit(r, d)) && Matched(s)
    ensures Matched(Apply(c, s, Admit(r, d))) <==> !Stale(s.routing, AdmissionOf(c, s, r))
  {
    var pc := s.requests[r];
    if AdmissionOf(c, s, r).Reserved? {
      ReservationCounts(s.routing, c.maxRoutes, pc.task, pc.index, pc.candidate);
      AdmissionDrivers(c, s, r, d);
    }
  }

  lemma AdmissionDrivers(c: Config, s: State, r: RequestId, d: DriverId)
    requires Enabled(c, s, Admit(r, d)) && AdmissionOf(c, s, r).Reserved?
    ensures |Apply(c, s, Admit(r, d)).drivers| == |s.drivers| + 1
  {
    var driver := Driver(s.requests[r].task, s.requests[r].index);
    AdmissionSpawns(c, s, r, d);
    OneMoreDriver(s.drivers, d, driver);
  }

  lemma AdmissionSpawns(c: Config, s: State, r: RequestId, d: DriverId)
    requires Enabled(c, s, Admit(r, d)) && AdmissionOf(c, s, r).Reserved?
    ensures Apply(c, s, Admit(r, d)).drivers == s.drivers[d := Driver(s.requests[r].task, s.requests[r].index)]
  {
  }

  lemma OneMoreDriver(drivers: map<DriverId, Driver>, d: DriverId, driver: Driver)
    requires d !in drivers
    ensures |drivers[d := driver]| == |drivers| + 1
  {
    assert drivers[d := driver].Keys == drivers.Keys + {d};
  }

  /** The table is within the cap, and stays so whichever driver in flight succeeds next. */
  ghost predicate CapSafe(c: Config, s: State) {
    && |s.routing| <= c.maxRoutes
    && forall d | InFlightDriver(s, d) :: |Apply(c, s, Complete(d, true)).routing| <= c.maxRoutes
  }

  /** The admission evicts a reservation whose driver is still in flight. */
  ghost predicate EvictsInFlight(c: Config, s: State, r: RequestId)
    requires r in s.requests && s.requests[r].Admitting?
  {
    var admission := AdmissionOf(c, s, r);
    && Stale(s.routing, admission)
    && exists e :: InFlightDriver(s, e) && s.drivers[e].task == admission.evicted.value
  }

  lemma MatchedIsCapSafe(c: Config, s: State)
    requires ReservationsDriven(s) && Matched(s) && |s.routing| <= c.maxRoutes
    ensures CapSafe(c, s)
  {
    MatchedDrivers(s);
    forall d | InFlightDriver(s, d) ensures |Apply(c, s, Complete(d, true)).routing| <= c.maxRoutes {
      assert s.drivers[d].task in InFlight(s.routing);
      CompletionTable(s.routing, s.drivers[d], true);
    }
  }

  /** Evicting such a reservation leaves a driver whose success would put its entry back over the cap. */
  lemma EvictingInFlightIsNotCapSafe(c: Config, s: State, r: RequestId, d: DriverId)
    requires Inv(c, s) && Enabled(c, s, Admit(r, d)) && EvictsInFlight(c, s, r)
    ensures !CapSafe(c, Apply(c, s, Admit(r, d)))
  {
    var pc, victim := s.requests[r], AdmissionOf(c, s, r).evicted.value;
    var s' := Apply(c, s, Admit(r, d));
    ReservationCounts(s.routing, c.maxRoutes, pc.task, pc.index, pc.candidate);
    var e :| InFlightDriver(s, e) && s.drivers[e].task == victim;
    assert InFlightDriver(s', e) && s'.drivers[e].task == victim && victim !in s'.routing;
    var s'' := Apply(c, s', Complete(e, true));
    CompletionKeys(s'.routing, s'.drivers[e], true);
    AddRemoveCount(s'.routing.Keys, victim);
    assert |s''.routing| == |s'.routing| + 1;
  }

  /** After a stale eviction of a reservation whose driver panicked no single success breaks the cap. */
  lemma EvictingPanickedIsCapSafe(c: Config, s: State, r: RequestId, d: DriverId)
    requires Inv(c, s) && Enabled(c, s, Admit(r, d)) && Matched(s) && |s.routing| <= c.maxRoutes
    requires Stale(s.routing, AdmissionOf(c, s, r)) && !EvictsInFlight(c, s, r)
    ensures CapSafe(c, Apply(c, s, Admit(r, d)))
  {
    var pc, victim := s.requests[r], AdmissionOf(c, s, r).evicted.value;
    var s' := Apply(c, s, Admit(r, d));
    ReservationCounts(s.routing, c.maxRoutes, pc.task, pc.index, pc.candidate);
    forall e | InFlightDriver(s', e) ensures |Apply(c, s', Complete(e, true)).routing| <= c.maxRoutes {
      if e != d {
        assert InFlightDriver(s, e) && s.drivers[e].task != victim;
        UnharmedDriver(c, s, r, d, e);
      }
      CompletionTable(s'.routing, s'.drivers[e], true);
    }
  }

  /** A driver whose reservation is not the one evicted keeps it. */
  lemma UnharmedDriver(c: Config, s: State, r: RequestId, d: DriverId, e: DriverId)
    requires ReservationsDriven(s) && Matched(s) && Enabled(c, s, Admit(r, d)) && e in s.drivers
    requires AdmissionOf(c, s, r).Reserved? && s.drivers[e].task !in Victims(AdmissionOf(c, s, r))
    ensures s.drivers[e].task in Apply(c, s, Admit(r, d)).routing
  {
    var pc := s.requests[r];
    MatchedDrivers(s);
    assert s.drivers[e].task in InFlight(s.routing);
    ReservationKeys(s.routing, c.maxRoutes, pc.task, pc.index, pc.candidate);
  }

  /** From a matched state within the cap, an admission keeps the cap for now, that is through the
      success of any one driver then in flight, exactly when it does not evict a reservation being
      driven. */
  lemma AdmissionIsCapSafeIff(c: Config, s: State, r: RequestId, d: DriverId)
    requires Inv(c, s) && Enabled(c, s, Admit(r, d)) && Matched(s) && |s.routing| <= c.maxRoutes
    ensures CapSafe(c, Apply(c, s, Admit(r, d))) <==> !EvictsInFlight(c, s, r)
  {
    var s' := Apply(c, s, Admit(r, d));
    if EvictsInFlight(c, s, r) {
      EvictingInFlightIsNotCapSafe(c, s, r, d);
    } else if Stale(s.routing, AdmissionOf(c, s, r)) {
      EvictingPanickedIsCapSafe(c, s, r, d);
    } else {
      StepKeepsInv(c, s, Admit(r, d));
      AdmissionKeepsMatchingIff(c, s, r, d);
      AdmissionSize(c, s, r, d);
      MatchedIsCapSafe(c, s');
    }
  }

  lemma AdmissionSize(c: Config, s: State, r: RequestId, d: DriverId)
    requires Enabled(c, s, Admit(r, d)) && |s.routing| <= c.maxRoutes
    ensures |Apply(c, s, Admit(r, d)).routing| <= c.maxRoutes
  {
    if AdmissionOf(c, s, r).Reserved? {
      var pc := s.requests[r];
      ReservationCounts(s.routing, c.maxRoutes, pc.task, pc.index, pc.candidate);
    }
  }

  // ----- Panics ---------------------------------------------------------------------------

  /** A driver that panicked, and whose request is no longer there to clean up after it. */
  ghost predicate Abandoned(s: State, d: DriverId) {
    Panicked(s, d) && forall r :: r in s.requests ==> s.requests[r] != Awaiting(d)
  }

  /** A panicked driver is cleaned up after by its request, if that has not been dropped, and by
      nothing else. */
  lemma PanickedUntilCleanUp(c: Config, s: State, l: Label, d: DriverId)
    requires Panicked(s, d) && Enabled(c, s, l)
    ensures var s' := Apply(c, s, l);
      if l.CleanUp? && s.requests[l.request] == Awaiting(d)
      then d !in s'.drivers && s.drivers[d].task !in s'.routing
      else Panicked(s', d) && s'.drivers[d] == s.drivers[d]
  {
    match l
    case Admit(_, _) =>
    case Complete(_, _) | CleanUp(_) =>
    case Arrive(_, _) | Lookup(_) | Select(_) =>
    case CheckCapacity(_) | Snapshot(_, _) | Poll(_, _) =>
    case Panic(_) | Answer(_) | Drop(_) =>
  }

  lemma NobodyStartsToAwait(c: Config, s: State, l: Label, d: DriverId)
    requires Enabled(c, s, l) && d in s.drivers && forall r :: r in s.requests ==> s.requests[r] != Awaiting(d)
    ensures var s' := Apply(c, s, l); forall r :: r in s'.requests ==> s'.requests[r] != Awaiting(d)
  {
    match l
    case Admit(_, _) =>
    case Complete(_, _) | CleanUp(_) =>
    case Arrive(_, _) | Lookup(_) | Select(_) =>
    case CheckCapacity(_) | Snapshot(_, _) | Poll(_, _) =>
    case Panic(_) | Answer(_) | Drop(_) =>
  }

  lemma {:induction false} AbandonedForGood(c: Config, run: seq<Label>, n: nat, d: DriverId)
    requires IsRun(c, run) && n <= |run| && IsRun(c, run[..n]) && Abandoned(After(c, run[..n]), d)
    ensures Abandoned(After(c, run), d) && After(c, run).drivers[d] == After(c, run[..n]).drivers[d]
    decreases |run|
  {
    if n == |run| {
      assert run[..n] == run;
    } else {
      var init := run[..|run| - 1];
      assert init[..n] == run[..n];
      AbandonedForGood(c, init, n, d);
      PanickedUntilCleanUp(c, After(c, init), run[|run| - 1], d);
      NobodyStartsToAwait(c, After(c, init), run[|run| - 1], d);
    }
  }

  /** The reservation of an abandoned driver takes up its place in the table for good, as long as no
      stale eviction happens to hit it. */
  lemma AbandonedReservationStays(c: Config, run: seq<Label>, n: nat, d: DriverId)
    requires IsRun(c, run) && n <= |run| && IsRun(c, run[..n]) && Abandoned(After(c, run[..n]), d)
    requires After(c, run).staleEvictions == 0
    ensures After(c, run[..n]).drivers[d].task in InFlight(After(c, run).routing)
  {
    AbandonedForGood(c, run, n, d);
    ExactWithoutStaleEvictions(c, run);
  }

  /** Nothing is being served any more: no request waits and no driver is in flight. */
  ghost predicate Quiescent(s: State) {
    s.requests == map[] && forall d :: d in s.drivers ==> d in s.dead
  }

  /** When all has come to rest without stale evictions, a reservation has leaked exactly when its
      driver was abandoned. */
  lemma LeakedIffAbandoned(c: Config, run: seq<Label>, task: TaskId)
    requires IsRun(c, run) && After(c, run).staleEvictions == 0 && Quiescent(After(c, run))
    ensures var s := After(c, run);
      task in InFlight(s.routing) <==> exists d :: Abandoned(s, d) && s.drivers[d].task == task
  {
    var s := After(c, run);
    ExactWithoutStaleEvictions(c, run);
    if task in InFlight(s.routing) {
      var d :| d in s.drivers && s.drivers[d].task == task;
      assert Abandoned(s, d);
    }
  }

  /** A dropped request and then a panic of its driver are enough for a leak. */
  lemma DropThenPanicLeaks(c: Config, task: TaskId)
    requires c.middlemanagers > 0 && c.maxRoutes > 0
    ensures exists run :: IsRun(c, run) && After(c, run).staleEvictions == 0 && Quiescent(After(c, run))
                          && task in InFlight(After(c, run).routing)
  {
    ReachableIsClosed(c);
    var s := ReserveThenDrop(c, Reachable(c), task);
    var run :| Reach(c, run) == Some(s);
    var run' := run + [Panic(0)];
    var s' := s.(dead := s.dead + {0});
    assert run'[..|run'| - 1] == run;
    assert Reach(c, run') == Some(s');
    assert IsRun(c, run') && After(c, run') == s';
  }

  lemma ReserveThenDrop(c: Config, reach: iset<State>, task: TaskId) returns (s: State)
    requires Closed(c, reach) && Initial in reach && c.middlemanagers > 0 && c.maxRoutes > 0
    ensures s in reach && s.requests == map[] && s.drivers.Keys == {0} && s.dead == {} && s.staleEvictions == 0
    ensures task in InFlight(s.routing)
  {
    s := ReachAdmitting(c, reach, Initial, 0, task, None);
    s := ReserveRoute(c, reach, s, 0);
    s := Extend(c, reach, s, Drop(0));
  }

  // ----- The bound is tight ---------------------------------------------------------------

  /** The states reached by runs in which nobody panics, and any other set of states that only panics
      leave. */
  ghost function Reachable(c: Config): iset<State> {
    iset s, run | Reach(c, run) == Some(s) && s.dead == {} :: s
  }

  ghost predicate Closed(c: Config, reach: iset<State>) {
    forall s, l | s in reach && Enabled(c, s, l) && !l.Panic? :: Apply(c, s, l) in reach
  }

  ghost predicate PanicFree(reach: iset<State>) {
    forall s :: s in reach ==> s.dead == {}
  }

  lemma ReachableIsClosed(c: Config)
    ensures Closed(c, Reachable(c)) && PanicFree(Reachable(c)) && Initial in Reachable(c)
  {
    assert Reach(c, []) == Some(Initial);
    forall s, l | s in Reachable(c) && Enabled(c, s, l) && !l.Panic? ensures Apply(c, s, l) in Reachable(c) {
      var run :| Reach(c, run) == Some(s);
      var run' := run + [l];
      assert run'[..|run'| - 1] == run;
      assert Reach(c, run') == Some(Apply(c, s, l));
    }
  }

  lemma Extend(c: Config, reach: iset<State>, s: State, l: Label) returns (s': State)
    requires Closed(c, reach) && s in reach && Enabled(c, s, l) && !l.Panic?
    ensures s' in reach && s' == Apply(c, s, l)
  {
    s' := Apply(c, s, l);
  }

  lemma {:induction false} SnapshotExists(routing: Routing) returns (routed: seq<(TaskId, nat)>)
    ensures IsRoutedSnapshot(routing, routed)
    decreases |routing|
  {
    if routing == map[] {
      routed := [];
    } else {
      var t :| t in routing;
      var rest := routing - {t};
      assert rest.Keys == routing.Keys - {t};
      var tail := SnapshotExists(rest);
      if routing[t].Routed? {
        SnapshotAdding(routing, t, tail);
        routed := [(t, routing[t].index)] + tail;
      } else {
        SnapshotSkipping(routing, t, tail);
        routed := tail;
      }
    }
  }

  lemma SnapshotAdding(routing: Routing, t: TaskId, tail: seq<(TaskId, nat)>)
    requires t in routing && routing[t].Routed? && IsRoutedSnapshot(routing - {t}, tail)
    ensures IsRoutedSnapshot(routing, [(t, routing[t].index)] + tail)
  {
    var routed, rest := [(t, routing[t].index)] + tail, routing - {t};
    forall u | u in routing && routing[u].Routed? ensures (u, routing[u].index) in routed {
      if u == t {
        assert routed[0] == (u, routing[u].index);
      } else {
        assert u in rest && rest[u] == routing[u];
        assert (u, rest[u].index) in tail;
      }
    }
    forall i | 0 <= i < |tail| ensures tail[i].0 != t && tail[i].0 in routing {
      assert tail[i].0 in rest;
    }
  }

  lemma SnapshotSkipping(routing: Routing, t: TaskId, tail: seq<(TaskId, nat)>)
    requires t in routing && !routing[t].Routed? && IsRoutedSnapshot(routing - {t}, tail)
    ensures IsRoutedSnapshot(routing, tail)
  {
    var rest := routing - {t};
    forall u | u in routing && routing[u].Routed? ensures (u, routing[u].index) in tail {
      assert u in rest && rest[u] == routing[u];
    }
  }

  lemma SnapshotStartingWith(routing: Routing, first: TaskId) returns (routed: seq<(TaskId, nat)>)
    requires first in routing && routing[first].Routed?
    ensures IsRoutedSnapshot(routing, routed) && routed != [] && routed[0].0 == first
  {
    var tail := SnapshotExists(routing - {first});
    routed := [(first, routing[first].index)] + tail;
    SnapshotAdding(routing, first, tail);
  }

  /** A request for an unknown task can get as far as admission, holding a terminal task as its
      eviction candidate when the table is full. */
  lemma ReachAdmitting(c: Config, reach: iset<State>, s: State, r: RequestId, task: TaskId,
                       candidate: Option<TaskId>) returns (s': State)
    requires Closed(c, reach) && s in reach && c.middlemanagers > 0
    requires r !in s.requests && task !in s.routing
    requires match candidate
             case None => |s.routing| < c.maxRoutes
             case Some(victim) => |s.routing| >= c.maxRoutes && victim in s.routing && s.routing[victim].Routed?
    ensures s' in reach
    ensures s' == s.(next := (s.next + 1) % U64_LIMIT,
                     requests := s.requests[r := Admitting(task, s.next % c.middlemanagers, candidate)])
  {
    var index := s.next % c.middlemanagers;
    s' := ReachSelected(c, reach, s, r, task);
    s' := Extend(c, reach, s', CheckCapacity(r));
    if candidate.Some? {
      assert s'.requests[r] == AtCapacity(task, index);
      var routed := SnapshotStartingWith(s.routing, candidate.value);
      s' := Extend(c, reach, s', Snapshot(r, routed));
      assert s'.requests[r] == Polling(task, index, routed);
      s' := Extend(c, reach, s', Poll(r, true));
    }
    assert s'.requests == s.requests[r := Admitting(task, index, candidate)];
  }

  lemma ReachSelected(c: Config, reach: iset<State>, s: State, r: RequestId, task: TaskId)
    returns (s': State)
    requires Closed(c, reach) && s in reach && c.middlemanagers > 0
    requires r !in s.requests && task !in s.routing
    ensures s' in reach
    ensures s' == s.(next := (s.next + 1) % U64_LIMIT,
                     requests := s.requests[r := Selected(task, s.next % c.middlemanagers)])
  {
    s' := Extend(c, reach, s, Arrive(r, task));
    s' := Extend(c, reach, s', Lookup(r));
    assert s'.requests[r] == Missed(task);
    s' := Extend(c, reach, s', Select(r));
    assert s'.requests == s.requests[r := Selected(task, s.next % c.middlemanagers)];
  }

  lemma FreshTask(used: set<TaskId>) returns (task: TaskId)
    ensures task !in used
  {
    var n := LongestName(used);
    task := TaskId(seq(n + 1, _ => 'x'));
  }

  lemma {:induction false} LongestName(used: set<TaskId>) returns (n: nat)
    ensures forall t | t in used :: |t.name| <= n
    decreases |used|
  {
    if used == {} {
      n := 0;
    } else {
      var t :| t in used;
      n := LongestName(used - {t});
      n := if |t.name| > n then |t.name| else n;
    }
  }

  /** A request that is admitted reserves its route and spawns a driver, here numbered like it. */
  lemma ReserveRoute(c: Config, reach: iset<State>, s: State, r: RequestId) returns (s': State)
    requires Closed(c, reach) && s in reach
    requires r in s.requests && s.requests[r].Admitting? && r !in s.drivers && s.requests[r].task !in s.routing
    requires || |s.routing| < c.maxRoutes
             || (s.requests[r].candidate.Some? && s.requests[r].candidate.value in s.routing)
    ensures s' in reach && s'.dead == s.dead
    ensures s'.requests == s.requests[r := Awaiting(r)]
    ensures s'.drivers == s.drivers[r := Driver(s.requests[r].task, s.requests[r].index)]
    ensures s'.routing.Keys == (s.routing.Keys - Displaced(c, s, r)) + {s.requests[r].task}
    ensures s'.routing[s.requests[r].task].Dispatching?
    ensures forall t | t in s.routing && t in s'.routing :: s'.routing[t] == s.routing[t]
    ensures s'.staleEvictions ==
            s.staleEvictions + if exists t :: t in Displaced(c, s, r) && s.routing[t].Dispatching? then 1 else 0
  {
    var pc := s.requests[r];
    s' := Extend(c, reach, s, Admit(r, r));
    ReservationKeys(s.routing, c.maxRoutes, pc.task, pc.index, pc.candidate);
  }

  /** The entry that the admission of request `r` evicts, if any. */
  ghost function Displaced(c: Config, s: State, r: RequestId): (gone: set<TaskId>)
    requires r in s.requests && s.requests[r].Admitting?
    ensures gone <= s.routing.Keys
  {
    if |s.routing| >= c.maxRoutes && s.requests[r].candidate.Some? && s.requests[r].candidate.value in s.routing
    then {s.requests[r].candidate.value} else {}
  }

  lemma FinishDriver(c: Config, reach: iset<State>, s: State, d: DriverId, accepted: bool)
    returns (s': State)
    requires Closed(c, reach) && s in reach && InFlightDriver(s, d)
    ensures s' in reach && s'.dead == s.dead
    ensures var task := s.drivers[d].task;
            && s'.requests == s.requests && s'.drivers == s.drivers - {d} && s'.staleEvictions == s.staleEvictions
            && s'.routing.Keys == if accepted then s.routing.Keys + {task} else s.routing.Keys - {task}
  {
    s' := Extend(c, reach, s, Complete(d, accepted));
    CompletionKeys(s.routing, s.drivers[d], accepted);
  }

  /** A moment at which nobody is being served. */
  ghost predicate Quiet(s: State) {
    s.requests == map[] && s.drivers == map[]
  }

  /** One more task can be routed while there is room. */
  lemma RouteOneMore(c: Config, reach: iset<State>, s: State) returns (s': State)
    requires Closed(c, reach) && PanicFree(reach) && s in reach
    requires c.middlemanagers > 0 && Quiet(s) && |s.routing| < c.maxRoutes
    ensures s' in reach && Quiet(s')
    ensures |s'.routing| == |s.routing| + 1 && s'.staleEvictions == s.staleEvictions
  {
    var task := FreshTask(s.routing.Keys);
    s' := ReserveOneMore(c, reach, s, task);
    s' := SettleOne(c, reach, s');
  }

  lemma ReserveOneMore(c: Config, reach: iset<State>, s: State, task: TaskId) returns (s': State)
    requires Closed(c, reach) && s in reach && c.middlemanagers > 0 && Quiet(s) && |s.routing| < c.maxRoutes
    requires task !in s.routing
    ensures s' in reach && s'.staleEvictions == s.staleEvictions
    ensures s'.requests == map[0 := Awaiting(0)] && s'.drivers.Keys == {0} && s'.drivers[0].task == task
    ensures s'.routing.Keys == s.routing.Keys + {task} && |s'.routing| == |s.routing| + 1
  {
    var ready := ReachAdmitting(c, reach, s, 0, task, None);
    s' := ReserveWithRoom(c, reach, ready, 0);
    AddRemoveCount(s.routing.Keys, task);
  }

  /** A reservation while there is room evicts nothing. */
  lemma ReserveWithRoom(c: Config, reach: iset<State>, s: State, r: RequestId) returns (s': State)
    requires Closed(c, reach) && s in reach && |s.routing| < c.maxRoutes
    requires r in s.requests && s.requests[r].Admitting? && r !in s.drivers && s.requests[r].task !in s.routing
    ensures s' in reach && s'.dead == s.dead && s'.staleEvictions == s.staleEvictions
    ensures s'.requests == s.requests[r := Awaiting(r)]
    ensures s'.drivers == s.drivers[r := Driver(s.requests[r].task, s.requests[r].index)]
    ensures s'.routing.Keys == s.routing.Keys + {s.requests[r].task}
  {
    s' := ReserveRoute(c, reach, s, r);
    assert Displaced(c, s, r) == {};
    assert s.routing.Keys - {} == s.routing.Keys;
  }

  lemma SettleOne(c: Config, reach: iset<State>, s: State) returns (s': State)
    requires Closed(c, reach) && PanicFree(reach) && s in reach
    requires s.requests == map[0 := Awaiting(0)] && s.drivers.Keys == {0} && s.drivers[0].task in s.routing
    ensures s' in reach && Quiet(s') && s'.routing.Keys == s.routing.Keys && s'.staleEvictions == s.staleEvictions
  {
    s' := FinishDriver(c, reach, s, 0, true);
    assert s'.drivers.Keys == {} && s'.routing.Keys == s.routing.Keys;
    s' := Extend(c, reach, s', Answer(0));
  }

  /** Request 0 holds `victim` as its eviction candidate while `victim` is evicted, submitted again
      and reserved by request 2. */
  ghost predicate ReadyToOvergrow(c: Config, s: State, victim: TaskId, b: TaskId) {
    && s.requests.Keys == {0, 1, 2}
    && s.requests[0].Admitting? && s.requests[0].task == b && s.requests[0].candidate == Some(victim)
    && s.requests[1] == Awaiting(1) && s.requests[2] == Awaiting(2)
    && b !in s.routing && victim in s.routing && s.routing[victim].Dispatching?
    && |s.routing| >= c.maxRoutes
    && 2 in s.drivers && s.drivers[2].task == victim && s.drivers.Keys <= {1, 2}
    && (1 in s.drivers ==> s.drivers[1].task in s.routing && s.drivers[1].task != victim)
  }

  /** Requests 0 and 1 both picked `victim`; request 1 has evicted it. */
  ghost predicate VictimGone(s: State, s': State, victim: TaskId, b: TaskId, d: TaskId) {
    && s'.requests.Keys == {0, 1}
    && s'.requests[0].Admitting? && s'.requests[0].task == b && s'.requests[0].candidate == Some(victim)
    && s'.requests[1] == Awaiting(1)
    && s'.drivers.Keys == {1} && s'.drivers[1].task == d
    && s'.routing.Keys == (s.routing.Keys - {victim}) + {d}
    && (forall t | t in s.routing && t in s'.routing :: s'.routing[t] == s.routing[t])
    && s'.staleEvictions == s.staleEvictions
  }

  lemma EvictVictim(c: Config, reach: iset<State>, s: State, victim: TaskId, b: TaskId, d: TaskId)
    returns (s': State)
    requires Closed(c, reach) && s in reach && c.middlemanagers > 0 && Quiet(s) && |s.routing| >= c.maxRoutes
    requires victim in s.routing && b !in s.routing && d !in s.routing && s.routing[victim].Routed?
    ensures s' in reach && VictimGone(s, s', victim, b, d)
  {
    s' := ReachAdmitting(c, reach, s, 0, b, Some(victim));
    s' := ReachAdmitting(c, reach, s', 1, d, Some(victim));
    assert Displaced(c, s', 1) == {victim};
    s' := ReserveRoute(c, reach, s', 1);
  }

  /** `victim` was alone in the table: its evictor rolls back, and it is reserved in an empty table. */
  lemma ResubmitAlone(c: Config, reach: iset<State>, s0: State, s: State, victim: TaskId, b: TaskId,
                      d: TaskId)
    returns (s': State)
    requires Closed(c, reach) && PanicFree(reach) && s in reach && c.middlemanagers > 0 && c.maxRoutes == 1
    requires VictimGone(s0, s, victim, b, d) && s0.routing.Keys == {victim} && d != b && d != victim && b != victim
    ensures s' in reach && ReadyToOvergrow(c, s', victim, b)
    ensures |s'.routing| == |s0.routing| && s'.staleEvictions == s.staleEvictions
  {
    assert s.routing.Keys == {d};
    s' := FinishDriver(c, reach, s, 1, false);
    assert s'.routing == map[] && s'.drivers == map[];
    s' := ReserveInEmpty(c, reach, s', victim);
  }

  lemma ReserveInEmpty(c: Config, reach: iset<State>, s: State, task: TaskId) returns (s': State)
    requires Closed(c, reach) && s in reach && c.middlemanagers > 0 && c.maxRoutes > 0
    requires s.routing == map[] && s.drivers == map[] && 2 !in s.requests
    ensures s' in reach && s'.requests == s.requests[2 := Awaiting(2)] && s'.staleEvictions == s.staleEvictions
    ensures s'.drivers.Keys == {2} && s'.drivers[2].task == task
    ensures s'.routing.Keys == {task} && s'.routing[task].Dispatching?
  {
    s' := ReachAdmitting(c, reach, s, 2, task, None);
    assert Displaced(c, s', 2) == {};
    s' := ReserveRoute(c, reach, s', 2);
  }

  /** `victim` comes back by evicting another entry. */
  lemma ResubmitOver(c: Config, reach: iset<State>, s0: State, s: State, victim: TaskId, b: TaskId,
                     d: TaskId, other: TaskId)
    returns (s': State)
    requires Closed(c, reach) && s in reach && c.middlemanagers > 0 && |s0.routing| >= c.maxRoutes
    requires VictimGone(s0, s, victim, b, d) && d !in s0.routing && b !in s0.routing && d != b
    requires victim in s0.routing && other in s0.routing && other != victim && s0.routing[other].Routed?
    ensures s' in reach && ReadyToOvergrow(c, s', victim, b)
    ensures |s'.routing| == |s0.routing| && s'.staleEvictions == s.staleEvictions
  {
    RemoveThenAdd(s0.routing.Keys, {victim}, d);
    assert s0.routing.Keys * {victim} == {victim};
    s' := ReachAdmitting(c, reach, s, 2, victim, Some(other));
    assert Displaced(c, s', 2) == {other};
    s' := ReserveRoute(c, reach, s', 2);
    RemoveThenAdd(s.routing.Keys, {other}, victim);
    assert s.routing.Keys * {other} == {other};
  }

  /** Request 0 evicts `victim` under dispatch, then everybody finishes. */
  lemma EvictWhileDispatching(c: Config, reach: iset<State>, s: State, victim: TaskId, b: TaskId)
    returns (s': State)
    requires Closed(c, reach) && PanicFree(reach) && s in reach && ReadyToOvergrow(c, s, victim, b)
    ensures s' in reach && Quiet(s')
    ensures |s'.routing| == |s.routing| + 1 && s'.staleEvictions == s.staleEvictions + 1
  {
    assert Displaced(c, s, 0) == {victim};
    s' := ReserveRoute(c, reach, s, 0);
    s' := SettleAll(c, reach, s', s.routing.Keys + {b});
  }

  lemma SettleAll(c: Config, reach: iset<State>, s: State, table: set<TaskId>) returns (s': State)
    requires Closed(c, reach) && PanicFree(reach) && s in reach
    requires s.requests == map[0 := Awaiting(0), 1 := Awaiting(1), 2 := Awaiting(2)]
    requires {0, 2} <= s.drivers.Keys <= {0, 1, 2}
    requires table == s.routing.Keys + {s.drivers[2].task} && s.drivers[0].task in table
    requires 1 in s.drivers ==> s.drivers[1].task in table
    ensures s' in reach && Quiet(s') && s'.routing.Keys == table && s'.staleEvictions == s.staleEvictions
  {
    s' := FinishDriver(c, reach, s, 2, true);
    s' := FinishDriver(c, reach, s', 0, true);
    assert s'.routing.Keys == table;
    if 1 in s'.drivers {
      s' := FinishDriver(c, reach, s', 1, true);
      assert s'.routing.Keys == table;
    }
    assert s'.drivers.Keys == {};
    s' := AnswerAll(c, reach, s');
  }

  lemma AnswerAll(c: Config, reach: iset<State>, s: State) returns (s': State)
    requires Closed(c, reach) && s in reach
    requires s.requests.Keys == {0, 1, 2} && s.drivers == map[] && forall r | r in s.requests :: s.requests[r].Awaiting?
    ensures s' in reach && s' == s.(requests := map[])
  {
    s' := Extend(c, reach, s, Answer(0));
    s' := Extend(c, reach, s', Answer(1));
    s' := Extend(c, reach, s', Answer(2));
    assert s'.requests.Keys == {};
  }

  lemma Overgrow(c: Config, s: State) returns (s': State)
    requires s in Reachable(c) && c.middlemanagers > 0 && c.maxRoutes > 0 && Quiet(s) && |s.routing| >= c.maxRoutes
    ensures s' in Reachable(c) && Quiet(s')
    ensures |s'.routing| == |s.routing| + 1 && s'.staleEvictions == s.staleEvictions + 1
  {
    var run :| Reach(c, run) == Some(s);
    NoReservationLeak(c, run);
    ReachableIsClosed(c);
    assert s.routing.Keys != {};
    var victim :| victim in s.routing;
    var b := FreshTask(s.routing.Keys);
    var d := FreshTask(s.routing.Keys + {b});
    var s1 := EvictVictim(c, Reachable(c), s, victim, b, d);
    if other :| other in s.routing && other != victim {
      s' := ResubmitOver(c, Reachable(c), s, s1, victim, b, d, other);
    } else {
      assert s.routing.Keys == {victim};
      s' := ResubmitAlone(c, Reachable(c), s, s1, victim, b, d);
    }
    s' := EvictWhileDispatching(c, Reachable(c), s', victim, b);
  }

  /** For every cap and every number of stale evictions some run reaches the bound. */
  lemma CapBoundIsTight(c: Config, excess: nat)
    requires c.middlemanagers > 0 && c.maxRoutes > 0
    ensures exists run :: IsRun(c, run) && After(c, run).staleEvictions == excess
                          && |After(c, run).routing| == c.maxRoutes + excess
  {
    ReachableIsClosed(c);
    var s := Initial;
    while |s.routing| < c.maxRoutes
      invariant s in Reachable(c) && Quiet(s) && s.staleEvictions == 0
      invariant |s.routing| <= c.maxRoutes
    {
      s := RouteOneMore(c, Reachable(c), s);
    }
    while s.staleEvictions < excess
      invariant s in Reachable(c) && Quiet(s) && s.staleEvictions <= excess
      invariant |s.routing| == c.maxRoutes + s.staleEvictions
    {
      s := Overgrow(c, s);
    }
    var run :| Reach(c, run) == Some(s);
    assert IsRun(c, run) && After(c, run) == s;
  }

  // ----- Duplicates -----------------------------------------------------------------------

  /** A request for a task that has an entry ends at its look-up, or at its admission if the entry came
      in between, and changes nothing: neither the table, nor the drivers, nor whose turn it is. */
  lemma DuplicateChangesNothing(c: Config, s: State, r: RequestId, d: DriverId)
    requires r in s.requests && (s.requests[r].Arrived? || s.requests[r].Admitting?)
    requires s.requests[r].task in s.routing && d !in s.drivers
    ensures s.requests[r].Arrived? ==> Apply(c, s, Lookup(r)) == s.(requests := s.requests - {r})
    ensures s.requests[r].Admitting? ==> Apply(c, s, Admit(r, d)) == s.(requests := s.requests - {r})
  {
  }

  // ----- Choosing a candidate ---------------------------------------------------------------

  /** The routed tasks are polled in the order of the snapshot: after `k` of them answered that they are
      not terminal, a terminal answer makes the next one the candidate; when all did there is none. */
  lemma {:induction false} CandidateIsFirstTerminal(c: Config, reach: iset<State>, s: State, r: RequestId, k: nat)
    requires Closed(c, reach) && s in reach && r in s.requests && s.requests[r].Polling?
    requires k <= |s.requests[r].routed|
    ensures var pc := s.requests[r];
      var candidate := if k < |pc.routed| then Some(pc.routed[k].0) else None;
      s.(requests := s.requests[r := Admitting(pc.task, pc.index, candidate)]) in reach
    decreases k
  {
    var pc := s.requests[r];
    if k == 0 {
      var s' := Extend(c, reach, s, Poll(r, pc.routed != []));
    } else {
      var s' := Extend(c, reach, s, Poll(r, false));
      assert s'.requests[r] == pc.(routed := pc.routed[1..]);
      CandidateIsFirstTerminal(c, reach, s', r, k - 1);
      var candidate := if k < |pc.routed| then Some(pc.routed[k].0) else None;
      assert s'.requests[r := Admitting(pc.task, pc.index, candidate)] ==
             s.requests[r := Admitting(pc.task, pc.index, candidate)];
    }
  }

  // ----- The cap in the long run ------------------------------------------------------------

  /** The states that continue a run. */
  ghost function Onward(c: Config, run: seq<Label>): iset<State> {
    iset s, more | Reach(c, run + more) == Some(s) :: s
  }

  lemma OnwardIsClosed(c: Config, run: seq<Label>)
    requires IsRun(c, run)
    ensures Closed(c, Onward(c, run)) && After(c, run) in Onward(c, run)
  {
    assert run + [] == run;
    forall s, l | s in Onward(c, run) && Enabled(c, s, l) && !l.Panic? ensures Apply(c, s, l) in Onward(c, run) {
      var more :| Reach(c, run + more) == Some(s);
      assert run + (more + [l]) == (run + more) + [l];
      ReachSnoc(c, run + more, s, l);
    }
  }

  lemma ReachSnoc(c: Config, run: seq<Label>, s: State, l: Label)
    requires Reach(c, run) == Some(s) && Enabled(c, s, l)
    ensures Reach(c, run + [l]) == Some(Apply(c, s, l))
  {
    assert (run + [l])[..|run|] == run;
  }

  /** However the run goes on, the table stays within the cap until the next stale eviction. */
  ghost predicate KeepsCap(c: Config, run: seq<Label>)
    requires IsRun(c, run)
  {
    forall more :: IsRun(c, run + more) && After(c, run + more).staleEvictions == After(c, run).staleEvictions ==>
      |After(c, run + more).routing| <= c.maxRoutes
  }

  /** The admission evicts a reservation whose driver may still act on it: it is in flight, or it
      panicked and its request waits to clean up. */
  ghost predicate EvictsClaimed(c: Config, s: State, r: RequestId)
    requires r in s.requests && s.requests[r].Admitting?
  {
    var admission := AdmissionOf(c, s, r);
    && Stale(s.routing, admission)
    && exists e :: e in s.drivers && s.drivers[e].task == admission.evicted.value && !Abandoned(s, e)
  }

  /** The state as if an abandoned driver had never been there, nor the eviction of its reservation. */
  ghost function Without(s: State, e: DriverId): State
    requires s.staleEvictions > 0
  {
    s.(drivers := s.drivers - {e}, dead := s.dead - {e}, staleEvictions := s.staleEvictions - 1)
  }

  /** No step can tell the difference. */
  lemma WithoutSteps(c: Config, s: State, l: Label, e: DriverId)
    requires Abandoned(s, e) && Enabled(c, s, l) && s.staleEvictions > 0
    ensures Apply(c, s, l).staleEvictions > 0
    ensures Enabled(c, Without(s, e), l) && Apply(c, Without(s, e), l) == Without(Apply(c, s, l), e)
  {
    WithoutEnabled(c, s, l, e);
    if l.Admit? {
      WithoutAdmits(c, s, l, e);
    } else if l.Complete? {
      WithoutSettles(s, l.driver, e, l.accepted);
    } else if l.CleanUp? {
      WithoutSettles(s, s.requests[l.request].driver, e, false);
    } else if l.Panic? {
      assert (s.dead - {e}) + {l.driver} == (s.dead + {l.driver}) - {e};
    } else {
      WithoutOthers(c, s, l, e);
    }
  }

  lemma WithoutEnabled(c: Config, s: State, l: Label, e: DriverId)
    requires Abandoned(s, e) && Enabled(c, s, l) && s.staleEvictions > 0
    ensures Enabled(c, Without(s, e), l)
    ensures !l.CleanUp? || s.requests[l.request].driver != e
  {
  }

  lemma WithoutAdmits(c: Config, s: State, l: Label, e: DriverId)
    requires s.staleEvictions > 0 && l.Admit? && Enabled(c, s, l) && Enabled(c, Without(s, e), l) && e in s.drivers
    ensures Apply(c, s, l).staleEvictions > 0 && Apply(c, Without(s, e), l) == Without(Apply(c, s, l), e)
  {
    var driver := Driver(s.requests[l.request].task, s.requests[l.request].index);
    assert (s.drivers - {e})[l.driver := driver] == s.drivers[l.driver := driver] - {e};
  }

  lemma WithoutSettles(s: State, d: DriverId, e: DriverId, accepted: bool)
    requires d in s.drivers && d != e && s.staleEvictions > 0
    ensures Settle(Without(s, e), d, accepted) == Without(Settle(s, d, accepted), e)
  {
    assert s.drivers - {e} - {d} == s.drivers - {d} - {e};
    assert s.dead - {e} - {d} == s.dead - {d} - {e};
  }

  lemma WithoutOthers(c: Config, s: State, l: Label, e: DriverId)
    requires s.staleEvictions > 0 && !TouchesTable(l) && !l.Panic? && Enabled(c, s, l) && Enabled(c, Without(s, e), l)
    ensures Apply(c, s, l).staleEvictions > 0 && Apply(c, Without(s, e), l) == Without(Apply(c, s, l), e)
  {
    OthersIgnoreDrivers(c, s, Without(s, e), l);
    OthersKeepTable(c, s, l);
  }

  /** The other steps only see and change the counter, the table and the requests. */
  lemma OthersIgnoreDrivers(c: Config, s: State, t: State, l: Label)
    requires !TouchesTable(l) && !l.Panic? && Enabled(c, s, l) && Enabled(c, t, l)
    requires t.next == s.next && t.routing == s.routing && t.requests == s.requests
    ensures var s', t' := Apply(c, s, l), Apply(c, t, l);
      && t'.next == s'.next && t'.routing == s'.routing && t'.requests == s'.requests
      && s'.dead == s.dead && t'.dead == t.dead && t'.drivers == t.drivers && t'.staleEvictions == t.staleEvictions
  {
    if l.Arrive? || l.Answer? || l.Drop? {
    } else if l.Select? {
      SelectIgnoresDrivers(c, s, t, l);
    } else if l.Lookup? || l.CheckCapacity? {
      EarlyStepsIgnoreDrivers(c, s, t, l);
    } else {
      LateStepsIgnoreDrivers(c, s, t, l);
    }
  }

  lemma EarlyStepsIgnoreDrivers(c: Config, s: State, t: State, l: Label)
    requires (l.Lookup? || l.CheckCapacity?) && Enabled(c, s, l) && Enabled(c, t, l)
    requires t.next == s.next && t.routing == s.routing && t.requests == s.requests
    ensures var s', t' := Apply(c, s, l), Apply(c, t, l);
      && t'.next == s'.next && t'.routing == s'.routing && t'.requests == s'.requests
      && s'.dead == s.dead && t'.dead == t.dead && t'.drivers == t.drivers && t'.staleEvictions == t.staleEvictions
  {
  }

  lemma SelectIgnoresDrivers(c: Config, s: State, t: State, l: Label)
    requires l.Select? && Enabled(c, s, l) && Enabled(c, t, l)
    requires t.next == s.next && t.routing == s.routing && t.requests == s.requests
    ensures var s', t' := Apply(c, s, l), Apply(c, t, l);
      && t'.next == s'.next && t'.routing == s'.routing && t'.requests == s'.requests
      && s'.dead == s.dead && t'.dead == t.dead && t'.drivers == t.drivers && t'.staleEvictions == t.staleEvictions
  {
    SelectEffect(c, s, l.request);
    SelectEffect(c, t, l.request);
  }

  /** A request takes the next middleManager in turn, and the counter wraps at 64 bits. */
  lemma SelectEffect(c: Config, s: State, r: RequestId)
    requires r in s.requests && s.requests[r].Missed?
    ensures var s' := Apply(c, s, Select(r));
      && s'.routing == s.routing && s'.drivers == s.drivers && s'.dead == s.dead
      && s'.staleEvictions == s.staleEvictions
      && s'.next == (if c.middlemanagers == 0 then s.next else (s.next + 1) % U64_LIMIT)
      && s'.requests == if c.middlemanagers == 0 then s.requests - {r}
                        else s.requests[r := Selected(s.requests[r].task, s.next % c.middlemanagers)]
  {
  }

  lemma LateStepsIgnoreDrivers(c: Config, s: State, t: State, l: Label)
    requires (l.Snapshot? || l.Poll?) && Enabled(c, s, l) && Enabled(c, t, l)
    requires t.next == s.next && t.routing == s.routing && t.requests == s.requests
    ensures var s', t' := Apply(c, s, l), Apply(c, t, l);
      && t'.next == s'.next && t'.routing == s'.routing && t'.requests == s'.requests
      && s'.dead == s.dead && t'.dead == t.dead && t'.drivers == t.drivers && t'.staleEvictions == t.staleEvictions
  {
  }

  lemma {:induction false} WithoutKeepsInv(c: Config, run: seq<Label>, more: seq<Label>, e: DriverId)
    requires IsRun(c, run) && IsRun(c, run + more) && Abandoned(After(c, run), e)
    requires After(c, run).staleEvictions > 0 && Inv(c, Without(After(c, run), e))
    ensures Abandoned(After(c, run + more), e) && After(c, run + more).staleEvictions > 0
    ensures Inv(c, Without(After(c, run + more), e))
    decreases |more|
  {
    if more == [] {
      assert run + more == run;
    } else {
      var init, last := more[..|more| - 1], more[|more| - 1];
      assert (run + more)[..|run + more| - 1] == run + init;
      WithoutKeepsInv(c, run, init, e);
      var s := After(c, run + init);
      WithoutSteps(c, s, last, e);
      StepKeepsInv(c, Without(s, e), last);
      PanickedUntilCleanUp(c, s, last, e);
      NobodyStartsToAwait(c, s, last, e);
    }
  }

  /** Evicting the reservation of an abandoned driver leaves things as they would be without both. */
  lemma EvictingAbandonedKeepsInv(c: Config, s: State, r: RequestId, d: DriverId, e: DriverId)
    requires Inv(c, s) && Matched(s) && Enabled(c, s, Admit(r, d)) && Stale(s.routing, AdmissionOf(c, s, r))
    requires Abandoned(s, e) && s.drivers[e].task == AdmissionOf(c, s, r).evicted.value
    ensures var s' := Apply(c, s, Admit(r, d));
      s'.staleEvictions > 0 && Abandoned(s', e) && Inv(c, Without(s', e))
  {
    var s' := Apply(c, s, Admit(r, d));
    StepKeepsInv(c, s, Admit(r, d));
    EvictingAbandonedKeepsDriven(c, s, r, d, e);
    EvictingAbandonedKeepsBudget(c, s, r, d, e);
  }

  lemma EvictingAbandonedKeepsDriven(c: Config, s: State, r: RequestId, d: DriverId, e: DriverId)
    requires Inv(c, s) && Enabled(c, s, Admit(r, d)) && Stale(s.routing, AdmissionOf(c, s, r))
    requires Abandoned(s, e) && s.drivers[e].task == AdmissionOf(c, s, r).evicted.value
    ensures ReservationsDriven(Without(Apply(c, s, Admit(r, d)), e))
  {
    var s' := Apply(c, s, Admit(r, d));
    AdmitKeepsReservationsDriven(c, s, Admit(r, d));
    forall t | t in InFlight(s'.routing)
      ensures exists f :: f in s'.drivers - {e} && (s'.drivers - {e})[f] == Driver(t, s'.routing[t].index)
    {
      var f :| f in s'.drivers && s'.drivers[f] == Driver(t, s'.routing[t].index);
      assert f in s'.drivers - {e};
    }
  }

  lemma EvictingAbandonedKeepsBudget(c: Config, s: State, r: RequestId, d: DriverId, e: DriverId)
    requires Budget(c, s) && Enabled(c, s, Admit(r, d)) && Stale(s.routing, AdmissionOf(c, s, r))
    requires e in s.drivers
    ensures Budget(c, Without(Apply(c, s, Admit(r, d)), e))
  {
    var pc := s.requests[r];
    ReservationCounts(s.routing, c.maxRoutes, pc.task, pc.index, pc.candidate);
    var drivers := s.drivers[d := Driver(pc.task, pc.index)];
    assert drivers.Keys == s.drivers.Keys + {d};
    assert (drivers - {e}).Keys == drivers.Keys - {e};
  }

  lemma FreshId(used: set<nat>) returns (n: nat)
    ensures n !in used
  {
    n := Above(used);
  }

  lemma {:induction false} Above(used: set<nat>) returns (n: nat)
    ensures forall i | i in used :: i < n
    decreases |used|
  {
    if used == {} {
      n := 0;
    } else {
      var i :| i in used;
      var m := Above(used - {i});
      n := if i >= m then i + 1 else m;
      forall j | j in used ensures j < n {
        assert j == i || j in used - {i};
      }
    }
  }

  /** A panicked driver whose reservation was evicted, and whose request `w` still waits to clean up. */
  ghost predicate ReadyToMisclean(c: Config, s: State, w: RequestId, e: DriverId, d: DriverId, victim: TaskId) {
    && c.middlemanagers > 0 && c.maxRoutes > 0 && |s.routing| == c.maxRoutes && s.dead <= s.drivers.Keys
    && w in s.requests && s.requests[w] == Awaiting(e) && Panicked(s, e) && s.drivers[e].task == victim
    && victim !in s.routing && InFlightDriver(s, d) && s.drivers[d].task in s.routing
  }

  /** A new request reserves its task where there is room. */
  lemma ReserveNew(c: Config, reach: iset<State>, s: State, task: TaskId) returns (n: nat, s': State)
    requires Closed(c, reach) && s in reach && c.middlemanagers > 0 && |s.routing| < c.maxRoutes
    requires task !in s.routing && s.dead <= s.drivers.Keys
    ensures s' in reach && n !in s.requests && n !in s.drivers && s'.staleEvictions == s.staleEvictions
    ensures s'.requests == s.requests[n := Awaiting(n)] && s'.dead == s.dead
    ensures s'.drivers.Keys == s.drivers.Keys + {n} && s'.drivers[n].task == task
    ensures forall f | f in s.drivers :: s'.drivers[f] == s.drivers[f]
    ensures s'.routing.Keys == s.routing.Keys + {task} && |s'.routing| == |s.routing| + 1
  {
    n := FreshId(s.requests.Keys + s.drivers.Keys);
    s' := ReachAdmitting(c, reach, s, n, task, None);
    s' := ReserveWithRoom(c, reach, s', n);
    AddRemoveCount(s.routing.Keys, task);
  }

  /** The clean-up removes whatever entry its task has by then: here, that of another request, whose
      success then comes on top of a full table. */
  lemma MiscleanedTableOvergrows(c: Config, reach: iset<State>, s: State, w: RequestId, e: DriverId, d: DriverId,
                                 victim: TaskId)
    returns (s': State)
    requires Closed(c, reach) && s in reach && ReadyToMisclean(c, s, w, e, d, victim)
    ensures s' in reach && s'.staleEvictions == s.staleEvictions && |s'.routing| == c.maxRoutes + 1
  {
    s' := FinishDriver(c, reach, s, d, false);
    AddRemoveCount(s.routing.Keys, s.drivers[d].task);
    var n;
    n, s' := ReserveNew(c, reach, s', victim);
    s' := CleanUpForeign(c, reach, s', w, e, n);
    var x := FreshTask(s'.routing.Keys + {victim});
    var m;
    m, s' := ReserveNew(c, reach, s', x);
    var full := s';
    s' := FinishDriver(c, reach, full, n, true);
    AddRemoveCount(full.routing.Keys, victim);
  }

  /** The clean-up of request `w` removes the reservation that driver `n` holds. */
  lemma CleanUpForeign(c: Config, reach: iset<State>, s: State, w: RequestId, e: DriverId, n: DriverId)
    returns (s': State)
    requires Closed(c, reach) && s in reach && s.dead <= s.drivers.Keys
    requires w in s.requests && s.requests[w] == Awaiting(e) && Panicked(s, e) && InFlightDriver(s, n)
    requires s.drivers[e].task == s.drivers[n].task && s.drivers[n].task in s.routing
    ensures s' in reach && s'.staleEvictions == s.staleEvictions && s'.dead <= s'.drivers.Keys
    ensures InFlightDriver(s', n) && s'.drivers[n] == s.drivers[n]
    ensures s'.routing.Keys == s.routing.Keys - {s.drivers[n].task} && |s'.routing| == |s.routing| - 1
  {
    s' := Extend(c, reach, s, CleanUp(w));
    CompletionKeys(s.routing, s.drivers[e], false);
    AddRemoveCount(s.routing.Keys, s.drivers[n].task);
  }

  /** Evicting a claimed reservation lets some continuation exceed the cap. */
  lemma EvictingClaimedOvergrows(c: Config, reach: iset<State>, s: State, r: RequestId, d: DriverId)
    returns (s': State)
    requires Inv(c, s) && Enabled(c, s, Admit(r, d)) && |s.routing| <= c.maxRoutes && EvictsClaimed(c, s, r)
    requires Closed(c, reach) && Apply(c, s, Admit(r, d)) in reach
    ensures s' in reach && s'.staleEvictions == s.staleEvictions + 1 && |s'.routing| > c.maxRoutes
  {
    var victim := AdmissionOf(c, s, r).evicted.value;
    s' := Apply(c, s, Admit(r, d));
    AfterStaleEviction(c, s, r, d);
    var e :| e in s.drivers && s.drivers[e].task == victim && !Abandoned(s, e);
    if e in s.dead {
      var w :| w in s.requests && s.requests[w] == Awaiting(e);
      assert w in s'.requests && s'.requests[w] == Awaiting(e);
      s' := MiscleanedTableOvergrows(c, reach, s', w, e, d, victim);
    } else {
      var full := s';
      s' := FinishDriver(c, reach, full, e, true);
      AddRemoveCount(full.routing.Keys, victim);
    }
  }

  lemma AfterStaleEviction(c: Config, s: State, r: RequestId, d: DriverId)
    requires Inv(c, s) && Enabled(c, s, Admit(r, d)) && |s.routing| <= c.maxRoutes
    requires Stale(s.routing, AdmissionOf(c, s, r))
    ensures var s', victim := Apply(c, s, Admit(r, d)), AdmissionOf(c, s, r).evicted.value;
      && c.middlemanagers > 0 && c.maxRoutes > 0 && |s'.routing| == c.maxRoutes && victim !in s'.routing
      && s'.dead == s.dead && s'.dead <= s'.drivers.Keys && InFlightDriver(s', d)
      && s'.drivers[d].task in s'.routing
      && forall e | e in s.drivers :: e in s'.drivers && s'.drivers[e] == s.drivers[e]
  {
    var pc := s.requests[r];
    ReservationCounts(s.routing, c.maxRoutes, pc.task, pc.index, pc.candidate);
    ReservationKeys(s.routing, c.maxRoutes, pc.task, pc.index, pc.candidate);
  }

  lemma EvictingUnclaimedKeepsCap(c: Config, run: seq<Label>, r: RequestId, d: DriverId)
    requires IsRun(c, run) && After(c, run).staleEvictions == 0 && Enabled(c, After(c, run), Admit(r, d))
    requires Stale(After(c, run).routing, AdmissionOf(c, After(c, run), r)) && !EvictsClaimed(c, After(c, run), r)
    requires IsRun(c, run + [Admit(r, d)]) && After(c, run + [Admit(r, d)]) == Apply(c, After(c, run), Admit(r, d))
    ensures KeepsCap(c, run + [Admit(r, d)])
  {
    var s, run' := After(c, run), run + [Admit(r, d)];
    var victim := AdmissionOf(c, s, r).evicted.value;
    RunKeepsInv(c, run);
    InFlightWithinDrivers(s);
    assert victim in InFlight(s.routing);
    var e :| e in s.drivers && s.drivers[e] == Driver(victim, s.routing[victim].index);
    EvictingAbandonedKeepsInv(c, s, r, d, e);
    forall more | IsRun(c, run' + more) && After(c, run' + more).staleEvictions == After(c, run').staleEvictions
      ensures |After(c, run' + more).routing| <= c.maxRoutes
    {
      WithoutKeepsInv(c, run', more, e);
      InvBoundsTable(c, Without(After(c, run' + more), e));
    }
  }

  lemma WithoutStaleEvictionsKeepsCap(c: Config, run: seq<Label>)
    requires IsRun(c, run) && After(c, run).staleEvictions == 0
    ensures KeepsCap(c, run)
  {
    forall more | IsRun(c, run + more) && After(c, run + more).staleEvictions == After(c, run).staleEvictions
      ensures |After(c, run + more).routing| <= c.maxRoutes
    {
      CapHoldsUpToStaleEvictions(c, run + more);
    }
  }

  /** Before the first stale eviction the cap is kept however the run goes on, and an admission keeps it
      so, however the run goes on, exactly when it does not evict a claimed reservation. */
  lemma AdmissionKeepsCapIff(c: Config, run: seq<Label>, r: RequestId, d: DriverId)
    requires IsRun(c, run) && After(c, run).staleEvictions == 0 && Enabled(c, After(c, run), Admit(r, d))
    ensures KeepsCap(c, run) && IsRun(c, run + [Admit(r, d)])
    ensures KeepsCap(c, run + [Admit(r, d)]) <==> !EvictsClaimed(c, After(c, run), r)
  {
    var s, run' := After(c, run), run + [Admit(r, d)];
    assert run'[..|run|] == run && After(c, run') == Apply(c, s, Admit(r, d));
    WithoutStaleEvictionsKeepsCap(c, run);
    if EvictsClaimed(c, s, r) {
      RunKeepsInv(c, run);
      CapHoldsUpToStaleEvictions(c, run);
      OnwardIsClosed(c, run');
      var bad := EvictingClaimedOvergrows(c, Onward(c, run'), s, r, d);
      var more :| Reach(c, run' + more) == Some(bad);
      assert IsRun(c, run' + more) && After(c, run' + more) == bad;
    } else if Stale(s.routing, AdmissionOf(c, s, r)) {
      EvictingUnclaimedKeepsCap(c, run, r, d);
    } else {
      WithoutStaleEvictionsKeepsCap(c, run');
    }
  }

  /** Before the first stale eviction a clean-up removes the reservation of its own driver and nobody
      else's. */
  lemma CleanUpIsOwnWithoutStaleEvictions(c: Config, run: seq<Label>, r: RequestId)
    requires IsRun(c, run) && After(c, run).staleEvictions == 0 && Enabled(c, After(c, run), CleanUp(r))
    ensures var s := After(c, run);
      var e := s.requests[r].driver;
      && s.drivers[e].task in InFlight(s.routing)
      && forall f | f in s.drivers && s.drivers[f].task == s.drivers[e].task :: f == e
  {
    ExactWithoutStaleEvictions(c, run);
  }
}
