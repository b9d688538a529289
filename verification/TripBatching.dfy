/** Outdoor trip batching in gps/batching/BatchingAdapter.cpp: several trips, each with its own distance,
  * share one modem batch with one distance counter. Each modem call is answered before the next step.
  *
  * The odometer is the distance really travelled; the modem's counter is the odometer since the batch
  * was (re)started. Distances are 32-bit and wrap. The minima over the trip map are taken in id order with
  * 0 for "not set yet".
  */
module TripBatching {
  import opened OrderedMaps

  const TWO_TO_THE_32: nat := 0x1_0000_0000

  function Add32(a: nat, b: nat): nat { (a + b) % TWO_TO_THE_32 }
  function Sub32(a: int, b: int): nat { (a - b) % TWO_TO_THE_32 }

  /** TripSessionStatus */
  datatype Trip = Trip(
    accumulatedDistanceOngoingBatch: nat,
    accumulatedDistanceThisTrip: nat,
    accumulatedDistanceOnTripRestart: nat,
    tripDistance: nat,
    tripTBFInterval: nat)

  /** A reported completion: what the trip asked for and what was really travelled since it joined. */
  datatype Completion = Completion(id: nat, tripDistance: nat, travelled: int)

  datatype Batching = Batching(
    trips: map<nat, Trip>,
    ongoingDistance: nat,
    ongoingTBFInterval: nat,
    tbfDropped: bool,
    distanceDropped: bool,
    odometer: nat,
    batchStart: nat,
    joinedAt: map<nat, nat>,
    completed: set<Completion>)

  const IDLE := Batching(map[], 0, 0, false, false, 0, 0, map[], {})

  /** What the modem answers when asked for the accumulated distance. */
  function Counter(s: Batching): nat { Sub32(s.odometer, s.batchStart) }

  /** The trip's distance when its batch has accumulated d. */
  function Counted(t: Trip, d: nat): nat {
    Add32(t.accumulatedDistanceOnTripRestart, Sub32(d, t.accumulatedDistanceOngoingBatch))
  }

  function Remaining(t: Trip): nat { Sub32(t.tripDistance, t.accumulatedDistanceThisTrip) }

  function TBF(t: Trip): nat { t.tripTBFInterval }

  /** The id order of the trip map. */
  predicate IdLess(a: nat, b: nat) { a < b }

  lemma IdLessIsOrder()
    ensures IsOrder(IdLess)
  {
  }

  /** The two minima over the trips. */
  datatype Minima = Minima(remaining: nat, tbf: nat)

  ghost function MinimaOf(trips: map<nat, Trip>): Minima {
    IdLessIsOrder();
    Minima(Found(IdLess, Remaining, trips), Found(IdLess, TBF, trips))
  }

  // ---------------------------------------------------------------- restarting the batch

  datatype Plan = Plan(restart: bool, distance: nat, interval: nat)

  /** Whether the modem's batch must be restarted, and for what. */
  function PlanFor(s: Batching, mins: Minima, accumulated: nat): Plan {
    var rest := Sub32(s.ongoingDistance, accumulated);
    var byDistance :=
      if !s.distanceDropped && rest != 0 then
        if mins.remaining < rest then Plan(true, mins.remaining, s.ongoingTBFInterval)
        else Plan(false, s.ongoingDistance, s.ongoingTBFInterval)
      else if mins.remaining != 0 then Plan(true, mins.remaining, s.ongoingTBFInterval)
      else Plan(false, s.ongoingDistance, s.ongoingTBFInterval);
    if mins.tbf < s.ongoingTBFInterval || (mins.tbf != s.ongoingTBFInterval && s.tbfDropped)
    then byDistance.(restart := true, interval := mins.tbf)
    else byDistance
  }

  /** A trip carried into a new batch with distance n. */
  function Carry(t: Trip, n: nat): Trip {
    t.(accumulatedDistanceThisTrip := n, accumulatedDistanceOngoingBatch := 0, accumulatedDistanceOnTripRestart := n)
  }

  function CarryAll(trips: map<nat, Trip>, accumulated: nat): map<nat, Trip> {
    map id | id in trips :: Carry(trips[id], Counted(trips[id], accumulated))
  }

  /** The trips left over need another batch. */
  ghost predicate Restarts(s: Batching, accumulated: nat) {
    s.trips != map[] && PlanFor(s, MinimaOf(s.trips), accumulated).restart
  }

  /** The batch restarted as planned. */
  function Restarted(s: Batching, plan: Plan, accumulated: nat): Batching {
    s.(trips := CarryAll(s.trips, accumulated), batchStart := s.odometer,
       ongoingDistance := plan.distance, ongoingTBFInterval := plan.interval)
  }

  /** restartTripBatching, given the accumulated distance it works with. */
  ghost function Rebatch(s: Batching, accumulated: nat): Batching {
    if s.trips == map[] then s.(ongoingDistance := 0, ongoingTBFInterval := 0)
    else if Restarts(s, accumulated) then Restarted(s, PlanFor(s, MinimaOf(s.trips), accumulated), accumulated)
    else s
  }

  // ---------------------------------------------------------------- the steps

  datatype Event =
    | Move(distance: nat)
    | Join(id: nat, minDistance: nat, minInterval: nat)
    | Stop(id: nat)
    | Report(accumulated: nat)

  function JoinPlan(s: Batching, minDistance: nat, minInterval: nat): Plan {
    var faster := s.ongoingTBFInterval > minInterval;
    var interval := if faster then minInterval else s.ongoingTBFInterval;
    var rest := Sub32(s.ongoingDistance, Counter(s));
    if minDistance < rest then Plan(true, minDistance, interval)
    else if faster then Plan(true, rest, interval)
    else Plan(false, s.ongoingDistance, interval)
  }

  /** A join's restart: every trip goes on from what its last report showed. */
  function JoinRestarted(s: Batching, plan: Plan): Batching {
    s.(trips := map k | k in s.trips :: Carry(s.trips[k], s.trips[k].accumulatedDistanceThisTrip),
       batchStart := s.odometer, ongoingDistance := plan.distance, ongoingTBFInterval := plan.interval)
  }

  /** startTripBatchingMultiplex. A restart here carries what the trips had at their last report. */
  function OnJoin(s: Batching, id: nat, minDistance: nat, minInterval: nat): Batching {
    var here := s.(joinedAt := s.joinedAt[id := s.odometer]);
    if s.trips == map[] then
      here.(trips := map[id := Trip(0, 0, 0, minDistance, minInterval)], batchStart := s.odometer,
            ongoingDistance := minDistance, ongoingTBFInterval := minInterval)
    else
      var plan := JoinPlan(s, minDistance, minInterval);
      var joined := here.(trips := s.trips[id := Trip(Counter(s), 0, 0, minDistance, minInterval)]);
      if plan.restart then JoinRestarted(joined, plan) else joined
  }

  /** Losing a trip that set the ongoing interval or distance is remembered. */
  function Drop(s: Batching, t: Trip): Batching {
    s.(tbfDropped := s.tbfDropped || t.tripTBFInterval == s.ongoingTBFInterval,
       distanceDropped := s.distanceDropped || t.tripDistance == s.ongoingDistance)
  }

  /** The trips without one. */
  function Left(s: Batching, id: nat): Batching
    requires id in s.trips
  {
    Drop(s, s.trips[id]).(trips := s.trips - {id})
  }

  /** stopTripBatchingMultiplex and its common part. */
  ghost function OnStop(s: Batching, id: nat): Batching
    requires id in s.trips
  {
    Rebatch(Left(s, id), Counter(s))
  }

  predicate Done(t: Trip, d: nat) { t.tripDistance <= Counted(t, d) }

  /** Among the given trips, one that is done set the ongoing interval (or distance). */
  ghost predicate LosesInterval(trips: map<nat, Trip>, ids: set<nat>, d: nat, interval: nat) {
    exists id :: id in ids && id in trips && Done(trips[id], d) && trips[id].tripTBFInterval == interval
  }

  ghost predicate LosesDistance(trips: map<nat, Trip>, ids: set<nat>, d: nat, distance: nat) {
    exists id :: id in ids && id in trips && Done(trips[id], d) && trips[id].tripDistance == distance
  }

  /** The trips after the report's loop has seen some of them: those that are done are gone. */
  function Tallied(trips: map<nat, Trip>, seen: set<nat>, d: nat): map<nat, Trip> {
    map id | id in trips && (id in seen ==> !Done(trips[id], d)) ::
      if id in seen then trips[id].(accumulatedDistanceThisTrip := Counted(trips[id], d)) else trips[id]
  }

  /** The trips after the report's loop, and the flags. */
  ghost function Tally(s: Batching, d: nat): Batching
    requires s.trips.Keys <= s.joinedAt.Keys
  {
    s.(trips := Tallied(s.trips, s.trips.Keys, d),
       tbfDropped := s.tbfDropped || LosesInterval(s.trips, s.trips.Keys, d, s.ongoingTBFInterval),
       distanceDropped := s.distanceDropped || LosesDistance(s.trips, s.trips.Keys, d, s.ongoingDistance),
       completed := s.completed +
                    set id | id in s.trips && Done(s.trips[id], d) ::
                      Completion(id, s.trips[id].tripDistance, s.odometer - s.joinedAt[id]))
  }

  ghost predicate AnyDone(trips: map<nat, Trip>, d: nat) {
    exists id :: id in trips && Done(trips[id], d)
  }

  /** reportCompletedTripsEvent */
  ghost function OnReport(s: Batching, d: nat): Batching
    requires s.trips.Keys <= s.joinedAt.Keys
  {
    if AnyDone(s.trips, d) then Rebatch(Tally(s, d), d) else Tally(s, d)
  }

  ghost function Step(s: Batching, e: Event): Batching
    requires s.trips.Keys <= s.joinedAt.Keys
  {
    match e
    case Move(distance) => s.(odometer := s.odometer + distance)
    case Join(id, minDistance, minInterval) => OnJoin(s, id, minDistance, minInterval)
    case Stop(id) => if id in s.trips then OnStop(s, id) else s
    case Report(d) => OnReport(s, d)
  }

  // ---------------------------------------------------------------- the adapter

  /** What the minima loop holds after some trips. */
  ghost predicate AreFound(seen: map<nat, Trip>, minRemaining: nat, minTBF: nat) {
    IsFound(IdLess, Remaining, seen, minRemaining) && IsFound(IdLess, TBF, seen, minTBF)
  }

  lemma FoundNext(trips: map<nat, Trip>, seen: map<nat, Trip>, todo: set<nat>, id: nat, minRemaining: nat, minTBF: nat)
    requires Walked(IdLess, trips, seen, todo) && IsFirst(IdLess, todo, id)
    requires AreFound(seen, minRemaining, minTBF)
    ensures id in trips && Walked(IdLess, trips, seen[id := trips[id]], todo - {id})
    ensures AreFound(seen[id := trips[id]],
                     Tighter(minRemaining, Remaining(trips[id])), Tighter(minTBF, TBF(trips[id])))
  {
    WalkNext(IdLess, trips, seen, todo, id);
    IsFoundNext(IdLess, Remaining, seen, id, trips[id], minRemaining);
    IsFoundNext(IdLess, TBF, seen, id, trips[id], minTBF);
  }

  lemma FoundAreMinima(trips: map<nat, Trip>, minRemaining: nat, minTBF: nat)
    requires AreFound(trips, minRemaining, minTBF)
    ensures Minima(minRemaining, minTBF) == MinimaOf(trips)
  {
    FoundUnique(IdLess, Remaining, trips, minRemaining);
    FoundUnique(IdLess, TBF, trips, minTBF);
  }

  lemma TalliedNext(trips: map<nat, Trip>, seen: set<nat>, id: nat, d: nat)
    requires id in trips && id !in seen
    ensures id in Tallied(trips, seen, d) && Tallied(trips, seen, d)[id] == trips[id]
    ensures Tallied(trips, seen + {id}, d) ==
            if Done(trips[id], d) then Tallied(trips, seen, d) - {id}
            else Tallied(trips, seen, d)[id := trips[id].(accumulatedDistanceThisTrip := Counted(trips[id], d))]
  {
  }

  lemma LosesNext(trips: map<nat, Trip>, seen: set<nat>, id: nat, d: nat, interval: nat, distance: nat)
    requires id in trips
    ensures LosesInterval(trips, seen + {id}, d, interval) <==>
            LosesInterval(trips, seen, d, interval) || (Done(trips[id], d) && trips[id].tripTBFInterval == interval)
    ensures LosesDistance(trips, seen + {id}, d, distance) <==>
            LosesDistance(trips, seen, d, distance) || (Done(trips[id], d) && trips[id].tripDistance == distance)
  {
  }

  class BatchingAdapter {
    var mTripSessions: map<nat, Trip>
    var mOngoingTripDistance: nat
    var mOngoingTripTBFInterval: nat
    var mTripWithOngoingTBFDropped: bool
    var mTripWithOngoingTripDistanceDropped: bool
    // The world outside: the road, the start of the modem's batch, and what has been reported complete.
    var odometer: nat
    var modemBatchStart: nat
    ghost var joinedAt: map<nat, nat>
    ghost var completed: set<Completion>

    ghost function View(): Batching
      reads this
    {
      Batching(mTripSessions, mOngoingTripDistance, mOngoingTripTBFInterval, mTripWithOngoingTBFDropped,
               mTripWithOngoingTripDistanceDropped, odometer, modemBatchStart, joinedAt, completed)
    }

    ghost predicate Valid()
      reads this
    {
      mTripSessions.Keys <= joinedAt.Keys
    }

    constructor ()
      ensures Valid() && View() == IDLE
    {
      mTripSessions, mOngoingTripDistance, mOngoingTripTBFInterval := map[], 0, 0;
      mTripWithOngoingTBFDropped, mTripWithOngoingTripDistanceDropped := false, false;
      odometer, modemBatchStart, joinedAt, completed := 0, 0, map[], {};
    }

    // -------------------------------------------------------------- the modem

    method QueryAccumulatedTripDistance() returns (d: nat)
      ensures d == Counter(View())
    {
      d := Sub32(odometer, modemBatchStart);
    }

    method RestartOutdoorTripBatching()
      modifies this`modemBatchStart
      ensures modemBatchStart == odometer
    {
      modemBatchStart := odometer;
    }

    method Travel(distance: nat)
      requires Valid()
      modifies this`odometer
      ensures Valid() && View() == old(View()).(odometer := old(odometer) + distance)
    {
      odometer := odometer + distance;
    }

    // -------------------------------------------------------------- the handlers

    /** The loop that records the smallest remaining distance and the smallest interval. */
    method FindMinima() returns (minRemaining: nat, minTBF: nat)
      ensures Minima(minRemaining, minTBF) == MinimaOf(mTripSessions)
    {
      minRemaining, minTBF := 0, 0;
      var todo := mTripSessions.Keys;
      ghost var seen: map<nat, Trip> := map[];
      while todo != {}
        invariant Walked(IdLess, mTripSessions, seen, todo)
        invariant AreFound(seen, minRemaining, minTBF)
        decreases todo
      {
        var id := FirstId(todo);
        FoundNext(mTripSessions, seen, todo, id, minRemaining, minTBF);
        var status := mTripSessions[id];
        if minRemaining == 0 || minRemaining > Remaining(status) {
          minRemaining := Remaining(status);
        }
        if minTBF == 0 || minTBF > status.tripTBFInterval {
          minTBF := status.tripTBFInterval;
        }
        todo, seen := todo - {id}, seen[id := status];
      }
      assert seen == mTripSessions;
      FoundAreMinima(seen, minRemaining, minTBF);
    }

    method FirstId(ids: set<nat>) returns (id: nat)
      requires ids != {}
      ensures IsFirst(IdLess, ids, id)
    {
      FirstExists(IdLess, ids);
      id :| id in ids && forall j :: j in ids && j != id ==> IdLess(id, j);
    }

    /** The comparisons of restartTripBatching. */
    method DecideRestart(mins: Minima, accumulatedDistance: nat) returns (plan: Plan)
      ensures plan == PlanFor(View(), mins, accumulatedDistance)
    {
      var needsRestart := false;
      var ongoingTripDistance, ongoingTripInterval := mOngoingTripDistance, mOngoingTripTBFInterval;
      var remaining := Sub32(ongoingTripDistance, accumulatedDistance);
      if !mTripWithOngoingTripDistanceDropped && remaining != 0 {
        if mins.remaining < remaining {
          ongoingTripDistance := mins.remaining;
          needsRestart := true;
        }
      } else if mins.remaining != 0 {
        ongoingTripDistance := mins.remaining;
        needsRestart := true;
      }
      if mins.tbf < ongoingTripInterval || (mins.tbf != ongoingTripInterval && mTripWithOngoingTBFDropped) {
        ongoingTripInterval := mins.tbf;
        needsRestart := true;
      }
      plan := Plan(needsRestart, ongoingTripDistance, ongoingTripInterval);
    }

    method RestartTripBatching(queryAccumulatedDistance: bool, accDist: nat)
      requires Valid()
      modifies this`mTripSessions, this`mOngoingTripDistance, this`mOngoingTripTBFInterval, this`modemBatchStart
      ensures Valid()
      ensures View() == Rebatch(old(View()), if queryAccumulatedDistance then Counter(old(View())) else accDist)
    {
      if mTripSessions == map[] {
        mOngoingTripDistance := 0;
        mOngoingTripTBFInterval := 0;
        return;
      }
      var minRemainingDistance, minTBFInterval := FindMinima();
      var accumulatedDistance := accDist;
      var data := QueryAccumulatedTripDistance();
      if queryAccumulatedDistance {
        accumulatedDistance := data;
      }
      var plan := DecideRestart(Minima(minRemainingDistance, minTBFInterval), accumulatedDistance);
      if plan.restart {
        FollowPlan(plan, accumulatedDistance);
      }
    }

    /** The restart and its answer. */
    method FollowPlan(plan: Plan, accumulatedDistance: nat)
      requires Valid()
      modifies this`mTripSessions, this`mOngoingTripDistance, this`mOngoingTripTBFInterval, this`modemBatchStart
      ensures Valid() && View() == Restarted(old(View()), plan, accumulatedDistance)
    {
      RestartOutdoorTripBatching();
      CarryTrips(accumulatedDistance);
      mOngoingTripDistance := plan.distance;
      mOngoingTripTBFInterval := plan.interval;
    }

    /** The loop of the restart's answer: every trip goes on from its current distance. */
    method CarryTrips(accumulated: nat)
      modifies this`mTripSessions
      ensures mTripSessions == CarryAll(old(mTripSessions), accumulated)
    {
      var todo := mTripSessions.Keys;
      while todo != {}
        invariant todo <= mTripSessions.Keys
        invariant mTripSessions == map id | id in old(mTripSessions) ::
                    if id in todo then old(mTripSessions)[id] else CarryAll(old(mTripSessions), accumulated)[id]
        decreases todo
      {
        var id :| id in todo;
        var t := mTripSessions[id];
        t := t.(accumulatedDistanceThisTrip :=
                  Add32(t.accumulatedDistanceOnTripRestart, Sub32(accumulated, t.accumulatedDistanceOngoingBatch)));
        t := t.(accumulatedDistanceOngoingBatch := 0,
                accumulatedDistanceOnTripRestart := t.accumulatedDistanceThisTrip);
        mTripSessions := mTripSessions[id := t];
        todo := todo - {id};
      }
    }

    /** The comparisons of startTripBatchingMultiplex. */
    method DecideJoin(minDistance: nat, minInterval: nat, accumulated: nat) returns (plan: Plan)
      requires accumulated == Counter(View())
      ensures plan == JoinPlan(View(), minDistance, minInterval)
    {
      var ongoingTripDistance, ongoingTripInterval := mOngoingTripDistance, mOngoingTripTBFInterval;
      var needsRestart := false;
      if ongoingTripInterval > minInterval {
        ongoingTripInterval := minInterval;
        needsRestart := true;
      }
      var remaining := Sub32(ongoingTripDistance, accumulated);
      if minDistance < remaining {
        ongoingTripDistance := minDistance;
        needsRestart := true;
      } else if needsRestart {
        ongoingTripDistance := remaining;
      }
      plan := Plan(needsRestart, ongoingTripDistance, ongoingTripInterval);
    }

    method StartTripBatchingMultiplex(id: nat, minDistance: nat, minInterval: nat)
      requires Valid()
      modifies this
      ensures Valid() && View() == OnJoin(old(View()), id, minDistance, minInterval)
    {
      if mTripSessions == map[] {
        mTripSessions := map[id := Trip(0, 0, 0, minDistance, minInterval)];
        RestartOutdoorTripBatching();
        mOngoingTripDistance := minDistance;
        mOngoingTripTBFInterval := minInterval;
      } else {
        var accumulated := QueryAccumulatedTripDistance();
        var plan := DecideJoin(minDistance, minInterval, accumulated);
        mTripSessions := mTripSessions[id := Trip(accumulated, 0, 0, minDistance, minInterval)];
        if plan.restart {
          RestartForJoin(plan);
        }
      }
      joinedAt := joinedAt[id := odometer];
    }

    method RestartForJoin(plan: Plan)
      modifies this`mTripSessions, this`mOngoingTripDistance, this`mOngoingTripTBFInterval, this`modemBatchStart
      ensures View() == JoinRestarted(old(View()), plan)
    {
      mOngoingTripDistance := plan.distance;
      mOngoingTripTBFInterval := plan.interval;
      ResetTrips();
      RestartOutdoorTripBatching();
    }

    /** The loop of a join-triggered restart: every trip goes on from what its last report showed. */
    method ResetTrips()
      modifies this`mTripSessions
      ensures mTripSessions == map k | k in old(mTripSessions) ::
                Carry(old(mTripSessions)[k], old(mTripSessions)[k].accumulatedDistanceThisTrip)
    {
      var todo := mTripSessions.Keys;
      while todo != {}
        invariant todo <= mTripSessions.Keys
        invariant mTripSessions == map k | k in old(mTripSessions) ::
                    if k in todo then old(mTripSessions)[k]
                    else Carry(old(mTripSessions)[k], old(mTripSessions)[k].accumulatedDistanceThisTrip)
        decreases todo
      {
        var id :| id in todo;
        var t := mTripSessions[id];
        mTripSessions := mTripSessions[id := t.(accumulatedDistanceOngoingBatch := 0,
                                                accumulatedDistanceOnTripRestart := t.accumulatedDistanceThisTrip)];
        todo := todo - {id};
      }
    }

    /** A trip that leaves may have set the ongoing interval or distance. */
    method NoteDropped(t: Trip)
      modifies this`mTripWithOngoingTBFDropped, this`mTripWithOngoingTripDistanceDropped
      ensures mTripWithOngoingTBFDropped ==
              (old(mTripWithOngoingTBFDropped) || t.tripTBFInterval == mOngoingTripTBFInterval)
      ensures mTripWithOngoingTripDistanceDropped ==
              (old(mTripWithOngoingTripDistanceDropped) || t.tripDistance == mOngoingTripDistance)
    {
      if t.tripTBFInterval == mOngoingTripTBFInterval {
        mTripWithOngoingTBFDropped := true;
      }
      if t.tripDistance == mOngoingTripDistance {
        mTripWithOngoingTripDistanceDropped := true;
      }
    }

    method StopTripBatchingMultiplex(id: nat)
      requires Valid() && id in mTripSessions
      modifies this
      ensures Valid() && View() == OnStop(old(View()), id)
    {
      NoteDropped(mTripSessions[id]);
      mTripSessions := mTripSessions - {id};
      if mTripSessions == map[] {
        mOngoingTripDistance := 0;
        mOngoingTripTBFInterval := 0;
      } else {
        RestartTripBatching(true, 0);
      }
    }

    /** The report's loop: completed trips leave the map while it is walked. */
    method TallyTrips(accumulated: nat) returns (completedTrips: seq<nat>)
      requires Valid()
      modifies this`mTripSessions, this`mTripWithOngoingTBFDropped, this`mTripWithOngoingTripDistanceDropped
      modifies this`completed
      ensures Valid() && View() == Tally(old(View()), accumulated)
      ensures forall id :: id in completedTrips <==>
                id in old(mTripSessions) && Done(old(mTripSessions)[id], accumulated)
    {
      completedTrips := [];
      ghost var trips := mTripSessions;
      ghost var seen: set<nat> := {};
      var todo := mTripSessions.Keys;
      completed := Tally(View(), accumulated).completed;
      ghost var reported := completed;
      while todo != {}
        invariant completed == reported
        invariant seen <= trips.Keys && todo == trips.Keys - seen
        invariant mTripWithOngoingTBFDropped ==
                  (old(mTripWithOngoingTBFDropped) || LosesInterval(trips, seen, accumulated, mOngoingTripTBFInterval))
        invariant mTripWithOngoingTripDistanceDropped ==
                  (old(mTripWithOngoingTripDistanceDropped)
                   || LosesDistance(trips, seen, accumulated, mOngoingTripDistance))
        invariant mTripSessions == Tallied(trips, seen, accumulated)
        invariant forall id :: id in completedTrips <==> id in seen && Done(trips[id], accumulated)
        decreases todo
      {
        var id :| id in todo;
        LosesNext(trips, seen, id, accumulated, mOngoingTripTBFInterval, mOngoingTripDistance);
        TalliedNext(trips, seen, id, accumulated);
        var done := TallyTrip(id, accumulated);
        if done {
          completedTrips := completedTrips + [id];
        }
        todo, seen := todo - {id}, seen + {id};
      }
      assert seen == trips.Keys;
    }

    /** One trip of the report's loop. */
    method TallyTrip(id: nat, accumulated: nat) returns (done: bool)
      requires id in mTripSessions
      modifies this`mTripSessions, this`mTripWithOngoingTBFDropped, this`mTripWithOngoingTripDistanceDropped
      ensures var t := old(mTripSessions)[id];
              && done == Done(t, accumulated)
              && mTripSessions == (if done then old(mTripSessions) - {id}
                                   else old(mTripSessions)[
                                       id := t.(accumulatedDistanceThisTrip := Counted(t, accumulated))])
              && mTripWithOngoingTBFDropped ==
                 (old(mTripWithOngoingTBFDropped) || (done && t.tripTBFInterval == mOngoingTripTBFInterval))
              && mTripWithOngoingTripDistanceDropped ==
                 (old(mTripWithOngoingTripDistanceDropped) || (done && t.tripDistance == mOngoingTripDistance))
    {
      var t := mTripSessions[id];
      t := t.(accumulatedDistanceThisTrip :=
                Add32(t.accumulatedDistanceOnTripRestart, Sub32(accumulated, t.accumulatedDistanceOngoingBatch)));
      done := t.tripDistance <= t.accumulatedDistanceThisTrip;
      if done {
        mTripSessions := mTripSessions - {id};
        NoteDropped(t);
      } else {
        mTripSessions := mTripSessions[id := t];
      }
    }

    method ReportCompletedTrips(accumulated: nat) returns (completedTrips: seq<nat>)
      requires Valid()
      modifies this
      ensures Valid() && View() == OnReport(old(View()), accumulated)
      ensures forall id :: id in completedTrips <==>
                id in old(mTripSessions) && Done(old(mTripSessions)[id], accumulated)
    {
      completedTrips := TallyTrips(accumulated);
      if |completedTrips| > 0 {
        assert completedTrips[0] in completedTrips;
        RestartTripBatching(false, accumulated);
      }
    }
  }

  // ---------------------------------------------------------------- no trip completes early

  /** The distance the books would show for a trip right now, were a report to arrive. */
  function Booked(s: Batching, t: Trip): int {
    t.accumulatedDistanceOnTripRestart + (s.odometer - s.batchStart - t.accumulatedDistanceOngoingBatch)
  }

  function Travelled(s: Batching, id: nat): int
    requires id in s.joinedAt
  {
    s.odometer - s.joinedAt[id]
  }

  ghost predicate TripInv(s: Batching, id: nat)
    requires id in s.trips && id in s.joinedAt
  {
    var t := s.trips[id];
    && t.accumulatedDistanceOngoingBatch <= s.odometer - s.batchStart
    && t.accumulatedDistanceThisTrip <= Booked(s, t) <= Travelled(s, id)
  }

  ghost predicate Inv(s: Batching) {
    && s.trips.Keys <= s.joinedAt.Keys
    && s.batchStart <= s.odometer
    && (forall id :: id in s.trips ==> TripInv(s, id))
    && (forall c :: c in s.completed ==> c.tripDistance <= c.travelled)
  }

  /** The distance the report of d stands for is one the trip has covered: it is not older than the trip's
    * join and not from an earlier batch.
    */
  predicate TimelyFor(s: Batching, t: Trip, d: nat) {
    var covered := t.accumulatedDistanceOnTripRestart + d - t.accumulatedDistanceOngoingBatch;
    covered >= 0 && d <= s.odometer - s.batchStart
  }

  /** A report may be late, but it is timely for every trip. */
  predicate Timely(s: Batching, e: Event) {
    e.Report? ==> forall id | id in s.trips :: TimelyFor(s, s.trips[id], e.accumulated)
  }

  /** Within 32 bits: the odometer, and the reading a report stands for. */
  predicate Fits(s: Batching, e: Event) {
    s.odometer < TWO_TO_THE_32 && (e.Report? ==> s.batchStart + e.accumulated < TWO_TO_THE_32)
  }

  /** A report never counts more than the trip has covered if and only if it is timely for it, and counts
    * exactly that if and only if it is fresh.
    */
  lemma CountsAtMostIff(s: Batching, id: nat, d: nat)
    requires Inv(s) && Fits(s, Report(d)) && id in s.trips
    ensures Counted(s.trips[id], d) <= Booked(s, s.trips[id]) <==> TimelyFor(s, s.trips[id], d)
    ensures Counted(s.trips[id], d) == Booked(s, s.trips[id]) <==> d == s.odometer - s.batchStart
    ensures Booked(s, s.trips[id]) <= Travelled(s, id)
  {
    assert TripInv(s, id);
  }

  lemma CounterIsSum(s: Batching)
    requires Inv(s) && s.odometer < TWO_TO_THE_32
    ensures Counter(s) == s.odometer - s.batchStart
    ensures Timely(s, Report(Counter(s)))
  {
    forall id | id in s.trips ensures TimelyFor(s, s.trips[id], Counter(s)) { assert TripInv(s, id); }
  }

  lemma RebatchKeepsInv(s: Batching, d: nat)
    requires Inv(s) && Fits(s, Report(d)) && Timely(s, Report(d))
    ensures Inv(Rebatch(s, d))
  {
    var next := Rebatch(s, d);
    forall id | id in next.trips ensures TripInv(next, id) {
      assert TripInv(s, id);
      CountsAtMostIff(s, id, d);
    }
  }

  lemma TallyKeepsInv(s: Batching, d: nat)
    requires Inv(s) && Fits(s, Report(d)) && Timely(s, Report(d))
    ensures Inv(Tally(s, d)) && Timely(Tally(s, d), Report(d))
  {
    var next := Tally(s, d);
    forall id | id in s.trips ensures Counted(s.trips[id], d) <= Booked(s, s.trips[id]) <= Travelled(s, id) {
      CountsAtMostIff(s, id, d);
    }
    forall id | id in next.trips ensures TripInv(next, id) {
      assert TripInv(s, id);
    }
  }

  lemma JoinKeepsInv(s: Batching, id: nat, minDistance: nat, minInterval: nat)
    requires Inv(s) && s.odometer < TWO_TO_THE_32
    ensures Inv(OnJoin(s, id, minDistance, minInterval))
  {
    CounterIsSum(s);
    var next := OnJoin(s, id, minDistance, minInterval);
    forall k | k in next.trips ensures TripInv(next, k) {
      if k != id { assert TripInv(s, k); }
    }
  }

  lemma LeftKeepsInv(s: Batching, id: nat)
    requires Inv(s) && id in s.trips
    ensures Inv(Left(s, id))
  {
    forall k | k in Left(s, id).trips ensures TripInv(Left(s, id), k) {
      assert TripInv(s, k);
    }
  }

  lemma StopKeepsInv(s: Batching, id: nat)
    requires Inv(s) && s.odometer < TWO_TO_THE_32 && id in s.trips
    ensures Inv(OnStop(s, id))
  {
    LeftKeepsInv(s, id);
    CounterIsSum(Left(s, id));
    RebatchKeepsInv(Left(s, id), Counter(s));
  }

  lemma MoveKeepsInv(s: Batching, distance: nat)
    requires Inv(s)
    ensures Inv(Step(s, Move(distance)))
  {
    var next := Step(s, Move(distance));
    forall id | id in next.trips ensures TripInv(next, id) { assert TripInv(s, id); }
  }

  lemma StepKeepsInv(s: Batching, e: Event)
    requires Inv(s) && Fits(s, e) && Timely(s, e)
    ensures Inv(Step(s, e))
  {
    match e
    case Move(distance) => MoveKeepsInv(s, distance);
    case Join(id, minDistance, minInterval) => JoinKeepsInv(s, id, minDistance, minInterval);
    case Stop(id) => if id in s.trips { StopKeepsInv(s, id); }
    case Report(d) =>
      TallyKeepsInv(s, d);
      RebatchKeepsInv(Tally(s, d), d);
  }

  /** A run from idle within 32 bits. */
  ghost predicate IsRun(states: seq<Batching>, events: seq<Event>) {
    && |states| == |events| + 1 && states[0] == IDLE
    && forall i :: 0 <= i < |events| ==>
         && states[i].trips.Keys <= states[i].joinedAt.Keys
         && Fits(states[i], events[i])
         && states[i + 1] == Step(states[i], events[i])
  }

  ghost predicate AllTimely(states: seq<Batching>, events: seq<Event>)
    requires |states| == |events| + 1
  {
    forall i :: 0 <= i < |events| ==> Timely(states[i], events[i])
  }

  lemma {:induction false} RunKeepsInv(states: seq<Batching>, events: seq<Event>, n: nat)
    requires IsRun(states, events) && n <= |events|
    requires forall i :: 0 <= i < n ==> Timely(states[i], events[i])
    ensures Inv(states[n])
  {
    if n > 0 {
      RunKeepsInv(states, events, n - 1);
      StepKeepsInv(states[n - 1], events[n - 1]);
    }
  }

  /** In every run with timely reports a trip reported complete has really covered its distance. */
  lemma NoTripCompletesEarly(states: seq<Batching>, events: seq<Event>, n: nat, c: Completion)
    requires IsRun(states, events) && AllTimely(states, events)
    requires n <= |events| && c in states[n].completed
    ensures c.tripDistance <= c.travelled
  {
    RunKeepsInv(states, events, n);
  }

  /** No report of the step counts more for a trip than a fresh one would. */
  ghost predicate CountsHonestly(s: Batching, e: Event) {
    e.Report? ==> forall id :: id in s.trips ==> Counted(s.trips[id], e.accumulated) <= Booked(s, s.trips[id])
  }

  lemma HonestIffTimely(s: Batching, e: Event)
    requires Inv(s) && Fits(s, e)
    ensures CountsHonestly(s, e) <==> Timely(s, e)
  {
    if e.Report? {
      forall id | id in s.trips
        ensures Counted(s.trips[id], e.accumulated) <= Booked(s, s.trips[id]) <==>
                TimelyFor(s, s.trips[id], e.accumulated)
      {
        CountsAtMostIff(s, id, e.accumulated);
      }
    }
  }

  lemma {:induction false} HonestRunIsTimely(states: seq<Batching>, events: seq<Event>, n: nat)
    requires IsRun(states, events) && n <= |events|
    requires forall i :: 0 <= i < n ==> CountsHonestly(states[i], events[i])
    ensures forall i :: 0 <= i < n ==> Timely(states[i], events[i])
  {
    if n > 0 {
      HonestRunIsTimely(states, events, n - 1);
      RunKeepsInv(states, events, n - 1);
      HonestIffTimely(states[n - 1], events[n - 1]);
    }
  }

  /** Over any run, no report overcounts any trip if and only if all reports are timely. */
  lemma RunCountsHonestlyIff(states: seq<Batching>, events: seq<Event>)
    requires IsRun(states, events)
    ensures (forall i :: 0 <= i < |events| ==> CountsHonestly(states[i], events[i])) <==> AllTimely(states, events)
  {
    if forall i :: 0 <= i < |events| ==> CountsHonestly(states[i], events[i]) {
      HonestRunIsTimely(states, events, |events|);
    }
    if AllTimely(states, events) {
      forall i | 0 <= i < |events| ensures CountsHonestly(states[i], events[i]) {
        RunKeepsInv(states, events, i);
        HonestIffTimely(states[i], events[i]);
      }
    }
  }

  /** What a report of d counts for the trip: the distance it stands for, wrapped when that is negative. */
  lemma CountedWraps(s: Batching, id: nat, d: nat)
    requires Inv(s) && Fits(s, Report(d)) && id in s.trips
    ensures var t := s.trips[id];
            Counted(t, d) == Wrapped(t.accumulatedDistanceOnTripRestart + d - t.accumulatedDistanceOngoingBatch)
  {
    assert TripInv(s, id);
  }

  function Wrapped(x: int): nat { x % TWO_TO_THE_32 }

  /** The report reaches the trip's distance, and the trip has not. */
  predicate TooEarly(s: Batching, id: nat, d: nat)
    requires id in s.trips && id in s.joinedAt
  {
    var t := s.trips[id];
    && !TimelyFor(s, t, d) && Travelled(s, id) < t.tripDistance
    && t.tripDistance <= Wrapped(t.accumulatedDistanceOnTripRestart + d - t.accumulatedDistanceOngoingBatch)
  }

  /** A trip that has not covered its distance is completed by a report if and only if the report is not timely
    * for it and what it wrongly counts reaches that distance.
    */
  lemma CompletesEarlyIff(s: Batching, id: nat, d: nat)
    requires Inv(s) && Fits(s, Report(d)) && id in s.trips
    ensures Done(s.trips[id], d) && Travelled(s, id) < s.trips[id].tripDistance <==> TooEarly(s, id, d)
  {
    CountsAtMostIff(s, id, d);
    CountedWraps(s, id, d);
  }

  ghost predicate NoneEarly(s: Batching) {
    forall c :: c in s.completed ==> c.tripDistance <= c.travelled
  }

  /** The event completes some trip too early. */
  ghost predicate CompletesSomeEarly(s: Batching, e: Event)
    requires s.trips.Keys <= s.joinedAt.Keys
  {
    e.Report? && exists id :: id in s.trips && TooEarly(s, id, e.accumulated)
  }

  lemma StepCompletesEarlyIff(s: Batching, e: Event)
    requires Inv(s) && Fits(s, e)
    ensures NoneEarly(Step(s, e)) <==> !CompletesSomeEarly(s, e)
  {
    if e.Report? {
      var d := e.accumulated;
      forall id | id in s.trips
        ensures Done(s.trips[id], d) && Travelled(s, id) < s.trips[id].tripDistance <==> TooEarly(s, id, d)
      {
        CompletesEarlyIff(s, id, d);
      }
      TallyCompletesEarlyIff(s, d);
      assert OnReport(s, d).completed == Tally(s, d).completed;
    } else if e.Stop? && e.id in s.trips {
      assert OnStop(s, e.id).completed == s.completed;
    }
  }

  lemma TallyCompletesEarlyIff(s: Batching, d: nat)
    requires s.trips.Keys <= s.joinedAt.Keys && NoneEarly(s)
    ensures NoneEarly(Tally(s, d)) <==>
            forall id :: id in s.trips && Done(s.trips[id], d) ==> s.trips[id].tripDistance <= Travelled(s, id)
  {
    var next := Tally(s, d);
    forall id | id in s.trips && Done(s.trips[id], d)
      ensures Completion(id, s.trips[id].tripDistance, Travelled(s, id)) in next.completed
    {
    }
  }

  /** In any run, as long as the reports have been timely, the next event completes a trip too early if and only
    * if it is a report that is not timely for some trip and whose wrapped count reaches that trip's distance
    * before the trip does.
    */
  lemma RunCompletesEarlyIff(states: seq<Batching>, events: seq<Event>, n: nat)
    requires IsRun(states, events) && n < |events|
    requires forall i :: 0 <= i < n ==> Timely(states[i], events[i])
    ensures NoneEarly(states[n + 1]) <==> !CompletesSomeEarly(states[n], events[n])
  {
    RunKeepsInv(states, events, n);
    StepCompletesEarlyIff(states[n], events[n]);
  }

  // ---------------------------------------------------------------- when the count is exact

  /** What holds in every run, whatever is reported: no trip has joined the batch ahead of its counter. */
  ghost predicate BatchInv(s: Batching) {
    && s.trips.Keys <= s.joinedAt.Keys
    && s.batchStart <= s.odometer
    && forall id :: id in s.trips ==> s.trips[id].accumulatedDistanceOngoingBatch <= s.odometer - s.batchStart
  }

  lemma InvIsBatchInv(s: Batching)
    requires Inv(s)
    ensures BatchInv(s)
  {
    forall id | id in s.trips ensures s.trips[id].accumulatedDistanceOngoingBatch <= s.odometer - s.batchStart {
      assert TripInv(s, id);
    }
  }

  lemma CounterOfBatch(s: Batching)
    requires s.batchStart <= s.odometer < TWO_TO_THE_32
    ensures Counter(s) == s.odometer - s.batchStart
  {
  }

  /** The books show exactly what each trip has travelled. */
  ghost predicate Exact(s: Batching) {
    && s.trips.Keys <= s.joinedAt.Keys
    && forall id :: id in s.trips ==> Booked(s, s.trips[id]) == Travelled(s, id)
  }

  /** With exact books a report, however old, counts up to the odometer reading it stands for, wrapped when the
    * trip joined after that, and counts what the trip has travelled if and only if it is fresh.
    */
  lemma CountedIsReading(s: Batching, id: nat, d: nat)
    requires BatchInv(s) && Exact(s) && Fits(s, Report(d)) && id in s.trips
    ensures Counted(s.trips[id], d) == Wrapped(s.batchStart + d - s.joinedAt[id])
    ensures Counted(s.trips[id], d) == Travelled(s, id) <==> d == s.odometer - s.batchStart
    ensures 0 <= Travelled(s, id) < TWO_TO_THE_32
  {
    var t := s.trips[id];
    assert Booked(s, t) == Travelled(s, id);
    CountedIsWrapped(t.accumulatedDistanceOnTripRestart, t.accumulatedDistanceOngoingBatch, d);
    WrapsApart(s.batchStart + d, s.odometer, s.joinedAt[id]);
  }

  /** 32-bit sums and differences are the sum, wrapped. */
  lemma CountedIsWrapped(restart: nat, ongoing: nat, d: nat)
    ensures Add32(restart, Sub32(d, ongoing)) == Wrapped(restart + d - ongoing)
  {
  }

  /** Different readings show different distances. */
  lemma WrapsApart(a: int, b: int, joined: int)
    requires 0 <= a < TWO_TO_THE_32 && 0 <= b < TWO_TO_THE_32 && 0 <= joined < TWO_TO_THE_32
    ensures Wrapped(a - joined) == Wrapped(b - joined) <==> a == b
  {
  }

  /** With exact books, a fresh report completes exactly the trips that have covered their distance. */
  lemma CompletesExactly(s: Batching, id: nat)
    requires BatchInv(s) && Exact(s) && s.odometer < TWO_TO_THE_32 && id in s.trips
    ensures Done(s.trips[id], s.odometer - s.batchStart) <==> s.trips[id].tripDistance <= Travelled(s, id)
  {
    CountedIsReading(s, id, s.odometer - s.batchStart);
  }

  /** The last report of every trip but one still agrees with the counter a join of that one queries. */
  predicate JustReported(s: Batching, but: nat) {
    forall id | id in s.trips && id != but ::
      s.trips[id].accumulatedDistanceThisTrip == Counted(s.trips[id], Counter(s))
  }

  /** Every trip's own count is what d counts for it. */
  ghost predicate ReportedAt(s: Batching, d: nat) {
    forall id :: id in s.trips ==> s.trips[id].accumulatedDistanceThisTrip == Counted(s.trips[id], d)
  }

  lemma CarriedCounts(t: Trip, d: nat)
    ensures Counted(Carry(t, Counted(t, d)), 0) == Counted(t, d)
  {
  }

  lemma RestartedIsReported(s: Batching, plan: Plan, d: nat)
    ensures ReportedAt(Restarted(s, plan, d), Counter(Restarted(s, plan, d)))
  {
    var next := Restarted(s, plan, d);
    assert Counter(next) == 0;
    forall id | id in next.trips ensures next.trips[id].accumulatedDistanceThisTrip == Counted(next.trips[id], 0) {
      CarriedCounts(s.trips[id], d);
    }
  }

  lemma TallyIsReported(s: Batching, d: nat)
    requires s.trips.Keys <= s.joinedAt.Keys
    ensures ReportedAt(Tally(s, d), d)
  {
  }

  lemma ReportedIsJustReported(s: Batching, but: nat)
    requires ReportedAt(s, Counter(s))
    ensures JustReported(s, but)
  {
  }

  /** It does right after a report of the current distance. */
  lemma FreshReportIsJustReported(s: Batching, d: nat, but: nat)
    requires BatchInv(s) && s.odometer < TWO_TO_THE_32 && d == s.odometer - s.batchStart
    ensures JustReported(OnReport(s, d), but)
  {
    CounterOfBatch(s);
    var t := Tally(s, d);
    TallyIsReported(s, d);
    RebatchIsReported(t, d);
    ReportedIsJustReported(OnReport(s, d), but);
  }

  lemma RebatchIsReported(s: Batching, d: nat)
    requires ReportedAt(s, d) && d == Counter(s)
    ensures ReportedAt(Rebatch(s, d), Counter(Rebatch(s, d)))
  {
    var plan := PlanFor(s, MinimaOf(s.trips), d);
    RestartedIsReported(s, plan, d);
  }

  /** It no longer does after the least movement. */
  lemma MovementOutdatesReports(s: Batching, distance: nat, but: nat)
    requires BatchInv(s) && JustReported(s, but) && exists id :: id in s.trips && id != but
    requires 0 < distance && s.odometer + distance < TWO_TO_THE_32
    ensures !JustReported(Step(s, Move(distance)), but)
  {
    var id :| id in s.trips && id != but;
    CounterOfBatch(s);
    CounterOfBatch(Step(s, Move(distance)));
    CountsApart(s.trips[id], Counter(s), distance);
  }

  lemma CountsApart(t: Trip, d: nat, distance: nat)
    requires 0 < distance < TWO_TO_THE_32
    ensures Counted(t, d) != Counted(t, d + distance)
  {
    var x := t.accumulatedDistanceOnTripRestart + d - t.accumulatedDistanceOngoingBatch;
    CountedIsWrapped(t.accumulatedDistanceOnTripRestart, t.accumulatedDistanceOngoingBatch, d);
    CountedIsWrapped(t.accumulatedDistanceOnTripRestart, t.accumulatedDistanceOngoingBatch, d + distance);
    WrapsNext(x, distance);
  }

  lemma WrapsNext(x: int, distance: nat)
    requires 0 < distance < TWO_TO_THE_32
    ensures Wrapped(x) != Wrapped(x + distance)
  {
  }

  ghost predicate JoinRestarts(s: Batching, minDistance: nat, minInterval: nat) {
    s.trips != map[] && JoinPlan(s, minDistance, minInterval).restart
  }

  /** A join keeps the books exact if and only if it does not restart the batch or the other trips' last
    * reports are still up to date.
    */
  lemma JoinKeepsExactIff(s: Batching, id: nat, minDistance: nat, minInterval: nat)
    requires BatchInv(s) && Exact(s) && s.odometer < TWO_TO_THE_32
    ensures Exact(OnJoin(s, id, minDistance, minInterval)) <==>
            (JoinRestarts(s, minDistance, minInterval) ==> JustReported(s, id))
  {
    var next := OnJoin(s, id, minDistance, minInterval);
    forall k | k in s.trips && k != id
      ensures k in next.trips && k in next.joinedAt
      ensures Booked(next, next.trips[k]) == Travelled(next, k) <==>
              (JoinRestarts(s, minDistance, minInterval) ==>
                 s.trips[k].accumulatedDistanceThisTrip == Counted(s.trips[k], Counter(s)))
    {
      JoinKeepsTripExactIff(s, id, minDistance, minInterval, k);
    }
    JoinedTripIsExact(s, id, minDistance, minInterval);
    assert forall k :: k in next.trips <==> k == id || k in s.trips;
  }

  lemma JoinKeepsTripExactIff(s: Batching, id: nat, minDistance: nat, minInterval: nat, k: nat)
    requires BatchInv(s) && Exact(s) && s.odometer < TWO_TO_THE_32 && k in s.trips && k != id
    ensures var next := OnJoin(s, id, minDistance, minInterval);
            && k in next.trips && k in next.joinedAt
            && (Booked(next, next.trips[k]) == Travelled(next, k) <==>
                (JoinRestarts(s, minDistance, minInterval) ==>
                   s.trips[k].accumulatedDistanceThisTrip == Counted(s.trips[k], Counter(s))))
  {
    CounterOfBatch(s);
    CountedIsReading(s, k, Counter(s));
  }

  lemma JoinedTripIsExact(s: Batching, id: nat, minDistance: nat, minInterval: nat)
    requires BatchInv(s) && s.odometer < TWO_TO_THE_32
    ensures var next := OnJoin(s, id, minDistance, minInterval);
            id in next.trips && id in next.joinedAt && Booked(next, next.trips[id]) == 0 == Travelled(next, id)
  {
    CounterOfBatch(s);
  }

  /** A restart with the distance d keeps the books exact if and only if d is the current one. */
  lemma RebatchKeepsExactIff(s: Batching, d: nat)
    requires BatchInv(s) && Exact(s) && Fits(s, Report(d))
    ensures Exact(Rebatch(s, d)) <==> (Restarts(s, d) ==> d == s.odometer - s.batchStart)
  {
    if Restarts(s, d) {
      RestartedIsExactIff(s, PlanFor(s, MinimaOf(s.trips), d), d);
    }
  }

  lemma RestartedIsExactIff(s: Batching, plan: Plan, d: nat)
    requires BatchInv(s) && Exact(s) && Fits(s, Report(d)) && s.trips != map[]
    ensures Exact(Restarted(s, plan, d)) <==> d == s.odometer - s.batchStart
  {
    var next := Restarted(s, plan, d);
    forall id | id in s.trips
      ensures Booked(next, next.trips[id]) == Travelled(next, id) <==> d == s.odometer - s.batchStart
    {
      CountedIsReading(s, id, d);
    }
    var id :| id in s.trips;
    assert id in next.trips;
  }

  ghost predicate ReportRestarts(s: Batching, d: nat)
    requires s.trips.Keys <= s.joinedAt.Keys
  {
    AnyDone(s.trips, d) && Restarts(Tally(s, d), d)
  }

  /** A report, however old, keeps the books exact if and only if it is fresh or does not restart the batch: it
    * completes no trip, leaves none, or leaves trips that need no other batch.
    */
  lemma ReportKeepsExactIff(s: Batching, d: nat)
    requires BatchInv(s) && Exact(s) && Fits(s, Report(d))
    ensures Exact(OnReport(s, d)) <==> (ReportRestarts(s, d) ==> d == s.odometer - s.batchStart)
  {
    TallyKeepsExact(s, d);
    RebatchKeepsExactIff(Tally(s, d), d);
  }

  lemma TallyKeepsExact(s: Batching, d: nat)
    requires BatchInv(s) && Exact(s)
    ensures BatchInv(Tally(s, d)) && Exact(Tally(s, d))
  {
  }

  lemma LeftKeepsExact(s: Batching, id: nat)
    requires BatchInv(s) && id in s.trips
    ensures BatchInv(Left(s, id)) && (Exact(s) ==> Exact(Left(s, id)))
  {
  }

  lemma StopKeepsExact(s: Batching, id: nat)
    requires BatchInv(s) && Exact(s) && s.odometer < TWO_TO_THE_32 && id in s.trips
    ensures Exact(OnStop(s, id))
  {
    LeftKeepsExact(s, id);
    CounterOfBatch(s);
    RebatchKeepsExactIff(Left(s, id), Counter(s));
  }

  /** The two ways to lose distance: a join that restarts the batch behind outdated reports, and a late report
    * that restarts it.
    */
  ghost predicate Forgets(s: Batching, e: Event)
    requires s.trips.Keys <= s.joinedAt.Keys
  {
    match e
    case Join(id, minDistance, minInterval) => JoinRestarts(s, minDistance, minInterval) && !JustReported(s, id)
    case Report(d) => ReportRestarts(s, d) && d != s.odometer - s.batchStart
    case _ => false
  }

  /** A step keeps the books exact if and only if it does not forget. */
  lemma StepKeepsExactIff(s: Batching, e: Event)
    requires BatchInv(s) && Exact(s) && Fits(s, e)
    ensures Exact(Step(s, e)) <==> !Forgets(s, e)
  {
    match e
    case Move(distance) =>
    case Join(id, minDistance, minInterval) => JoinKeepsExactIff(s, id, minDistance, minInterval);
    case Stop(id) => if id in s.trips { StopKeepsExact(s, id); }
    case Report(d) => ReportKeepsExactIff(s, d);
  }

  lemma RebatchKeepsBatchInv(s: Batching, d: nat)
    requires BatchInv(s)
    ensures BatchInv(Rebatch(s, d))
  {
    RestartedKeepsBatchInv(s, PlanFor(s, MinimaOf(s.trips), d), d);
  }

  lemma RestartedKeepsBatchInv(s: Batching, plan: Plan, d: nat)
    requires BatchInv(s)
    ensures BatchInv(Restarted(s, plan, d))
  {
  }

  lemma TallyKeepsBatchInv(s: Batching, d: nat)
    requires BatchInv(s)
    ensures BatchInv(Tally(s, d))
  {
  }

  lemma StepKeepsBatchInv(s: Batching, e: Event)
    requires BatchInv(s) && Fits(s, e)
    ensures BatchInv(Step(s, e))
  {
    match e
    case Move(distance) =>
    case Join(id, minDistance, minInterval) => CounterOfBatch(s);
    case Stop(id) =>
      if id in s.trips {
        LeftKeepsExact(s, id);
        RebatchKeepsBatchInv(Left(s, id), Counter(s));
      }
    case Report(d) =>
      TallyKeepsBatchInv(s, d);
      RebatchKeepsBatchInv(Tally(s, d), d);
  }

  lemma {:induction false} RunKeepsBatchInv(states: seq<Batching>, events: seq<Event>, n: nat)
    requires IsRun(states, events) && n <= |events|
    ensures BatchInv(states[n])
  {
    if n > 0 {
      RunKeepsBatchInv(states, events, n - 1);
      StepKeepsBatchInv(states[n - 1], events[n - 1]);
    }
  }

  // ---------------------------------------------------------------- over the events of a run

  /** The odometer reading that each trip's books were last brought up to: by its join, by a report, or by a
    * stop that restarted the batch.
    */
  ghost function BookedUpTo(states: seq<Batching>, events: seq<Event>, n: nat): map<nat, int>
    requires IsRun(states, events) && n <= |events|
  {
    if n == 0 then map[] else Rebooked(states[n - 1], events[n - 1], BookedUpTo(states, events, n - 1))
  }

  ghost function Rebooked(s: Batching, e: Event, upTo: map<nat, int>): map<nat, int>
    requires s.trips.Keys <= s.joinedAt.Keys
  {
    match e
    case Move(_) => upTo
    case Join(id, _, _) => upTo[id := s.odometer]
    case Stop(id) => if StopRestarts(s, id) then AllAt(Left(s, id).trips.Keys, s.odometer) else upTo - {id}
    case Report(d) => AllAt(Tally(s, d).trips.Keys, s.batchStart + d)
  }

  ghost predicate StopRestarts(s: Batching, id: nat) {
    id in s.trips && Restarts(Left(s, id), Counter(s))
  }

  function AllAt(ids: set<nat>, reading: int): map<nat, int> { map k | k in ids :: reading }

  /** The trip's own count is its distance up to a reading: wrapped, when it joined after that. */
  predicate BookIs(s: Batching, id: nat, reading: int) {
    && id in s.trips && id in s.joinedAt && 0 <= reading < TWO_TO_THE_32
    && s.trips[id].accumulatedDistanceThisTrip == Wrapped(reading - s.joinedAt[id])
  }

  /** The trips, and for each the reading its last booking stands for. */
  ghost predicate BooksAre(s: Batching, upTo: map<nat, int>) {
    s.trips.Keys == upTo.Keys && forall id :: id in upTo ==> BookIs(s, id, upTo[id])
  }

  /** Some other trip has travelled since it was last booked. */
  ghost predicate MovedSince(s: Batching, upTo: map<nat, int>, but: nat) {
    exists id :: id in upTo && id != but && upTo[id] != s.odometer
  }

  lemma JustReportedIff(s: Batching, upTo: map<nat, int>, but: nat)
    requires BatchInv(s) && Exact(s) && s.odometer < TWO_TO_THE_32 && BooksAre(s, upTo)
    ensures JustReported(s, but) <==> !MovedSince(s, upTo, but)
  {
    CounterOfBatch(s);
    forall id | id in s.trips
      ensures s.trips[id].accumulatedDistanceThisTrip == Counted(s.trips[id], Counter(s)) <==> upTo[id] == s.odometer
    {
      assert BookIs(s, id, upTo[id]);
      CountedIsReading(s, id, Counter(s));
      WrapsApart(upTo[id], s.odometer, s.joinedAt[id]);
    }
  }

  lemma JoinBooks(s: Batching, id: nat, minDistance: nat, minInterval: nat, upTo: map<nat, int>)
    requires BooksAre(s, upTo) && s.odometer < TWO_TO_THE_32
    ensures BooksAre(OnJoin(s, id, minDistance, minInterval), upTo[id := s.odometer])
  {
    var next, after := OnJoin(s, id, minDistance, minInterval), upTo[id := s.odometer];
    JoinKeepsCounts(s, id, minDistance, minInterval);
    forall k | k in after ensures BookIs(next, k, after[k]) {
      if k != id { assert BookIs(s, k, upTo[k]); }
    }
  }

  /** A join, with or without a restart, leaves every other trip's own count as it was. */
  lemma JoinKeepsCounts(s: Batching, id: nat, minDistance: nat, minInterval: nat)
    ensures var next := OnJoin(s, id, minDistance, minInterval);
            && next.trips.Keys == s.trips.Keys + {id} && next.joinedAt == s.joinedAt[id := s.odometer]
            && (forall k :: k in s.trips && k != id ==>
                  next.trips[k].accumulatedDistanceThisTrip == s.trips[k].accumulatedDistanceThisTrip)
            && next.trips[id].accumulatedDistanceThisTrip == 0
  {
  }

  /** A restart with the distance d books every trip up to the reading d stands for. */
  lemma RestartedBooks(s: Batching, plan: Plan, d: nat, reading: int)
    requires BatchInv(s) && Exact(s) && Fits(s, Report(d)) && reading == s.batchStart + d
    ensures BooksAre(Restarted(s, plan, d), AllAt(s.trips.Keys, reading))
  {
    var next := Restarted(s, plan, d);
    forall k | k in s.trips ensures BookIs(next, k, reading) {
      CountedIsReading(s, k, d);
    }
  }

  /** A restart that is due books every trip up to the reading d stands for; otherwise the books stay. */
  lemma RebatchBooks(s: Batching, d: nat, reading: int, upTo: map<nat, int>)
    requires BatchInv(s) && Exact(s) && Fits(s, Report(d)) && reading == s.batchStart + d && BooksAre(s, upTo)
    ensures Restarts(s, d) ==> BooksAre(Rebatch(s, d), AllAt(s.trips.Keys, reading))
    ensures !Restarts(s, d) ==> BooksAre(Rebatch(s, d), upTo)
  {
    if Restarts(s, d) {
      RestartedBooks(s, PlanFor(s, MinimaOf(s.trips), d), d, reading);
    } else {
      SameBooks(s, Rebatch(s, d), upTo);
    }
  }

  lemma SameBooks(s: Batching, next: Batching, upTo: map<nat, int>)
    requires BooksAre(s, upTo) && next.trips == s.trips && next.joinedAt == s.joinedAt
    ensures BooksAre(next, upTo)
  {
    forall id | id in upTo ensures BookIs(next, id, upTo[id]) {
      assert BookIs(s, id, upTo[id]);
    }
  }

  lemma LeftBooks(s: Batching, id: nat, upTo: map<nat, int>)
    requires BooksAre(s, upTo) && id in s.trips
    ensures BooksAre(Left(s, id), upTo - {id})
  {
    forall k | k in upTo - {id} ensures BookIs(Left(s, id), k, (upTo - {id})[k]) {
      assert BookIs(s, k, upTo[k]);
    }
  }

  lemma StopBooks(s: Batching, id: nat, upTo: map<nat, int>)
    requires BatchInv(s) && Exact(s) && s.odometer < TWO_TO_THE_32 && BooksAre(s, upTo) && id in s.trips
    ensures StopRestarts(s, id) ==> BooksAre(OnStop(s, id), AllAt(Left(s, id).trips.Keys, s.odometer))
    ensures !StopRestarts(s, id) ==> BooksAre(OnStop(s, id), upTo - {id})
  {
    CounterOfBatch(s);
    LeftKeepsExact(s, id);
    LeftBooks(s, id, upTo);
    RebatchBooks(Left(s, id), Counter(s), s.odometer, upTo - {id});
  }

  lemma TallyBooks(s: Batching, d: nat, reading: int)
    requires BatchInv(s) && Exact(s) && Fits(s, Report(d)) && reading == s.batchStart + d
    ensures BooksAre(Tally(s, d), AllAt(Tally(s, d).trips.Keys, reading))
  {
    var next := Tally(s, d);
    forall k | k in next.trips ensures BookIs(next, k, reading) {
      CountedIsReading(s, k, d);
    }
  }

  lemma ReportBooks(s: Batching, d: nat, reading: int)
    requires BatchInv(s) && Exact(s) && Fits(s, Report(d)) && reading == s.batchStart + d
    ensures BooksAre(OnReport(s, d), AllAt(Tally(s, d).trips.Keys, reading))
  {
    var t := Tally(s, d);
    TallyKeepsExact(s, d);
    TallyBooks(s, d, reading);
    RebatchBooks(t, d, reading, AllAt(t.trips.Keys, reading));
  }

  lemma MoveBooks(s: Batching, distance: nat, upTo: map<nat, int>)
    requires BooksAre(s, upTo) && s.trips.Keys <= s.joinedAt.Keys
    ensures BooksAre(Step(s, Move(distance)), upTo)
  {
    forall id | id in upTo ensures BookIs(Step(s, Move(distance)), id, upTo[id]) {
      assert BookIs(s, id, upTo[id]);
    }
  }

  lemma StepBooks(s: Batching, e: Event, upTo: map<nat, int>)
    requires BatchInv(s) && Exact(s) && Fits(s, e) && BooksAre(s, upTo)
    ensures BooksAre(Step(s, e), Rebooked(s, e, upTo))
  {
    match e
    case Move(distance) => MoveBooks(s, distance, upTo);
    case Join(id, minDistance, minInterval) => JoinBooks(s, id, minDistance, minInterval, upTo);
    case Stop(id) =>
      if id in s.trips {
        StopBooks(s, id, upTo);
      } else {
        assert upTo - {id} == upTo;
      }
    case Report(d) => ReportBooks(s, d, s.batchStart + d);
  }

  /** As long as the books are exact, they show what each trip had travelled when it was last booked. */
  lemma {:induction false} BooksFollowEvents(states: seq<Batching>, events: seq<Event>, n: nat)
    requires IsRun(states, events) && n <= |events|
    requires forall i :: 0 <= i < n ==> Exact(states[i])
    ensures BooksAre(states[n], BookedUpTo(states, events, n))
  {
    if n > 0 {
      BooksFollowEvents(states, events, n - 1);
      RunKeepsBatchInv(states, events, n - 1);
      StepBooks(states[n - 1], events[n - 1], BookedUpTo(states, events, n - 1));
    }
  }

  /** The n-th event restarts the batch and loses distance: a join while some other trip has moved since it
    * was last booked, or a report that is not of the current distance.
    */
  ghost predicate LosesAt(states: seq<Batching>, events: seq<Event>, n: nat)
    requires IsRun(states, events) && n < |events|
  {
    var s := states[n];
    match events[n]
    case Join(id, minDistance, minInterval) =>
      JoinRestarts(s, minDistance, minInterval) && MovedSince(s, BookedUpTo(states, events, n), id)
    case Report(d) => ReportRestarts(s, d) && d != s.odometer - s.batchStart
    case _ => false
  }

  lemma LosesIffForgets(states: seq<Batching>, events: seq<Event>, n: nat)
    requires IsRun(states, events) && n < |events|
    requires forall i :: 0 <= i <= n ==> Exact(states[i])
    ensures LosesAt(states, events, n) <==> Forgets(states[n], events[n])
    ensures Exact(states[n + 1]) <==> !LosesAt(states, events, n)
  {
    BooksFollowEvents(states, events, n);
    RunKeepsBatchInv(states, events, n);
    assert Exact(states[n]);
    if events[n].Join? {
      JustReportedIff(states[n], BookedUpTo(states, events, n), events[n].id);
    }
    StepKeepsExactIff(states[n], events[n]);
  }

  lemma {:induction false} ExactUntilLoss(states: seq<Batching>, events: seq<Event>, n: nat)
    requires IsRun(states, events) && n <= |events|
    requires forall i :: 0 <= i < n ==> !LosesAt(states, events, i)
    ensures forall i :: 0 <= i <= n ==> Exact(states[i])
  {
    if n > 0 {
      ExactUntilLoss(states, events, n - 1);
      LosesIffForgets(states, events, n - 1);
    }
  }

  /** Over any run, the books are exact at every point if and only if no join restarts the batch while another
    * trip has moved since it was last booked, and no outdated report restarts it.
    */
  lemma RunKeepsExactIff(states: seq<Batching>, events: seq<Event>)
    requires IsRun(states, events)
    ensures (forall n :: 0 <= n <= |events| ==> Exact(states[n])) <==>
            (forall n :: 0 <= n < |events| ==> !LosesAt(states, events, n))
  {
    if forall n :: 0 <= n <= |events| ==> Exact(states[n]) {
      forall n | 0 <= n < |events| ensures !LosesAt(states, events, n) {
        LosesIffForgets(states, events, n);
      }
    }
    if forall n :: 0 <= n < |events| ==> !LosesAt(states, events, n) {
      ExactUntilLoss(states, events, |events|);
    }
  }

  // ---------------------------------------------------------------- which trips, and what batch for them

  /** The distance the modem's batch still runs. */
  function BatchLeft(s: Batching): nat { Sub32(s.ongoingDistance, Counter(s)) }

  function Min(a: nat, b: nat): nat { if a < b then a else b }

  /** A join adds its trip with its own distance and interval, and leaves those of the others. */
  lemma JoinAddsTrip(s: Batching, id: nat, minDistance: nat, minInterval: nat)
    requires s.trips.Keys <= s.joinedAt.Keys
    ensures var next := Step(s, Join(id, minDistance, minInterval));
            && next.trips.Keys == s.trips.Keys + {id} && next.joinedAt == s.joinedAt[id := s.odometer]
            && next.trips[id].tripDistance == minDistance && next.trips[id].tripTBFInterval == minInterval
            && forall k :: k in s.trips && k != id ==>
                 && next.trips[k].tripDistance == s.trips[k].tripDistance
                 && next.trips[k].tripTBFInterval == s.trips[k].tripTBFInterval
  {
  }

  /** The first trip gets a new batch of its own distance and interval. */
  lemma FirstJoinLeaves(s: Batching, id: nat, minDistance: nat, minInterval: nat)
    requires s.trips == map[] && minDistance < TWO_TO_THE_32
    ensures var next := Step(s, Join(id, minDistance, minInterval));
            BatchLeft(next) == minDistance && next.ongoingTBFInterval == minInterval && Counter(next) == 0
  {
  }

  /** A later trip leaves a batch that runs for the smaller of its own distance and what the batch still had to run,
    * at the smaller of the two intervals.
    */
  lemma JoinLeaves(s: Batching, id: nat, minDistance: nat, minInterval: nat)
    requires BatchInv(s) && s.odometer < TWO_TO_THE_32 && minDistance < TWO_TO_THE_32 && s.trips != map[]
    ensures var next := Step(s, Join(id, minDistance, minInterval));
            && BatchLeft(next) == Min(minDistance, BatchLeft(s))
            && next.ongoingTBFInterval == Min(minInterval, s.ongoingTBFInterval)
  {
    JoinPlanLeaves(s, minDistance, minInterval, Step(s, Join(id, minDistance, minInterval)));
  }

  lemma JoinPlanLeaves(s: Batching, minDistance: nat, minInterval: nat, next: Batching)
    requires s.batchStart <= s.odometer < TWO_TO_THE_32 && minDistance < TWO_TO_THE_32
    requires next.odometer == s.odometer
    requires var plan := JoinPlan(s, minDistance, minInterval);
             && next.batchStart == (if plan.restart then s.odometer else s.batchStart)
             && next.ongoingDistance == (if plan.restart then plan.distance else s.ongoingDistance)
             && next.ongoingTBFInterval == (if plan.restart then plan.interval else s.ongoingTBFInterval)
    ensures BatchLeft(next) == Min(minDistance, BatchLeft(s))
    ensures next.ongoingTBFInterval == Min(minInterval, s.ongoingTBFInterval)
  {
  }

  /** v is the least value of f over the trips. */
  ghost predicate IsLeast(trips: map<nat, Trip>, f: Trip -> nat, v: nat) {
    (exists id :: id in trips && f(trips[id]) == v) && forall id :: id in trips ==> v <= f(trips[id])
  }

  /** When no trip's own value is 0, the least value is what the loop over the trips finds. */
  lemma LeastIsFound(trips: map<nat, Trip>, f: Trip -> nat, v: nat)
    requires trips != map[] && forall id :: id in trips ==> f(trips[id]) != 0
    ensures IsFound(IdLess, f, trips, v) <==> IsLeast(trips, f, v)
  {
    IdLessIsOrder();
    forall id | id in trips ensures Counts(IdLess, f, trips, id) {}
  }

  /** What the loops over the trips find, behind the last trip whose own value is 0. */
  ghost predicate AreLeast(trips: map<nat, Trip>, least: nat, fastest: nat) {
    trips != map[] && IsFound(IdLess, Remaining, trips, least) && IsFound(IdLess, TBF, trips, fastest)
  }

  /** The batch afterwards: it ends with the trip that has least left if the trip that set the distance is gone,
    * the old distance has been run, or that is less than what was still to run; otherwise it keeps its distance,
    * from the start again if the interval changes.
    */
  predicate LeavesBatch(s: Batching, next: Batching, d: nat, distanceGone: bool, tbfGone: bool,
                        least: nat, fastest: nat)
  {
    var rest := Sub32(s.ongoingDistance, d);
    var changes := fastest < s.ongoingTBFInterval || (tbfGone && fastest != s.ongoingTBFInterval);
    && next.ongoingTBFInterval == (if changes then fastest else s.ongoingTBFInterval)
    && if (if distanceGone || rest == 0 then least != 0 else least < rest)
       then next.ongoingDistance == least && next.batchStart == s.odometer
       else next.ongoingDistance == s.ongoingDistance
            && next.batchStart == (if changes then s.odometer else s.batchStart)
  }

  lemma RebatchLeaves(s: Batching, d: nat, least: nat, fastest: nat)
    requires AreLeast(s.trips, least, fastest)
    ensures LeavesBatch(s, Rebatch(s, d), d, s.distanceDropped, s.tbfDropped, least, fastest)
  {
    IdLessIsOrder();
    FoundUnique(IdLess, Remaining, s.trips, least);
    FoundUnique(IdLess, TBF, s.trips, fastest);
    assert MinimaOf(s.trips) == Minima(least, fastest);
    PlanLeaves(s, d, least, fastest);
  }

  lemma PlanLeaves(s: Batching, d: nat, least: nat, fastest: nat)
    ensures var plan := PlanFor(s, Minima(least, fastest), d);
            LeavesBatch(s, if plan.restart then Restarted(s, plan, d) else s, d, s.distanceDropped, s.tbfDropped,
                        least, fastest)
  {
  }

  /** A stop removes its trip and leaves the others' distances and intervals; least and fastest are theirs. */
  lemma StopLeaves(s: Batching, id: nat, least: nat, fastest: nat)
    requires s.trips.Keys <= s.joinedAt.Keys && id in s.trips && AreLeast(s.trips - {id}, least, fastest)
    ensures Step(s, Stop(id)).trips.Keys == s.trips.Keys - {id}
    ensures LeavesBatch(s, Step(s, Stop(id)), Counter(s),
                        s.distanceDropped || s.trips[id].tripDistance == s.ongoingDistance,
                        s.tbfDropped || s.trips[id].tripTBFInterval == s.ongoingTBFInterval, least, fastest)
  {
    LeftTrips(s, id);
    BatchAfter(s, Left(s, id), Step(s, Stop(id)), Counter(s), least, fastest);
    RebatchKeeps(Left(s, id), Counter(s));
  }

  lemma LeftTrips(s: Batching, id: nat)
    requires id in s.trips
    ensures var left := Left(s, id);
            && left.trips == s.trips - {id} && OnSameBatch(s, left)
            && left.distanceDropped == (s.distanceDropped || s.trips[id].tripDistance == s.ongoingDistance)
            && left.tbfDropped == (s.tbfDropped || s.trips[id].tripTBFInterval == s.ongoingTBFInterval)
  {
  }

  predicate OnSameBatch(s: Batching, left: Batching) {
    && left.odometer == s.odometer && left.batchStart == s.batchStart
    && left.ongoingDistance == s.ongoingDistance && left.ongoingTBFInterval == s.ongoingTBFInterval
  }

  lemma BatchAfter(s: Batching, left: Batching, next: Batching, d: nat, least: nat, fastest: nat)
    requires OnSameBatch(s, left) && next == Rebatch(left, d)
    requires AreLeast(left.trips, least, fastest)
    ensures LeavesBatch(s, next, d, left.distanceDropped, left.tbfDropped, least, fastest)
  {
    RebatchLeaves(left, d, least, fastest);
  }

  /** Stopping the last trip leaves nothing to batch. */
  lemma LastStopLeaves(s: Batching, id: nat)
    requires s.trips.Keys == {id} <= s.joinedAt.Keys
    ensures var next := Step(s, Stop(id));
            next.trips == map[] && next.ongoingDistance == 0 && next.ongoingTBFInterval == 0
  {
    assert (s.trips - {id}).Keys == {};
  }

  /** A stop of an unknown trip changes nothing. */
  lemma UnknownStop(s: Batching, id: nat)
    requires s.trips.Keys <= s.joinedAt.Keys && id !in s.trips
    ensures Step(s, Stop(id)) == s
  {
  }

  /** A report completes exactly the trips whose count reaches their distance, and leaves the others. */
  lemma ReportCompletes(s: Batching, d: nat, id: nat)
    requires s.trips.Keys <= s.joinedAt.Keys && id in s.trips
    ensures id in Step(s, Report(d)).trips <==> Counted(s.trips[id], d) < s.trips[id].tripDistance
    ensures Counted(s.trips[id], d) >= s.trips[id].tripDistance ==>
              Completion(id, s.trips[id].tripDistance, Travelled(s, id)) in Step(s, Report(d)).completed
    ensures Step(s, Report(d)).trips.Keys <= s.trips.Keys && s.completed <= Step(s, Report(d)).completed
  {
    RebatchKeeps(Tally(s, d), d);
    if Done(s.trips[id], d) {
      assert Completion(id, s.trips[id].tripDistance, Travelled(s, id)) in Tally(s, d).completed;
    }
  }

  lemma RebatchKeeps(s: Batching, d: nat)
    ensures Rebatch(s, d).trips.Keys == s.trips.Keys && Rebatch(s, d).completed == s.completed
  {
  }

  /** With exact books a fresh report completes exactly the trips that have covered their distance. */
  lemma FreshReportCompletes(s: Batching, d: nat, id: nat)
    requires BatchInv(s) && Exact(s) && s.odometer < TWO_TO_THE_32 && d == s.odometer - s.batchStart && id in s.trips
    ensures id in Step(s, Report(d)).trips <==> Travelled(s, id) < s.trips[id].tripDistance
  {
    FreshDone(s, d, id);
    ReportDrops(s, d, id);
  }

  lemma FreshDone(s: Batching, d: nat, id: nat)
    requires BatchInv(s) && Exact(s) && s.odometer < TWO_TO_THE_32 && d == s.odometer - s.batchStart && id in s.trips
    ensures Done(s.trips[id], d) <==> s.trips[id].tripDistance <= Travelled(s, id)
  {
    CompletesExactly(s, id);
  }

  lemma ReportDrops(s: Batching, d: nat, id: nat)
    requires s.trips.Keys <= s.joinedAt.Keys && id in s.trips
    ensures id in Step(s, Report(d)).trips <==> !Done(s.trips[id], d)
  {
    ReportCompletes(s, d, id);
  }

  /** The batch that a report leaves behind for the trips it does not complete. */
  lemma ReportLeaves(s: Batching, d: nat, least: nat, fastest: nat)
    requires s.trips.Keys <= s.joinedAt.Keys && AnyDone(s.trips, d)
    requires AreLeast(Tally(s, d).trips, least, fastest)
    ensures var distanceGone := exists id :: && id in s.trips && Done(s.trips[id], d)
                                             && s.trips[id].tripDistance == s.ongoingDistance;
            var tbfGone := exists id :: && id in s.trips && Done(s.trips[id], d)
                                        && s.trips[id].tripTBFInterval == s.ongoingTBFInterval;
            LeavesBatch(s, Step(s, Report(d)), d, s.distanceDropped || distanceGone, s.tbfDropped || tbfGone,
                        least, fastest)
  {
    TallyDrops(s, d);
    ReportRebatches(s, d);
    BatchAfter(s, Tally(s, d), Step(s, Report(d)), d, least, fastest);
  }

  /** Completing the last trips leaves nothing to batch. */
  lemma LastReportLeaves(s: Batching, d: nat)
    requires s.trips.Keys <= s.joinedAt.Keys && s.trips != map[]
    requires forall id :: id in s.trips ==> Counted(s.trips[id], d) >= s.trips[id].tripDistance
    ensures var next := Step(s, Report(d));
            next.trips == map[] && next.ongoingDistance == 0 && next.ongoingTBFInterval == 0
  {
    forall id | id in s.trips ensures Done(s.trips[id], d) {}
    assert exists id :: id in s.trips;
    assert AnyDone(s.trips, d) && Tally(s, d).trips == map[];
  }

  lemma ReportRebatches(s: Batching, d: nat)
    requires s.trips.Keys <= s.joinedAt.Keys && AnyDone(s.trips, d)
    ensures Step(s, Report(d)) == Rebatch(Tally(s, d), d)
  {
  }

  lemma TallyDrops(s: Batching, d: nat)
    requires s.trips.Keys <= s.joinedAt.Keys
    ensures OnSameBatch(s, Tally(s, d))
    ensures Tally(s, d).distanceDropped <==>
            s.distanceDropped || exists id :: && id in s.trips && Done(s.trips[id], d)
                                              && s.trips[id].tripDistance == s.ongoingDistance
    ensures Tally(s, d).tbfDropped <==>
            s.tbfDropped || exists id :: && id in s.trips && Done(s.trips[id], d)
                                         && s.trips[id].tripTBFInterval == s.ongoingTBFInterval
  {
  }

  // ---------------------------------------------------------------- when the batch ends in time

  /** The batch ends no later than the trip with least left. */
  ghost predicate EndsInTime(s: Batching) {
    forall id :: id in s.trips ==> BatchLeft(s) <= Sub32(s.trips[id].tripDistance, Counted(s.trips[id], Counter(s)))
  }

  /** With up-to-date books, the batch after a possible restart ends in time if and only if it is not one that keeps
    * its full distance, because only the interval changes, although some trip has less left.
    */
  lemma RebatchEndsInTimeIff(s: Batching, d: nat, least: nat, fastest: nat)
    requires BatchInv(s) && s.odometer < TWO_TO_THE_32 && d == Counter(s) && ReportedAt(s, d)
    requires s.ongoingDistance < TWO_TO_THE_32
    requires AreLeast(s.trips, least, fastest) && forall id :: id in s.trips ==> Remaining(s.trips[id]) != 0
    ensures var changes := fastest < s.ongoingTBFInterval || (s.tbfDropped && fastest != s.ongoingTBFInterval);
            EndsInTime(Rebatch(s, d)) <==>
            !(!s.distanceDropped && 0 < BatchLeft(s) <= least < s.ongoingDistance && changes)
  {
    RebatchLeaves(s, d, least, fastest);
    LeastIsFound(s.trips, Remaining, least);
    RebatchIsReported(s, d);
    RebatchKeepsLeast(s, d, least);
    EndsInTimeIs(Rebatch(s, d), least);
    LeftAfter(s, Rebatch(s, d), d, least, fastest);
  }

  lemma LeftAfter(s: Batching, next: Batching, d: nat, least: nat, fastest: nat)
    requires s.batchStart <= s.odometer < TWO_TO_THE_32 && d == Counter(s) && s.ongoingDistance < TWO_TO_THE_32
    requires next.odometer == s.odometer && 0 < least < TWO_TO_THE_32
    requires LeavesBatch(s, next, d, s.distanceDropped, s.tbfDropped, least, fastest)
    ensures var changes := fastest < s.ongoingTBFInterval || (s.tbfDropped && fastest != s.ongoingTBFInterval);
            BatchLeft(next) <= least <==>
            !(!s.distanceDropped && 0 < BatchLeft(s) <= least < s.ongoingDistance && changes)
  {
    CounterOfBatch(s);
  }

  lemma RebatchKeepsLeast(s: Batching, d: nat, least: nat)
    requires ReportedAt(s, d) && IsLeast(s.trips, Remaining, least)
    ensures IsLeast(Rebatch(s, d).trips, Remaining, least) && least < TWO_TO_THE_32
    ensures Rebatch(s, d).odometer == s.odometer
  {
    RebatchKeepsCounts(s, d);
    var id :| id in s.trips && Remaining(s.trips[id]) == least;
    assert id in Rebatch(s, d).trips;
  }

  /** A restart shows for each trip what the last report counted for it, and asks no other distance of it. */
  lemma RebatchKeepsCounts(s: Batching, d: nat)
    requires ReportedAt(s, d)
    ensures var next := Rebatch(s, d);
            && next.trips.Keys == s.trips.Keys
            && forall k :: k in s.trips ==> Remaining(next.trips[k]) == Remaining(s.trips[k])
  {
    RestartedKeepsCounts(s, PlanFor(s, MinimaOf(s.trips), d), d);
  }

  lemma RestartedKeepsCounts(s: Batching, plan: Plan, d: nat)
    requires ReportedAt(s, d)
    ensures var next := Restarted(s, plan, d);
            && next.trips.Keys == s.trips.Keys
            && forall k :: k in s.trips ==> Remaining(next.trips[k]) == Remaining(s.trips[k])
  {
  }

  lemma EndsInTimeIs(s: Batching, least: nat)
    requires ReportedAt(s, Counter(s)) && IsLeast(s.trips, Remaining, least)
    ensures EndsInTime(s) <==> BatchLeft(s) <= least
  {
    var id :| id in s.trips && Remaining(s.trips[id]) == least;
    assert forall k :: k in s.trips ==>
        Remaining(s.trips[k]) == Sub32(s.trips[k].tripDistance, Counted(s.trips[k], Counter(s)));
  }

  // ---------------------------------------------------------------- concrete losses

  /** A trip of 100 at interval 10 has travelled 50 unreported when a faster trip joins: the batch restarts
    * and the books lose the 50.
    */
  lemma JoinCanLoseDistance(s: Batching)
    requires s == OnJoin(IDLE, 0, 100, 10).(odometer := 50)
    ensures Inv(s) && Exact(s) && !JustReported(s, 1)
    ensures !Exact(OnJoin(s, 1, 100, 5))
  {
    assert s.trips == map[0 := Trip(0, 0, 0, 100, 10)] && s.trips[0] == Trip(0, 0, 0, 100, 10);
    assert Counted(s.trips[0], Counter(s)) == 50;
    assert TripInv(s, 0);
    InvIsBatchInv(s);
    JoinKeepsExactIff(s, 1, 100, 5);
  }

  /** Trips of 10 and 1000 have travelled 60 when a report of 12 completes the first: the batch restarts and
    * the second is booked at 12.
    */
  lemma LateReportCanLoseDistance(s: Batching)
    requires s == OnJoin(OnJoin(IDLE, 0, 10, 5), 1, 1000, 5).(odometer := 60)
    ensures Inv(s) && Exact(s) && Timely(s, Report(12))
    ensures !Exact(OnReport(s, 12))
  {
    TwoTrips(s);
    LateReportRestarts(s);
    InvIsBatchInv(s);
    ReportKeepsExactIff(s, 12);
  }

  lemma TwoTrips(s: Batching)
    requires s == OnJoin(OnJoin(IDLE, 0, 10, 5), 1, 1000, 5).(odometer := 60)
    ensures s.trips == map[0 := Trip(0, 0, 0, 10, 5), 1 := Trip(0, 0, 0, 1000, 5)]
    ensures s.ongoingDistance == 10 && s.ongoingTBFInterval == 5
    ensures Inv(s) && Exact(s) && Timely(s, Report(12))
  {
    var trips := map[0 := Trip(0, 0, 0, 10, 5), 1 := Trip(0, 0, 0, 1000, 5)];
    assert s.trips == trips;
    assert trips[0] == Trip(0, 0, 0, 10, 5) && trips[1] == Trip(0, 0, 0, 1000, 5);
    assert TripInv(s, 0) && TripInv(s, 1);
  }

  lemma LateReportRestarts(s: Batching)
    requires s.trips == map[0 := Trip(0, 0, 0, 10, 5), 1 := Trip(0, 0, 0, 1000, 5)]
    requires s.ongoingDistance == 10 && s.ongoingTBFInterval == 5 && s.trips.Keys <= s.joinedAt.Keys
    ensures ReportRestarts(s, 12)
  {
    var a, b := Trip(0, 0, 0, 10, 5), Trip(0, 0, 0, 1000, 5);
    assert s.trips[0] == a && s.trips[1] == b && Done(a, 12) && !Done(b, 12);
    var left := Tally(s, 12);
    assert left.trips == map[1 := b.(accumulatedDistanceThisTrip := 12)];
    assert 1 in left.trips && Remaining(left.trips[1]) == 988;
    MinimumOfOne(left.trips, 1);
    assert left.distanceDropped;
  }

  lemma MinimumOfOne(trips: map<nat, Trip>, id: nat)
    requires id in trips && trips == map[id := trips[id]]
    ensures MinimaOf(trips) == Minima(Remaining(trips[id]), TBF(trips[id]))
  {
    IdLessIsOrder();
    forall f: Trip -> nat ensures Found(IdLess, f, trips) == f(trips[id]) {
      assert f(trips[id]) != 0 ==> Counts(IdLess, f, trips, id);
    }
  }

  /** A report of 40, queried before a trip joined at 50, completes that trip of 1000 at once. */
  lemma StaleReportCompletesEarly(s: Batching)
    requires s == OnJoin(OnJoin(IDLE, 0, 100, 5).(odometer := 50), 1, 1000, 5)
    ensures Inv(s) && 1 in s.trips && !TimelyFor(s, s.trips[1], 40)
    ensures Done(s.trips[1], 40) && Travelled(s, 1) == 0
  {
    var first := OnJoin(IDLE, 0, 100, 5).(odometer := 50);
    assert first.trips == map[0 := Trip(0, 0, 0, 100, 5)];
    assert TripInv(first, 0);
    JoinKeepsInv(first, 1, 1000, 5);
    assert s.trips[1] == Trip(50, 0, 0, 1000, 5);
  }

  /** Trips of 1000 at interval 1 and of 100 at interval 10 have travelled 50, as just reported, when the first
    * stops: the batch restarts for 100 although the second has only 50 left.
    */
  lemma IntervalRestartEndsLate(s: Batching)
    requires s == OnReport(OnJoin(OnJoin(IDLE, 0, 1000, 1), 1, 100, 10).(odometer := 50), 50)
    ensures 0 in s.trips && BatchLeft(s) == 50
    ensures var next := Step(s, Stop(0));
            BatchLeft(next) == 100 && 1 in next.trips && Remaining(next.trips[1]) == 50
  {
    TwoTrips50(s);
    var left := s.trips - {0};
    assert left == map[1 := s.trips[1]];
    OneTripIsLeast(left, 1);
    StopLeaves(s, 0, 50, 10);
    RestartedTrip(s, 0, 1);
    LeavesWholeBatch(s, Step(s, Stop(0)), Counter(s), s.distanceDropped || s.trips[0].tripDistance == s.ongoingDistance,
                     s.tbfDropped || s.trips[0].tripTBFInterval == s.ongoingTBFInterval);
  }

  lemma OneTripIsLeast(trips: map<nat, Trip>, id: nat)
    requires id in trips && trips == map[id := trips[id]] && Remaining(trips[id]) != 0 && TBF(trips[id]) != 0
    ensures AreLeast(trips, Remaining(trips[id]), TBF(trips[id]))
  {
    LeastIsFound(trips, Remaining, Remaining(trips[id]));
    LeastIsFound(trips, TBF, TBF(trips[id]));
  }

  lemma LeavesWholeBatch(s: Batching, next: Batching, d: nat, distanceGone: bool, tbfGone: bool)
    requires s.ongoingDistance == 100 && s.ongoingTBFInterval == 1 && next.odometer == s.odometer
    requires d == 50 && !distanceGone && tbfGone && LeavesBatch(s, next, d, distanceGone, tbfGone, 50, 10)
    ensures BatchLeft(next) == 100
  {
  }

  lemma TwoTrips50(s: Batching)
    requires s == OnReport(OnJoin(OnJoin(IDLE, 0, 1000, 1), 1, 100, 10).(odometer := 50), 50)
    ensures s.trips == map[0 := Trip(0, 50, 0, 1000, 1), 1 := Trip(0, 50, 0, 100, 10)]
    ensures s.trips[0] == Trip(0, 50, 0, 1000, 1) && s.trips[1] == Trip(0, 50, 0, 100, 10)
    ensures s.ongoingDistance == 100 && s.ongoingTBFInterval == 1 && Counter(s) == 50
    ensures !s.distanceDropped && !s.tbfDropped && s.trips.Keys <= s.joinedAt.Keys
  {
    var two := OnJoin(OnJoin(IDLE, 0, 1000, 1), 1, 100, 10).(odometer := 50);
    TwoTripsAt50(two);
    assert !Done(two.trips[0], 50) && !Done(two.trips[1], 50);
  }

  lemma TwoTripsAt50(two: Batching)
    requires two == OnJoin(OnJoin(IDLE, 0, 1000, 1), 1, 100, 10).(odometer := 50)
    ensures two.trips == map[0 := Trip(0, 0, 0, 1000, 1), 1 := Trip(0, 0, 0, 100, 10)]
    ensures two.trips[0] == Trip(0, 0, 0, 1000, 1) && two.trips[1] == Trip(0, 0, 0, 100, 10)
    ensures two.ongoingDistance == 100 && two.ongoingTBFInterval == 1 && Counter(two) == 50
    ensures !two.distanceDropped && !two.tbfDropped && two.trips.Keys <= two.joinedAt.Keys
  {
    var one := OnJoin(IDLE, 0, 1000, 1);
    assert one.trips == map[0 := Trip(0, 0, 0, 1000, 1)] && one.trips[0] == Trip(0, 0, 0, 1000, 1);
    var joined := OnJoin(one, 1, 100, 10);
    assert joined.trips[0] == Trip(0, 0, 0, 1000, 1) && joined.trips[1] == Trip(0, 0, 0, 100, 10);
    assert joined.trips.Keys == {0, 1};
  }

  /** What a stop's restart makes of another trip's own count. */
  lemma RestartedTrip(s: Batching, id: nat, k: nat)
    requires s.trips.Keys <= s.joinedAt.Keys && id in s.trips && k in s.trips && k != id
    ensures Step(s, Stop(id)).odometer == s.odometer
    ensures k in Step(s, Stop(id)).trips && Step(s, Stop(id)).trips[k].tripDistance == s.trips[k].tripDistance
    ensures Step(s, Stop(id)).trips[k].accumulatedDistanceThisTrip in
            {s.trips[k].accumulatedDistanceThisTrip, Counted(s.trips[k], Counter(s))}
  {
  }
}
