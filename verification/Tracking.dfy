/** The time-based tracking multiplexer of gps/gnss/GnssAdapter.cpp: many client sessions share the one
  * interval the modem runs at. The model follows that interval, the modem's running state and the
  * "already at highest interval" flag; the modem accepts every request.
  *
  * The multiplexing loops walk the sessions in key order and take an unset power mode for "not found yet",
  * so the power mode they end with is the lowest of the sessions behind the last one without a mode.
  */
module Tracking {
  import opened Wrappers
  import opened OrderedMaps

  const MIN_TRACKING_INTERVAL: nat := 100
  const GNSS_POWER_MODE_INVALID: nat := 0
  const GNSS_POWER_MODE_M2: nat := 2
  const GNSS_POWER_MODE_M4: nat := 4

  /** LocationSessionKey: a client and a session id. */
  datatype Key = Key(client: nat, id: nat)

  /** The key order of the session map. */
  predicate KeyLess(a: Key, b: Key) {
    a.id < b.id || (a.id == b.id && a.client < b.client)
  }

  datatype Options = Options(size: nat, minInterval: nat, minDistance: nat, powerMode: nat, tbm: nat)

  type Sessions = map<Key, Options>

  /** last is the interval last given to the modem. */
  datatype Adapter = Adapter(
    timeBased: Sessions,
    distanceBased: Sessions,
    nHzNeeded: bool,
    atHighestInterval: bool,
    last: Option<nat>,
    running: bool)

  const IDLE := Adapter(map[], map[], false, false, None, false)

  // ---------------------------------------------------------------- the smallest interval

  ghost predicate IsSmallest(m: Sessions, v: nat) {
    (exists k :: k in m && m[k].minInterval == v) && (forall k :: k in m ==> v <= m[k].minInterval)
  }

  lemma SmallestExists(m: Sessions)
    requires m != map[]
    ensures exists v :: IsSmallest(m, v)
  {
    var k :| k in m;
    var rest := m - {k};
    assert m == rest[k := m[k]];
    if rest == map[] {
      assert IsSmallest(m, m[k].minInterval);
    } else {
      SmallestExists(rest);
      var v :| IsSmallest(rest, v);
      var least := if m[k].minInterval < v then m[k].minInterval else v;
      var k' :| k' in rest && rest[k'].minInterval == v;
      assert k' in m && m[k'].minInterval == v;
      assert IsSmallest(m, least);
    }
  }

  ghost function Smallest(m: Sessions): (v: nat)
    requires m != map[]
    ensures IsSmallest(m, v)
  {
    SmallestExists(m);
    var v :| IsSmallest(m, v);
    v
  }

  // ---------------------------------------------------------------- the power comparison

  function PowerOf(o: Options): nat { o.powerMode }

  /** The session and all later ones have a power mode. */
  ghost predicate HasLastModes(m: Sessions, k: Key) { Counts(KeyLess, PowerOf, m, k) }

  /** p is below the power mode of every session behind the last one without a mode, and there is one. */
  ghost predicate PowerIsBelow(p: nat, m: Sessions) {
    (exists k :: HasLastModes(m, k)) && forall k :: HasLastModes(m, k) ==> p < m[k].powerMode
  }

  /** Comparing with the power mode the loop has found decides exactly that. */
  lemma PowerComparison(p: nat, m: Sessions, found: nat)
    requires IsFound(KeyLess, PowerOf, m, found)
    ensures p < found <==> PowerIsBelow(p, m)
  {
    if found != 0 {
      var k :| Counts(KeyLess, PowerOf, m, k) && PowerOf(m[k]) == found;
      assert HasLastModes(m, k);
      assert forall j :: HasLastModes(m, j) ==> found <= m[j].powerMode;
    } else {
      assert forall j :: !HasLastModes(m, j);
    }
  }

  /** When every session has a power mode, it is below all of them. */
  lemma PowerComparisonAllSet(p: nat, m: Sessions)
    requires forall k :: k in m ==> m[k].powerMode != GNSS_POWER_MODE_INVALID
    ensures PowerIsBelow(p, m) <==> m != map[] && forall k :: k in m ==> p < m[k].powerMode
  {
    assert forall k :: k in m ==> HasLastModes(m, k);
    if m != map[] {
      var k :| k in m;
      assert HasLastModes(m, k);
    }
  }

  // ---------------------------------------------------------------- what each operation does

  /** A start request towards the modem, after checkAndSetSPEToRunforNHz has had its say. */
  function Give(s: Adapter, interval: nat): Adapter {
    if s.nHzNeeded && s.atHighestInterval then s
    else if s.nHzNeeded && interval > MIN_TRACKING_INTERVAL then
      s.(last := Some(MIN_TRACKING_INTERVAL), running := true, atHighestInterval := true)
    else s.(last := Some(interval), running := true)
  }

  function StopFix(s: Adapter): Adapter {
    s.(running := false, atHighestInterval := false)
  }

  /** A new session asks the modem for something: it is the first, the fastest, or lowers the power mode. */
  ghost predicate JoinAsks(s: Adapter, o: Options) {
    s.timeBased == map[] || o.minInterval < Smallest(s.timeBased) || PowerIsBelow(o.powerMode, s.timeBased)
  }

  /** startTimeBasedTrackingMultiplex, before the session is saved. */
  ghost function Join(s: Adapter, o: Options): Adapter {
    if !JoinAsks(s, o) then s
    else if s.timeBased == map[] || o.minInterval < Smallest(s.timeBased) then Give(s, o.minInterval)
    else Give(s, Smallest(s.timeBased))
  }

  /** A changed session asks for something: it is alone, the fastest, or lowers the power mode. */
  ghost predicate ChangeAsks(s: Adapter, key: Key, o: Options)
    requires key in s.timeBased
  {
    var others, prior := s.timeBased - {key}, s.timeBased[key];
    && (prior.minInterval != o.minInterval || prior.powerMode != o.powerMode)
    && (others == map[] || o.minInterval < Smallest(others) || PowerIsBelow(o.powerMode, others))
  }

  /** updateTrackingMultiplex, before the session is saved. */
  ghost function Change(s: Adapter, key: Key, o: Options): Adapter
    requires key in s.timeBased
  {
    var others := s.timeBased - {key};
    if !ChangeAsks(s, key, o) then s
    else if others == map[] || o.minInterval < Smallest(others) then Give(s, o.minInterval)
    else Give(s, Smallest(others))
  }

  /** A session that leaves others behind asks for something: it was the fastest or had the lowest mode. */
  ghost predicate LeaveAsks(s: Adapter, key: Key)
    requires key in s.timeBased
  {
    var others, prior := s.timeBased - {key}, s.timeBased[key];
    others != map[] && (prior.minInterval < Smallest(others) || PowerIsBelow(prior.powerMode, others))
  }

  /** stopTimeBasedTrackingMultiplex, before the session is erased. */
  ghost function LeaveMultiplex(s: Adapter, key: Key): Adapter
    requires key in s.timeBased
  {
    if s.timeBased - {key} == map[] then StopFix(s)
    else if LeaveAsks(s, key) then Give(s, Smallest(s.timeBased - {key}))
    else s
  }

  function Save(s: Adapter, key: Key, o: Options): Adapter {
    if o.minDistance > 0 then s.(distanceBased := s.distanceBased[key := o])
    else s.(timeBased := s.timeBased[key := o])
  }

  function Erase(s: Adapter, key: Key): Adapter {
    if key in s.timeBased then s.(timeBased := s.timeBased - {key})
    else s.(distanceBased := s.distanceBased - {key})
  }

  function Clamp(o: Options): Options {
    if o.minInterval < MIN_TRACKING_INTERVAL then o.(minInterval := MIN_TRACKING_INTERVAL) else o
  }

  ghost function RestartAll(s: Adapter): Adapter {
    var cleared := s.(atHighestInterval := false);
    if s.timeBased == map[] then cleared else Give(cleared, Smallest(s.timeBased))
  }

  /** Options as the message handlers pass them on; a too large tbm lowers mode M4 to M2. */
  function LowerMode(o: Options, tbmThreshold: nat): Options {
    if o.powerMode == GNSS_POWER_MODE_M4 && o.tbm > tbmThreshold then o.(powerMode := GNSS_POWER_MODE_M2) else o
  }

  datatype Event =
    | Start(key: Key, options: Options, hasCallbacks: bool)
    | Update(key: Key, options: Options)
    | Stop(key: Key)
    | RequireNHz(needed: bool)
    | Suspend
    | Restart

  ghost function Step(s: Adapter, e: Event, tbmThreshold: nat): Adapter {
    match e
    case Start(key, o, hasCallbacks) =>
      if !hasCallbacks || o.size == 0 then s
      else if o.minDistance > 0 then Save(s, key, Clamp(o))
      else
        var p := LowerMode(Clamp(o), tbmThreshold);
        Save(Join(s, p), key, p)
    case Update(key, o) =>
      var p := Clamp(LowerMode(o, tbmThreshold));
      if o.size == 0 then s
      else if key in s.timeBased && o.minDistance > 0 then Save(Erase(LeaveMultiplex(s, key), key), key, p)
      else if key in s.distanceBased && o.minDistance == 0 then Save(Join(Erase(s, key), p), key, p)
      else if key in s.timeBased then Save(Change(s, key, p), key, p)
      else if key in s.distanceBased then Save(s, key, p)
      else s
    case Stop(key) =>
      if key in s.timeBased then Erase(LeaveMultiplex(s, key), key)
      else if key in s.distanceBased then Erase(s, key)
      else s
    case RequireNHz(needed) => if needed == s.nHzNeeded then s else RestartAll(s.(nHzNeeded := needed))
    case Suspend => if s.timeBased == map[] then s else StopFix(s)
    case Restart => RestartAll(s)
  }

  ghost function Run(s: Adapter, events: seq<Event>, tbmThreshold: nat): Adapter {
    if events == [] then s else
      Step(Run(s, events[..|events| - 1], tbmThreshold), events[|events| - 1], tbmThreshold)
  }

  // ---------------------------------------------------------------- the adapter

  class GnssAdapter {
    var mTimeBasedTrackingSessions: Sessions
    var mDistanceBasedTrackingSessions: Sessions
    var mNHzNeeded: bool
    var mSPEAlreadyRunningAtHighestInterval: bool
    const mTbmThreshold: nat
    // The modem's side.
    ghost var modemInterval: Option<nat>
    ghost var modemRunning: bool

    ghost function View(): Adapter
      reads this
    {
      Adapter(mTimeBasedTrackingSessions, mDistanceBasedTrackingSessions, mNHzNeeded,
              mSPEAlreadyRunningAtHighestInterval, modemInterval, modemRunning)
    }

    /** Saved sessions carry a structure size: the multiplexing loops use size 0 as "not set". */
    ghost predicate Valid()
      reads this
    {
      forall k :: k in mTimeBasedTrackingSessions ==> mTimeBasedTrackingSessions[k].size != 0
    }

    constructor (tbmThreshold: nat)
      ensures View() == IDLE && Valid() && mTbmThreshold == tbmThreshold
    {
      mTimeBasedTrackingSessions, mDistanceBasedTrackingSessions := map[], map[];
      mNHzNeeded, mSPEAlreadyRunningAtHighestInterval := false, false;
      mTbmThreshold, modemInterval, modemRunning := tbmThreshold, None, false;
    }

    /** True when no request is needed; otherwise the interval to ask for. */
    method CheckAndSetSPEToRunforNHz(minInterval: nat) returns (alreadyHighest: bool, interval: nat)
      modifies this`mSPEAlreadyRunningAtHighestInterval
      ensures alreadyHighest == (mNHzNeeded && old(mSPEAlreadyRunningAtHighestInterval))
      ensures interval == if mNHzNeeded && !alreadyHighest && minInterval > MIN_TRACKING_INTERVAL
                          then MIN_TRACKING_INTERVAL else minInterval
      ensures mSPEAlreadyRunningAtHighestInterval ==
              (old(mSPEAlreadyRunningAtHighestInterval) || (mNHzNeeded && minInterval > MIN_TRACKING_INTERVAL))
    {
      alreadyHighest, interval := false, minInterval;
      if !mNHzNeeded {
      } else if mSPEAlreadyRunningAtHighestInterval {
        alreadyHighest := true;
      } else if minInterval > MIN_TRACKING_INTERVAL {
        interval := MIN_TRACKING_INTERVAL;
        mSPEAlreadyRunningAtHighestInterval := true;
      }
    }

    method StartTimeBasedTracking(minInterval: nat)
      modifies this`mSPEAlreadyRunningAtHighestInterval, this`modemInterval, this`modemRunning
      ensures View() == Give(old(View()), minInterval)
    {
      var alreadyHighest, interval := CheckAndSetSPEToRunforNHz(minInterval);
      if !alreadyHighest {
        modemInterval, modemRunning := Some(interval), true;
      }
    }

    method StopTracking()
      modifies this`mSPEAlreadyRunningAtHighestInterval, this`modemRunning
      ensures View() == StopFix(old(View()))
    {
      modemRunning := false;
      mSPEAlreadyRunningAtHighestInterval := false;
    }

    /** The loop of the three multiplexing functions, in key order: the options with the smallest interval
      * (size 0 if there is no session) and the power mode found.
      */
    method FindSmallest(sessions: Sessions) returns (multiplexed: Options, powerMode: nat)
      requires forall k :: k in sessions ==> sessions[k].size != 0
      ensures sessions == map[] ==>
                multiplexed.size == 0 && multiplexed.minInterval == 0 && powerMode == GNSS_POWER_MODE_INVALID
      ensures sessions != map[] ==> multiplexed.size != 0 && IsSmallest(sessions, multiplexed.minInterval)
      ensures forall p: nat :: p < powerMode <==> PowerIsBelow(p, sessions)
    {
      multiplexed, powerMode := Options(0, 0, 0, 0, 0), GNSS_POWER_MODE_INVALID;
      var todo := sessions.Keys;
      ghost var seen: Sessions := map[];
      NothingMultiplexed(multiplexed);
      while todo != {}
        invariant Walked(KeyLess, sessions, seen, todo)
        invariant IsMultiplexed(seen, multiplexed, powerMode)
        decreases todo
      {
        var key := FirstKey(todo);
        var it := sessions[key];
        MultiplexedNext(sessions, seen, todo, key, multiplexed, powerMode);
        if multiplexed.size == 0 || it.minInterval < multiplexed.minInterval {
          multiplexed := it;
        }
        if powerMode == GNSS_POWER_MODE_INVALID || it.powerMode < powerMode {
          powerMode := it.powerMode;
        }
        todo, seen := todo - {key}, seen[key := it];
      }
      assert seen == sessions;
      MultiplexedMeans(sessions, multiplexed, powerMode);
    }

    method FirstKey(keys: set<Key>) returns (key: Key)
      requires keys != {}
      ensures IsFirst(KeyLess, keys, key)
    {
      FirstExists(KeyLess, keys);
      key :| key in keys && forall j :: j in keys && j != key ==> KeyLess(key, j);
    }

    method StartTimeBasedTrackingMultiplex(o: Options) returns (noWait: bool)
      requires Valid()
      modifies this`mSPEAlreadyRunningAtHighestInterval, this`modemInterval, this`modemRunning
      ensures View() == Join(old(View()), o)
      ensures noWait <==> !JoinAsks(old(View()), o)
    {
      noWait := true;
      if |mTimeBasedTrackingSessions| == 0 {
        StartTimeBasedTracking(o.minInterval);
        noWait := false;
      } else {
        var multiplexed, powerMode := FindSmallest(mTimeBasedTrackingSessions);
        SmallestUnique(mTimeBasedTrackingSessions, multiplexed.minInterval);
        var updateOptions, interval := false, multiplexed.minInterval;
        if o.minInterval < multiplexed.minInterval {
          interval := o.minInterval;
          updateOptions := true;
        }
        if o.powerMode < powerMode {
          updateOptions := true;
        }
        if updateOptions {
          StartTimeBasedTracking(interval);
          noWait := false;
        }
      }
    }

    method UpdateTrackingMultiplex(key: Key, o: Options) returns (noWait: bool)
      requires Valid() && key in mTimeBasedTrackingSessions
      modifies this`mSPEAlreadyRunningAtHighestInterval, this`modemInterval, this`modemRunning
      ensures View() == Change(old(View()), key, o)
      ensures noWait <==> !ChangeAsks(old(View()), key, o)
    {
      noWait := true;
      var prior := mTimeBasedTrackingSessions[key];
      if prior.minInterval != o.minInterval || prior.powerMode != o.powerMode {
        var others := mTimeBasedTrackingSessions - {key};
        var multiplexed, powerMode := FindSmallest(others);
        if others != map[] { SmallestUnique(others, multiplexed.minInterval); }
        var updateOptions, interval := false, multiplexed.minInterval;
        if o.minInterval < multiplexed.minInterval {
          interval := o.minInterval;
          updateOptions := true;
        }
        if o.powerMode < powerMode {
          updateOptions := true;
        }
        OneSession(mTimeBasedTrackingSessions, key);
        if |mTimeBasedTrackingSessions| == 1 {
          interval := o.minInterval;
          updateOptions := true;
        }
        if updateOptions {
          StartTimeBasedTracking(interval);
          noWait := false;
        }
      }
    }

    method StopTimeBasedTrackingMultiplex(key: Key) returns (noWait: bool)
      requires Valid() && key in mTimeBasedTrackingSessions
      modifies this`mSPEAlreadyRunningAtHighestInterval, this`modemInterval, this`modemRunning
      ensures View() == LeaveMultiplex(old(View()), key)
      ensures noWait <==> mTimeBasedTrackingSessions - {key} != map[] && !LeaveAsks(old(View()), key)
    {
      noWait := true;
      OneSession(mTimeBasedTrackingSessions, key);
      if |mTimeBasedTrackingSessions| == 1 {
        StopTracking();
        noWait := false;
      } else {
        var others := mTimeBasedTrackingSessions - {key};
        var multiplexed, powerMode := FindSmallest(others);
        SmallestUnique(others, multiplexed.minInterval);
        if mTimeBasedTrackingSessions[key].minInterval < multiplexed.minInterval
           || mTimeBasedTrackingSessions[key].powerMode < powerMode {
          StartTimeBasedTracking(multiplexed.minInterval);
          noWait := false;
        }
      }
    }

    method SaveTrackingSession(key: Key, o: Options)
      requires Valid() && o.size != 0
      modifies this`mTimeBasedTrackingSessions, this`mDistanceBasedTrackingSessions
      ensures Valid() && View() == Save(old(View()), key, o)
    {
      if o.minDistance > 0 {
        mDistanceBasedTrackingSessions := mDistanceBasedTrackingSessions[key := o];
      } else {
        mTimeBasedTrackingSessions := mTimeBasedTrackingSessions[key := o];
      }
    }

    method EraseTrackingSession(key: Key)
      requires Valid()
      modifies this`mTimeBasedTrackingSessions, this`mDistanceBasedTrackingSessions
      ensures Valid() && View() == Erase(old(View()), key)
    {
      if key in mTimeBasedTrackingSessions {
        mTimeBasedTrackingSessions := mTimeBasedTrackingSessions - {key};
      } else {
        mDistanceBasedTrackingSessions := mDistanceBasedTrackingSessions - {key};
      }
    }

    method CheckAndRestartTimeBasedSession()
      requires Valid()
      modifies this`mSPEAlreadyRunningAtHighestInterval, this`modemInterval, this`modemRunning
      ensures View() == if mTimeBasedTrackingSessions == map[] then old(View())
                        else Give(old(View()), Smallest(mTimeBasedTrackingSessions))
    {
      if mTimeBasedTrackingSessions != map[] {
        var smallest, _ := FindSmallest(mTimeBasedTrackingSessions);
        SmallestUnique(mTimeBasedTrackingSessions, smallest.minInterval);
        StartTimeBasedTracking(smallest.minInterval);
      }
    }

    method CheckAndRestartSPESession()
      requires Valid()
      modifies this`mSPEAlreadyRunningAtHighestInterval, this`modemInterval, this`modemRunning
      ensures View() == RestartAll(old(View()))
    {
      mSPEAlreadyRunningAtHighestInterval := false;
      CheckAndRestartTimeBasedSession();
    }

    method RestartSessions()
      requires Valid()
      modifies this`mSPEAlreadyRunningAtHighestInterval, this`modemInterval, this`modemRunning
      ensures View() == Step(old(View()), Restart, mTbmThreshold)
    {
      mSPEAlreadyRunningAtHighestInterval := false;
      CheckAndRestartSPESession();
    }

    method SuspendSessions()
      modifies this`mSPEAlreadyRunningAtHighestInterval, this`modemRunning
      ensures View() == Step(old(View()), Suspend, mTbmThreshold)
    {
      if mTimeBasedTrackingSessions != map[] {
        modemRunning := false;
        mSPEAlreadyRunningAtHighestInterval := false;
      }
    }

    method UpdateNHzRequirement(nHzNeeded: bool)
      requires Valid()
      modifies this
      ensures Valid() && View() == Step(old(View()), RequireNHz(nHzNeeded), mTbmThreshold)
    {
      if mNHzNeeded != nHzNeeded {
        mNHzNeeded := nHzNeeded;
        CheckAndRestartSPESession();
      }
    }

    /** The start message. */
    method StartTracking(key: Key, options: Options, hasCallbacks: bool)
      requires Valid()
      modifies this
      ensures Valid() && View() == Step(old(View()), Start(key, options, hasCallbacks), mTbmThreshold)
    {
      if hasCallbacks && options.size != 0 {
        var o := options;
        if o.minInterval < MIN_TRACKING_INTERVAL {
          o := o.(minInterval := MIN_TRACKING_INTERVAL);
        }
        if o.minDistance > 0 {
          SaveTrackingSession(key, o);
        } else {
          if o.powerMode == GNSS_POWER_MODE_M4 && o.tbm > mTbmThreshold {
            o := o.(powerMode := GNSS_POWER_MODE_M2);
          }
          var noWait := StartTimeBasedTrackingMultiplex(o);
          SaveTrackingSession(key, o);
        }
      }
    }

    /** The update message. */
    method UpdateTracking(key: Key, options: Options)
      requires Valid()
      modifies this
      ensures Valid() && View() == Step(old(View()), Update(key, options), mTbmThreshold)
    {
      var isTimeBased := key in mTimeBasedTrackingSessions;
      var isDistanceBased := key in mDistanceBasedTrackingSessions;
      if (isTimeBased || isDistanceBased) && options.size != 0 {
        var o, noWait := options, true;
        if o.powerMode == GNSS_POWER_MODE_M4 && o.tbm > mTbmThreshold {
          o := o.(powerMode := GNSS_POWER_MODE_M2);
        }
        if o.minInterval < MIN_TRACKING_INTERVAL {
          o := o.(minInterval := MIN_TRACKING_INTERVAL);
        }
        if isTimeBased && o.minDistance > 0 {
          noWait := StopTimeBasedTrackingMultiplex(key);
          EraseTrackingSession(key);
          SaveTrackingSession(key, o);
        } else if isDistanceBased && o.minDistance == 0 {
          EraseTrackingSession(key);
          noWait := StartTimeBasedTrackingMultiplex(o);
          SaveTrackingSession(key, o);
        } else if isTimeBased {
          noWait := UpdateTrackingMultiplex(key, o);
          SaveTrackingSession(key, o);
        } else {
          SaveTrackingSession(key, o);
        }
      }
    }

    /** The stop message. */
    method StopTrackingSession(key: Key)
      requires Valid()
      modifies this
      ensures Valid() && View() == Step(old(View()), Stop(key), mTbmThreshold)
    {
      if key in mTimeBasedTrackingSessions {
        var noWait := StopTimeBasedTrackingMultiplex(key);
        EraseTrackingSession(key);
      } else if key in mDistanceBasedTrackingSessions {
        EraseTrackingSession(key);
      }
    }
  }

  lemma SmallestUnique(m: Sessions, v: nat)
    requires m != map[] && IsSmallest(m, v)
    ensures v == Smallest(m)
  {
    var k :| k in m && m[k].minInterval == v;
    var k' :| k' in m && m[k'].minInterval == Smallest(m);
  }

  lemma OneSession(m: Sessions, key: Key)
    requires key in m
    ensures |m| == 1 <==> m - {key} == map[]
  {
    assert m.Keys == (m - {key}).Keys + {key};
    assert |m| == |m - {key}| + 1 by {
      assert |m.Keys| == |(m - {key}).Keys| + 1;
    }
  }

  lemma SmallestNext(seen: Sessions, key: Key, o: Options, v: nat)
    requires key !in seen && (seen == map[] || IsSmallest(seen, v))
    ensures IsSmallest(seen[key := o], if seen == map[] || o.minInterval < v then o.minInterval else v)
  {
    var m := seen[key := o];
    assert m[key] == o;
    if seen != map[] {
      var k :| k in seen && seen[k].minInterval == v;
      assert m[k] == seen[k];
    }
  }

  /** What the multiplexing loop holds after some sessions. */
  ghost predicate IsMultiplexed(seen: Sessions, multiplexed: Options, powerMode: nat) {
    && (seen == map[] ==> multiplexed.size == 0 && multiplexed.minInterval == 0)
    && (seen != map[] ==> multiplexed.size != 0 && IsSmallest(seen, multiplexed.minInterval))
    && IsFound(KeyLess, PowerOf, seen, powerMode)
  }

  lemma NothingMultiplexed(multiplexed: Options)
    requires multiplexed.size == 0 && multiplexed.minInterval == 0
    ensures IsMultiplexed(map[], multiplexed, GNSS_POWER_MODE_INVALID)
  {
  }

  lemma MultiplexedNext(m: Sessions, seen: Sessions, todo: set<Key>, key: Key, multiplexed: Options, powerMode: nat)
    requires Walked(KeyLess, m, seen, todo) && IsFirst(KeyLess, todo, key) && m[key].size != 0
    requires IsMultiplexed(seen, multiplexed, powerMode)
    ensures Walked(KeyLess, m, seen[key := m[key]], todo - {key})
    ensures IsMultiplexed(seen[key := m[key]],
                          if multiplexed.size == 0 || m[key].minInterval < multiplexed.minInterval then m[key]
                          else multiplexed,
                          Tighter(powerMode, m[key].powerMode))
  {
    WalkNext(KeyLess, m, seen, todo, key);
    SmallestNext(seen, key, m[key], multiplexed.minInterval);
    IsFoundNext(KeyLess, PowerOf, seen, key, m[key], powerMode);
  }

  lemma MultiplexedMeans(m: Sessions, multiplexed: Options, powerMode: nat)
    requires IsMultiplexed(m, multiplexed, powerMode)
    ensures forall p: nat :: p < powerMode <==> PowerIsBelow(p, m)
    ensures m != map[] ==> multiplexed.minInterval == Smallest(m)
  {
    forall p: nat ensures p < powerMode <==> PowerIsBelow(p, m) { PowerComparison(p, m, powerMode); }
    if m != map[] { SmallestUnique(m, multiplexed.minInterval); }
  }

  // ---------------------------------------------------------------- the interval is always fast enough

  ghost predicate Inv(s: Adapter) {
    IsServed(s) && (s.running ==> s.timeBased != map[])
  }

  /** Every session gets fixes as often as it asks for them, and the flag is honest. */
  ghost predicate IsServed(s: Adapter) {
    && (s.timeBased != map[] ==> s.last.Some?)
    && (forall k :: k in s.timeBased ==> s.last.Some? && s.last.value <= s.timeBased[k].minInterval)
    && (forall k :: k in s.timeBased ==> MIN_TRACKING_INTERVAL <= s.timeBased[k].minInterval)
    && (s.atHighestInterval ==> s.nHzNeeded && s.last == Some(MIN_TRACKING_INTERVAL) && s.running)
  }

  /** Giving the modem an interval no session is slower than serves them all. */
  lemma GiveServes(s: Adapter, interval: nat, sessions: Sessions)
    requires IsServed(s) && sessions != map[]
    requires forall k :: k in sessions ==>
               interval <= sessions[k].minInterval && MIN_TRACKING_INTERVAL <= sessions[k].minInterval
    ensures Inv(Give(s, interval).(timeBased := sessions))
  {
  }

  lemma JoinKeepsInv(s: Adapter, key: Key, o: Options)
    requires IsServed(s) && o.minInterval >= MIN_TRACKING_INTERVAL && o.minDistance == 0
    ensures Inv(Save(Join(s, o), key, o))
  {
    var sessions := s.timeBased[key := o];
    assert key in sessions;
    if s.timeBased == map[] || o.minInterval < Smallest(s.timeBased) {
      GiveServes(s, o.minInterval, sessions);
    } else {
      GiveServes(s, Smallest(s.timeBased), sessions);
    }
  }

  /** Serving the new options and, if there are any, the smallest of the others serves all sessions. */
  lemma ServesChanged(m: Sessions, changed: Sessions, key: Key, o: Options, interval: nat)
    requires key in m && changed == m[key := o] && interval <= o.minInterval
    requires m - {key} == map[] || interval <= Smallest(m - {key})
    ensures changed != map[] && forall k :: k in changed ==> interval <= changed[k].minInterval
  {
    assert key in changed;
    forall k | k in changed && k != key ensures interval <= changed[k].minInterval {
      assert k in m - {key};
    }
  }

  lemma ChangeKeepsInv(s: Adapter, key: Key, o: Options)
    requires Inv(s) && key in s.timeBased && o.minInterval >= MIN_TRACKING_INTERVAL && o.minDistance == 0
    ensures Inv(Save(Change(s, key, o), key, o))
  {
    var sessions, others := s.timeBased[key := o], s.timeBased - {key};
    var interval := if others == map[] || o.minInterval < Smallest(others) then o.minInterval else Smallest(others);
    ServesChanged(s.timeBased, sessions, key, o, interval);
    GiveServes(s, interval, sessions);
  }

  lemma LeaveKeepsInv(s: Adapter, key: Key)
    requires Inv(s) && key in s.timeBased
    ensures Inv(Erase(LeaveMultiplex(s, key), key))
  {
    var others := s.timeBased - {key};
    if others != map[] {
      GiveServes(s, Smallest(others), others);
    }
  }

  lemma RestartKeepsInv(s: Adapter, nHzNeeded: bool)
    requires Inv(s)
    ensures Inv(RestartAll(s.(nHzNeeded := nHzNeeded)))
  {
    if s.timeBased != map[] {
      GiveServes(s.(nHzNeeded := nHzNeeded, atHighestInterval := false), Smallest(s.timeBased), s.timeBased);
    }
  }

  lemma StepKeepsInv(s: Adapter, e: Event, tbmThreshold: nat)
    requires Inv(s)
    ensures Inv(Step(s, e, tbmThreshold))
  {
    match e
    case Start(key, o, _) =>
      if o.minDistance == 0 { JoinKeepsInv(s, key, LowerMode(Clamp(o), tbmThreshold)); }
    case Update(key, o) =>
      var p := Clamp(LowerMode(o, tbmThreshold));
      if key in s.timeBased && o.minDistance > 0 {
        LeaveKeepsInv(s, key);
      } else if key in s.distanceBased && o.minDistance == 0 {
        JoinKeepsInv(Erase(s, key), key, p);
      } else if key in s.timeBased {
        ChangeKeepsInv(s, key, p);
      }
    case Stop(key) =>
      if key in s.timeBased { LeaveKeepsInv(s, key); }
    case RequireNHz(needed) => RestartKeepsInv(s, needed);
    case Suspend =>
    case Restart => RestartKeepsInv(s, s.nHzNeeded);
  }

  /** In every reachable state the modem's interval is at most every session's, and the flag is honest. */
  lemma {:induction false} RunKeepsInv(events: seq<Event>, tbmThreshold: nat)
    ensures Inv(Run(IDLE, events, tbmThreshold))
  {
    if events != [] {
      var init := events[..|events| - 1];
      RunKeepsInv(init, tbmThreshold);
      StepKeepsInv(Run(IDLE, init, tbmThreshold), events[|events| - 1], tbmThreshold);
    }
  }

  // ---------------------------------------------------------------- when the modem runs

  /** The event's handler sends the modem a request to start. */
  ghost predicate Asks(s: Adapter, e: Event, tbmThreshold: nat) {
    match e
    case Start(key, o, hasCallbacks) =>
      hasCallbacks && o.size != 0 && o.minDistance == 0 && JoinAsks(s, LowerMode(Clamp(o), tbmThreshold))
    case Update(key, o) =>
      var p := Clamp(LowerMode(o, tbmThreshold));
      o.size != 0
      && if key in s.timeBased && o.minDistance > 0 then LeaveAsks(s, key)
         else if key in s.distanceBased && o.minDistance == 0 then JoinAsks(Erase(s, key), p)
         else key in s.timeBased && ChangeAsks(s, key, p)
    case Stop(key) => key in s.timeBased && LeaveAsks(s, key)
    case RequireNHz(needed) => needed != s.nHzNeeded && s.timeBased != map[]
    case Suspend => false
    case Restart => s.timeBased != map[]
  }

  lemma JoinRuns(s: Adapter, key: Key, o: Options)
    requires IsServed(s) && o.minDistance == 0
    ensures var next := Save(Join(s, o), key, o);
            next.timeBased != map[] && (next.running <==> JoinAsks(s, o) || s.running)
  {
    assert key in Save(Join(s, o), key, o).timeBased;
  }

  lemma ChangeRuns(s: Adapter, key: Key, o: Options)
    requires Inv(s) && key in s.timeBased && o.minDistance == 0
    ensures var next := Save(Change(s, key, o), key, o);
            next.timeBased != map[] && (next.running <==> ChangeAsks(s, key, o) || s.running)
  {
    assert key in Save(Change(s, key, o), key, o).timeBased;
  }

  lemma LeaveRuns(s: Adapter, key: Key)
    requires Inv(s) && key in s.timeBased
    ensures var next := Erase(LeaveMultiplex(s, key), key);
            next.running <==> next.timeBased != map[] && (LeaveAsks(s, key) || s.running)
  {
  }

  lemma StepRuns(s: Adapter, e: Event, tbmThreshold: nat)
    requires Inv(s)
    ensures var next := Step(s, e, tbmThreshold);
            next.running <==> next.timeBased != map[] && (Asks(s, e, tbmThreshold) || (!e.Suspend? && s.running))
  {
    match e
    case Start(key, o, _) =>
      if o.minDistance == 0 { JoinRuns(s, key, LowerMode(Clamp(o), tbmThreshold)); }
    case Update(key, o) =>
      var p := Clamp(LowerMode(o, tbmThreshold));
      if key in s.timeBased && o.minDistance > 0 {
        LeaveRuns(s, key);
      } else if key in s.distanceBased && o.minDistance == 0 {
        JoinRuns(Erase(s, key), key, p);
      } else if key in s.timeBased {
        ChangeRuns(s, key, p);
      }
    case Stop(key) =>
      if key in s.timeBased { LeaveRuns(s, key); }
    case RequireNHz(needed) => RestartRuns(s.(nHzNeeded := needed));
    case Suspend =>
    case Restart => RestartRuns(s);
  }

  lemma RestartRuns(s: Adapter)
    requires s.running ==> s.timeBased != map[]
    ensures var next := RestartAll(s);
            next.timeBased == s.timeBased && (next.running <==> s.timeBased != map[])
  {
  }

  /** The modem has been asked to start since the last suspension. */
  ghost predicate AskedSinceSuspend(events: seq<Event>, tbmThreshold: nat) {
    events != []
    && var init, last := events[..|events| - 1], events[|events| - 1];
       Asks(Run(IDLE, init, tbmThreshold), last, tbmThreshold)
       || (!last.Suspend? && AskedSinceSuspend(init, tbmThreshold))
  }

  /** In every reachable state the modem runs if and only if there is a session and some handler has asked it
    * to start since the last suspension.
    */
  lemma {:induction false} ModemRunsIff(events: seq<Event>, tbmThreshold: nat)
    ensures var s := Run(IDLE, events, tbmThreshold);
            s.running <==> s.timeBased != map[] && AskedSinceSuspend(events, tbmThreshold)
  {
    if events != [] {
      var init := events[..|events| - 1];
      ModemRunsIff(init, tbmThreshold);
      RunKeepsInv(init, tbmThreshold);
      StepRuns(Run(IDLE, init, tbmThreshold), events[|events| - 1], tbmThreshold);
      if Run(IDLE, init, tbmThreshold).timeBased == map[] {
        FirstSessionAsks(Run(IDLE, init, tbmThreshold), events[|events| - 1], tbmThreshold);
      }
    }
  }

  /** Sessions do not come about without a request. */
  lemma FirstSessionAsks(s: Adapter, e: Event, tbmThreshold: nat)
    requires s.timeBased == map[]
    ensures Step(s, e, tbmThreshold).timeBased != map[] ==> Asks(s, e, tbmThreshold)
  {
  }

  /** A session that starts after a suspension, no faster than the suspended one, finds the modem stopped
    * and leaves it so.
    */
  lemma SuspendedModemStaysStopped(o: Options)
    requires o == Options(1, 1000, 0, 1, 0)
    ensures var s0 := Step(IDLE, Start(Key(0, 0), o, true), 0);
            var s1 := Step(Step(s0, Suspend, 0), Start(Key(0, 1), o, true), 0);
            s0.running && |s1.timeBased| == 2 && !s1.running
  {
    var a, b := Key(0, 0), Key(0, 1);
    var s0 := Step(IDLE, Start(a, o, true), 0);
    assert s0.timeBased == map[a := o];
    SmallestOfOne(s0.timeBased, a, o);
    PowerComparisonAllSet(o.powerMode, s0.timeBased);
    assert !PowerIsBelow(o.powerMode, s0.timeBased) by { assert a in s0.timeBased; }
    var s1 := Step(Step(s0, Suspend, 0), Start(b, o, true), 0);
    assert s1.timeBased == map[a := o, b := o];
  }

  // ---------------------------------------------------------------- when it is no faster than needed

  /** The modem runs at the smallest requested interval, or at the fixed one that NHz engines need. */
  ghost predicate Exact(s: Adapter) {
    s.timeBased != map[] ==>
      s.last == Some(if s.nHzNeeded then MIN_TRACKING_INTERVAL else Smallest(s.timeBased))
  }

  /** The update raises the one session that alone held the smallest interval to at least the smallest of
    * the others, and its power mode is not below theirs: the multiplexer then asks the modem for nothing.
    */
  ghost predicate LeavesModemFast(s: Adapter, key: Key, o: Options)
    requires key in s.timeBased
  {
    var others := s.timeBased - {key};
    && !s.nHzNeeded && others != map[] && !PowerIsBelow(o.powerMode, others)
    && s.timeBased[key].minInterval < Smallest(others) <= o.minInterval
  }

  /** The start reuses the id of the one session that alone held the smallest interval, for a slower one. */
  ghost predicate ReusesFastSession(s: Adapter, key: Key, o: Options) {
    var others := s.timeBased - {key};
    && !s.nHzNeeded && key in s.timeBased && s.timeBased[key].minInterval < o.minInterval
    && (others == map[] || s.timeBased[key].minInterval < Smallest(others))
  }

  lemma SmallestWith(others: Sessions, key: Key, o: Options)
    requires key !in others && others != map[]
    ensures Smallest(others[key := o]) == if o.minInterval < Smallest(others) then o.minInterval else Smallest(others)
  {
    SmallestNext(others, key, o, Smallest(others));
    SmallestUnique(others[key := o], if o.minInterval < Smallest(others) then o.minInterval else Smallest(others));
  }

  lemma SmallestOfOne(m: Sessions, key: Key, o: Options)
    requires m == map[key := o]
    ensures key in m && Smallest(m) == o.minInterval
  {
    assert m[key] == o;
    SmallestUnique(m, o.minInterval);
  }

  /** The smallest interval, split at one session. */
  lemma SplitSmallest(m: Sessions, key: Key, o: Options)
    requires key in m && m[key] == o
    ensures var others := m - {key};
            Smallest(m) ==
            if others == map[] || o.minInterval < Smallest(others) then o.minInterval else Smallest(others)
  {
    var others := m - {key};
    assert m == others[key := o];
    if others == map[] {
      assert m == map[key := o];
      SmallestOfOne(m, key, o);
    } else {
      SmallestWith(others, key, o);
    }
  }

  /** Giving the modem the smallest interval is exact. */
  lemma GiveIsExact(s: Adapter, sessions: Sessions)
    requires IsServed(s) && sessions != map[]
    requires forall k :: k in sessions ==> MIN_TRACKING_INTERVAL <= sessions[k].minInterval
    ensures Exact(Give(s, Smallest(sessions)).(timeBased := sessions))
  {
    var k :| k in sessions && sessions[k].minInterval == Smallest(sessions);
  }

  /** A start under a new session id keeps the interval exact. */
  lemma JoinKeepsExact(s: Adapter, key: Key, o: Options)
    requires Inv(s) && Exact(s) && key !in s.timeBased
    requires o.minInterval >= MIN_TRACKING_INTERVAL && o.minDistance == 0
    ensures Exact(Save(Join(s, o), key, o))
  {
    var sessions := s.timeBased[key := o];
    assert sessions - {key} == s.timeBased;
    SplitSmallest(sessions, key, o);
    GiveIsExact(s, sessions);
  }

  /** A start keeps the interval exact if and only if it does not reuse the fastest session's id. */
  lemma JoinKeepsExactIff(s: Adapter, key: Key, o: Options)
    requires Inv(s) && Exact(s) && o.minInterval >= MIN_TRACKING_INTERVAL && o.minDistance == 0
    ensures Exact(Save(Join(s, o), key, o)) <==> !ReusesFastSession(s, key, o)
  {
    if key in s.timeBased {
      var sessions := s.timeBased[key := o];
      assert sessions - {key} == s.timeBased - {key};
      SplitSmallest(sessions, key, o);
      SplitSmallest(s.timeBased, key, s.timeBased[key]);
      GiveIsExact(s, sessions);
    } else {
      JoinKeepsExact(s, key, o);
    }
  }

  lemma LeaveKeepsExact(s: Adapter, key: Key)
    requires Inv(s) && Exact(s) && key in s.timeBased
    ensures Exact(Erase(LeaveMultiplex(s, key), key))
  {
    var others := s.timeBased - {key};
    SplitSmallest(s.timeBased, key, s.timeBased[key]);
    if others != map[] {
      GiveIsExact(s, others);
    }
  }

  /** An update of a time-based session stays exact if and only if it is not of that one kind. */
  lemma ChangeKeepsExactIff(s: Adapter, key: Key, o: Options)
    requires Inv(s) && Exact(s) && key in s.timeBased
    requires o.minInterval >= MIN_TRACKING_INTERVAL && o.minDistance == 0
    ensures Exact(Save(Change(s, key, o), key, o)) <==> !LeavesModemFast(s, key, o)
  {
    var sessions, others := s.timeBased[key := o], s.timeBased - {key};
    assert sessions - {key} == others;
    SplitSmallest(s.timeBased, key, s.timeBased[key]);
    SplitSmallest(sessions, key, o);
    GiveIsExact(s, sessions);
  }

  /** An update that makes a distance-based session time-based is exact, unless the session also is a time-based
    * one and the update is of that one kind.
    */
  lemma SwitchKeepsExactIff(s: Adapter, key: Key, o: Options)
    requires Inv(s) && Exact(s) && o.minInterval >= MIN_TRACKING_INTERVAL && o.minDistance == 0
    ensures Exact(Save(Join(Erase(s, key), o), key, o)) <==> !(key in s.timeBased && LeavesModemFast(s, key, o))
  {
    if key in s.timeBased {
      var sessions, others := s.timeBased[key := o], s.timeBased - {key};
      assert others[key := o] == sessions && sessions - {key} == others;
      SplitSmallest(s.timeBased, key, s.timeBased[key]);
      SplitSmallest(sessions, key, o);
      GiveIsExact(Erase(s, key), sessions);
    } else {
      JoinKeepsExactIff(Erase(s, key), key, o);
    }
  }

  /** When the others have power modes, in intervals and modes alone: the update raises the fastest session
    * past the others, and some other's mode is not above its own.
    */
  lemma ChangeKeepsExactIffAllSet(s: Adapter, key: Key, o: Options)
    requires Inv(s) && Exact(s) && key in s.timeBased
    requires o.minInterval >= MIN_TRACKING_INTERVAL && o.minDistance == 0
    requires forall k :: k in s.timeBased && k != key ==> s.timeBased[k].powerMode != GNSS_POWER_MODE_INVALID
    ensures var others := s.timeBased - {key};
            Exact(Save(Change(s, key, o), key, o)) <==>
            !(&& !s.nHzNeeded && others != map[]
              && s.timeBased[key].minInterval < Smallest(others) <= o.minInterval
              && exists k :: k in others && others[k].powerMode <= o.powerMode)
  {
    ChangeKeepsExactIff(s, key, o);
    PowerComparisonAllSet(o.powerMode, s.timeBased - {key});
  }

  lemma RestartIsExact(s: Adapter, nHzNeeded: bool)
    requires Inv(s)
    ensures Exact(RestartAll(s.(nHzNeeded := nHzNeeded)))
  {
    if s.timeBased != map[] {
      GiveIsExact(s.(nHzNeeded := nHzNeeded, atHighestInterval := false), s.timeBased);
    }
  }

  /** The two events after which the modem is faster than needed. */
  ghost predicate Loosens(s: Adapter, e: Event, tbmThreshold: nat) {
    match e
    case Start(key, o, hasCallbacks) =>
      hasCallbacks && o.size != 0 && o.minDistance == 0
      && ReusesFastSession(s, key, LowerMode(Clamp(o), tbmThreshold))
    case Update(key, o) =>
      key in s.timeBased && o.minDistance == 0 && o.size != 0
      && LeavesModemFast(s, key, Clamp(LowerMode(o, tbmThreshold)))
    case _ => false
  }

  lemma StepKeepsExactIff(s: Adapter, e: Event, tbmThreshold: nat)
    requires Inv(s) && Exact(s)
    ensures Exact(Step(s, e, tbmThreshold)) <==> !Loosens(s, e, tbmThreshold)
  {
    match e
    case Start(key, o, _) =>
      if o.minDistance == 0 { JoinKeepsExactIff(s, key, LowerMode(Clamp(o), tbmThreshold)); }
    case Update(key, o) =>
      var p := Clamp(LowerMode(o, tbmThreshold));
      if key in s.timeBased && o.minDistance > 0 {
        LeaveKeepsExact(s, key);
      } else if key in s.distanceBased && o.minDistance == 0 {
        SwitchKeepsExactIff(s, key, p);
      } else if key in s.timeBased {
        ChangeKeepsExactIff(s, key, p);
      }
    case Stop(key) =>
      if key in s.timeBased { LeaveKeepsExact(s, key); }
    case RequireNHz(needed) => RestartIsExact(s, needed);
    case Suspend =>
    case Restart => RestartIsExact(s, s.nHzNeeded);
  }

  ghost function StateAt(events: seq<Event>, n: nat, tbmThreshold: nat): Adapter
    requires n <= |events|
  {
    Run(IDLE, events[..n], tbmThreshold)
  }

  lemma NextState(events: seq<Event>, n: nat, tbmThreshold: nat)
    requires n < |events|
    ensures StateAt(events, n + 1, tbmThreshold) == Step(StateAt(events, n, tbmThreshold), events[n], tbmThreshold)
    ensures Inv(StateAt(events, n, tbmThreshold))
  {
    assert events[..n + 1][..n] == events[..n];
    RunKeepsInv(events[..n], tbmThreshold);
  }

  /** Over any run, the modem's interval is exactly the one needed at every point if and only if no event
    * loosens it.
    */
  lemma RunKeepsExactIff(events: seq<Event>, tbmThreshold: nat)
    ensures (forall n :: 0 <= n <= |events| ==> Exact(StateAt(events, n, tbmThreshold))) <==>
            (forall n :: 0 <= n < |events| ==> !Loosens(StateAt(events, n, tbmThreshold), events[n], tbmThreshold))
  {
    if forall n :: 0 <= n <= |events| ==> Exact(StateAt(events, n, tbmThreshold)) {
      forall n | 0 <= n < |events| ensures !Loosens(StateAt(events, n, tbmThreshold), events[n], tbmThreshold) {
        NextState(events, n, tbmThreshold);
        assert Exact(StateAt(events, n + 1, tbmThreshold));
        StepKeepsExactIff(StateAt(events, n, tbmThreshold), events[n], tbmThreshold);
      }
    }
    if forall n :: 0 <= n < |events| ==> !Loosens(StateAt(events, n, tbmThreshold), events[n], tbmThreshold) {
      forall n | 0 <= n <= |events| ensures Exact(StateAt(events, n, tbmThreshold)) {
        RunKeepsExact(events, n, tbmThreshold);
      }
    }
  }

  lemma {:induction false} RunKeepsExact(events: seq<Event>, n: nat, tbmThreshold: nat)
    requires n <= |events|
    requires forall i :: 0 <= i < |events| ==> !Loosens(StateAt(events, i, tbmThreshold), events[i], tbmThreshold)
    ensures Exact(StateAt(events, n, tbmThreshold))
  {
    if n > 0 {
      RunKeepsExact(events, n - 1, tbmThreshold);
      NextState(events, n - 1, tbmThreshold);
      StepKeepsExactIff(StateAt(events, n - 1, tbmThreshold), events[n - 1], tbmThreshold);
    }
  }

  /** Two sessions at 1000 and 200 ms; raising the second to 2000 ms leaves the modem at 200 ms although
    * nobody needs less than 1000 ms any more.
    */
  lemma UpdateCanLeaveModemFast(slow: Options, fast: Options, raised: Options)
    requires slow == Options(1, 1000, 0, 1, 0) && fast == slow.(minInterval := 200)
    requires raised == slow.(minInterval := 2000)
    ensures var s0 := Step(IDLE, Start(Key(0, 0), slow, true), 0);
            var s1 := Step(s0, Start(Key(0, 1), fast, true), 0);
            var s2 := Step(s1, Update(Key(0, 1), raised), 0);
            s2.last == Some(200) && s2.timeBased != map[] && Smallest(s2.timeBased) == 1000
  {
    var a, b := Key(0, 0), Key(0, 1);
    var s0 := Step(IDLE, Start(a, slow, true), 0);
    assert s0.timeBased == map[a := slow];
    SmallestOfOne(s0.timeBased, a, slow);
    var s1 := Step(s0, Start(b, fast, true), 0);
    assert s1.timeBased - {b} == map[a := slow];
    SmallestOfOne(s1.timeBased - {b}, a, slow);
    PowerComparisonAllSet(raised.powerMode, s1.timeBased - {b});
    assert a in s1.timeBased - {b};
    var s2 := Step(s1, Update(b, raised), 0);
    assert s2.timeBased - {b} == map[a := slow];
    SplitSmallest(s2.timeBased, b, raised);
  }

  /** A later session's mode 3 hides an earlier one's unset mode: an update of a third session from mode 3 to
    * mode 2 is sent to the modem although 2 is not below every other mode.
    */
  lemma UnsetModeIsForgotten(s: Adapter, unset: Options, set3: Options, prior: Options, o: Options)
    requires unset.powerMode == GNSS_POWER_MODE_INVALID && set3.powerMode == prior.powerMode == 3 && o.powerMode == 2
    requires s.timeBased == map[Key(0, 0) := unset, Key(0, 1) := set3, Key(0, 2) := prior]
    ensures ChangeAsks(s, Key(0, 2), o)
  {
    var others := s.timeBased - {Key(0, 2)};
    assert s.timeBased[Key(0, 2)] == prior;
    assert others[Key(0, 0)] == unset && others[Key(0, 1)] == set3;
    assert HasLastModes(others, Key(0, 1)) && !HasLastModes(others, Key(0, 0));
  }

  // ---------------------------------------------------------------- what the multiplexer asks for, in modes

  /** v is below the interval of every session. */
  ghost predicate IsFastest(v: nat, m: Sessions) {
    forall k :: k in m ==> v < m[k].minInterval
  }

  /** p is below the power mode of every session. */
  ghost predicate IsLowest(p: nat, m: Sessions) {
    forall k :: k in m ==> p < m[k].powerMode
  }

  ghost predicate AllSet(m: Sessions) {
    forall k :: k in m ==> m[k].powerMode != GNSS_POWER_MODE_INVALID
  }

  /** k is the last session without a power mode. */
  ghost predicate IsLastUnset(m: Sessions, k: Key) {
    && k in m && m[k].powerMode == GNSS_POWER_MODE_INVALID
    && forall j :: j in m && KeyLess(k, j) ==> m[j].powerMode != GNSS_POWER_MODE_INVALID
  }

  /** p is below the power mode of every session after k, and there is one. */
  ghost predicate IsLowestBehind(p: nat, m: Sessions, k: Key) {
    (exists j :: j in m && KeyLess(k, j)) && forall j :: j in m && KeyLess(k, j) ==> p < m[j].powerMode
  }

  lemma FastestIsSmallest(v: nat, m: Sessions)
    requires m != map[]
    ensures v < Smallest(m) <==> IsFastest(v, m)
  {
    var k :| k in m && m[k].minInterval == Smallest(m);
  }

  /** Behind the last session without a mode, the comparison is with the sessions after it alone. */
  lemma PowerComparisonBehind(p: nat, m: Sessions, k: Key)
    requires IsLastUnset(m, k)
    ensures PowerIsBelow(p, m) <==> IsLowestBehind(p, m, k)
  {
    forall j ensures HasLastModes(m, j) <==> j in m && KeyLess(k, j) {
      if j in m && !KeyLess(k, j) && j != k { assert KeyLess(j, k); }
    }
  }

  /** A start asks the modem if and only if its session is the first, faster than all, or of lower mode than all;
    * with unset modes, than all sessions behind the last one without a mode.
    */
  lemma JoinAsksIff(s: Adapter, o: Options)
    requires s.timeBased != map[]
    ensures AllSet(s.timeBased) ==>
              (JoinAsks(s, o) <==> IsFastest(o.minInterval, s.timeBased) || IsLowest(o.powerMode, s.timeBased))
    ensures forall k :: IsLastUnset(s.timeBased, k) ==>
              (JoinAsks(s, o) <==> IsFastest(o.minInterval, s.timeBased) || IsLowestBehind(o.powerMode, s.timeBased, k))
  {
    FastestIsSmallest(o.minInterval, s.timeBased);
    AsksInModes(o.powerMode, s.timeBased);
  }

  lemma AsksInModes(p: nat, m: Sessions)
    requires m != map[]
    ensures AllSet(m) ==> (PowerIsBelow(p, m) <==> IsLowest(p, m))
    ensures forall k :: IsLastUnset(m, k) ==> (PowerIsBelow(p, m) <==> IsLowestBehind(p, m, k))
  {
    if AllSet(m) { PowerComparisonAllSet(p, m); }
    forall k | IsLastUnset(m, k) ensures PowerIsBelow(p, m) <==> IsLowestBehind(p, m, k) {
      PowerComparisonBehind(p, m, k);
    }
  }

  /** A stop that leaves other sessions asks the modem if and only if its session was faster than all of them or of
    * lower mode than all of them; with unset modes, than all behind the last one without a mode.
    */
  lemma LeaveAsksIff(s: Adapter, key: Key)
    requires key in s.timeBased && s.timeBased - {key} != map[]
    ensures var others, prior := s.timeBased - {key}, s.timeBased[key];
            AllSet(others) ==>
              (LeaveAsks(s, key) <==> IsFastest(prior.minInterval, others) || IsLowest(prior.powerMode, others))
    ensures var others, prior := s.timeBased - {key}, s.timeBased[key];
            forall k :: IsLastUnset(others, k) ==>
              (LeaveAsks(s, key) <==>
                 IsFastest(prior.minInterval, others) || IsLowestBehind(prior.powerMode, others, k))
  {
    var others, prior := s.timeBased - {key}, s.timeBased[key];
    FastestIsSmallest(prior.minInterval, others);
    AsksInModes(prior.powerMode, others);
  }

  /** An update of a session among others asks the modem if and only if it changes the interval or the mode and its
    * session becomes faster than the others or of lower mode than the others.
    */
  lemma ChangeAsksIff(s: Adapter, key: Key, o: Options)
    requires key in s.timeBased && s.timeBased - {key} != map[]
    ensures var others, prior := s.timeBased - {key}, s.timeBased[key];
            AllSet(others) ==>
              (ChangeAsks(s, key, o) <==>
                 && (prior.minInterval != o.minInterval || prior.powerMode != o.powerMode)
                 && (IsFastest(o.minInterval, others) || IsLowest(o.powerMode, others)))
    ensures var others, prior := s.timeBased - {key}, s.timeBased[key];
            forall k :: IsLastUnset(others, k) ==>
              (ChangeAsks(s, key, o) <==>
                 && (prior.minInterval != o.minInterval || prior.powerMode != o.powerMode)
                 && (IsFastest(o.minInterval, others) || IsLowestBehind(o.powerMode, others, k)))
  {
    var others := s.timeBased - {key};
    FastestIsSmallest(o.minInterval, others);
    AsksInModes(o.powerMode, others);
  }

  /** The first session always asks, the last one to change asks when it changes anything, and the last one to leave
    * stops the modem instead.
    */
  lemma AloneAsks(s: Adapter, key: Key, o: Options)
    ensures s.timeBased == map[] ==> JoinAsks(s, o)
    ensures key in s.timeBased && s.timeBased - {key} == map[] ==>
              (ChangeAsks(s, key, o) <==>
                 s.timeBased[key].minInterval != o.minInterval || s.timeBased[key].powerMode != o.powerMode)
              && !LeaveAsks(s, key) && !LeaveMultiplex(s, key).running
  {
  }

  /** A stop of the one session with the lower mode asks the modem, although the intervals are the same. */
  lemma LowerModeLeaves(s: Adapter, low: Options, high: Options)
    requires low.minInterval == high.minInterval == 1000 && low.powerMode == 1 && high.powerMode == 2
    requires s.timeBased == map[Key(0, 0) := low, Key(0, 1) := high]
    ensures LeaveAsks(s, Key(0, 0)) && !LeaveAsks(s, Key(0, 1))
  {
    var a, b := s.timeBased - {Key(0, 0)}, s.timeBased - {Key(0, 1)};
    assert s.timeBased[Key(0, 0)] == low && s.timeBased[Key(0, 1)] == high;
    assert a == map[Key(0, 1) := high] && a[Key(0, 1)] == high;
    assert b == map[Key(0, 0) := low] && b[Key(0, 0)] == low;
    LeaveAsksIff(s, Key(0, 0));
    LeaveAsksIff(s, Key(0, 1));
  }

  /** When NHz engines need the modem, one request for a slower interval brings it to 100 ms, and no later one is
    * sent until the modem is stopped or the sessions are restarted.
    */
  lemma NHzAsksOnce(s: Adapter, interval: nat, later: nat)
    requires s.nHzNeeded && interval > 100
    ensures var next := Give(s, interval);
            next.atHighestInterval && Give(next, later) == next
    ensures !s.atHighestInterval ==> Give(s, interval).last == Some(100) && Give(s, interval).running
    ensures !StopFix(Give(s, interval)).atHighestInterval
  {
  }

  /** A request for 100 ms or less, or one without NHz engines, is passed on as it is and says nothing about later
    * ones.
    */
  lemma OthersArePassedOn(s: Adapter, interval: nat)
    requires !s.nHzNeeded || (interval <= 100 && !s.atHighestInterval)
    ensures Give(s, interval) == s.(last := Some(interval), running := true)
  {
  }

  // ---------------------------------------------------------------- which sessions there are

  /** The options that a message leaves with a session: at least 100 ms, and mode M2 for M4 when the time between
    * measurements is above the threshold. A start of a distance-based session keeps its mode.
    */
  ghost predicate AreKept(o: Options, kept: Options, tbmThreshold: nat, lowersMode: bool) {
    && kept.minInterval == (if o.minInterval < 100 then 100 else o.minInterval)
    && kept.powerMode == (if lowersMode && o.powerMode == 4 && o.tbm > tbmThreshold then 2 else o.powerMode)
    && kept.minDistance == o.minDistance && kept.tbm == o.tbm && kept.size == o.size
  }

  /** Nothing but the sessions under one key changes. */
  ghost predicate OthersStay(s: Adapter, next: Adapter, key: Key) {
    && next.timeBased - {key} == s.timeBased - {key}
    && next.distanceBased - {key} == s.distanceBased - {key}
    && next.nHzNeeded == s.nHzNeeded
  }

  /** Asking the modem changes no session. */
  lemma AskingKeepsSessions(s: Adapter, key: Key, o: Options)
    ensures SameSessions(s, Join(s, o))
    ensures key in s.timeBased ==> SameSessions(s, Change(s, key, o)) && SameSessions(s, LeaveMultiplex(s, key))
  {
  }

  predicate SameSessions(s: Adapter, next: Adapter) {
    next.timeBased == s.timeBased && next.distanceBased == s.distanceBased && next.nHzNeeded == s.nHzNeeded
  }

  lemma SavedUnder(s: Adapter, key: Key, o: Options)
    ensures var next := Save(s, key, o);
            && OthersStay(s, next, key)
            && (if o.minDistance > 0
                then next == s.(distanceBased := next.distanceBased)
                     && key in next.distanceBased && next.distanceBased[key] == o
                else next == s.(timeBased := next.timeBased) && key in next.timeBased && next.timeBased[key] == o)
  {
  }

  /** A start without callbacks or options is dropped; any other one adds its session to the map of its kind. */
  lemma StartSaves(s: Adapter, key: Key, o: Options, hasCallbacks: bool, tbmThreshold: nat)
    ensures var next := Step(s, Start(key, o, hasCallbacks), tbmThreshold);
            && OthersStay(s, next, key)
            && (!hasCallbacks || o.size == 0 ==> next == s)
            && (hasCallbacks && o.size != 0 && o.minDistance > 0 ==>
                  && next == s.(distanceBased := next.distanceBased)
                  && key in next.distanceBased && AreKept(o, next.distanceBased[key], tbmThreshold, false))
            && (hasCallbacks && o.size != 0 && o.minDistance == 0 ==>
                  && next.distanceBased == s.distanceBased
                  && key in next.timeBased && AreKept(o, next.timeBased[key], tbmThreshold, true))
  {
    var p := LowerMode(Clamp(o), tbmThreshold);
    AskingKeepsSessions(s, key, p);
    SavedUnder(s, key, Clamp(o));
    SavedUnder(Join(s, p), key, p);
  }

  /** An update of an unknown session or without options is dropped. */
  lemma UpdateDropped(s: Adapter, key: Key, o: Options, tbmThreshold: nat)
    requires o.size == 0 || (key !in s.timeBased && key !in s.distanceBased)
    ensures Step(s, Update(key, o), tbmThreshold) == s
  {
  }

  /** An update with a minimum distance leaves its session distance-based only. */
  lemma UpdateToDistance(s: Adapter, key: Key, o: Options, tbmThreshold: nat)
    requires o.size != 0 && o.minDistance > 0 && (key in s.timeBased || key in s.distanceBased)
    ensures var next := Step(s, Update(key, o), tbmThreshold);
            && OthersStay(s, next, key) && key !in next.timeBased
            && key in next.distanceBased && AreKept(o, next.distanceBased[key], tbmThreshold, true)
  {
    var p := Clamp(LowerMode(o, tbmThreshold));
    AskingKeepsSessions(s, key, p);
    if key in s.timeBased {
      SavedUnder(Erase(LeaveMultiplex(s, key), key), key, p);
    } else {
      SavedUnder(s, key, p);
    }
  }

  /** An update without one leaves it time-based, and only that, unless it was both. */
  lemma UpdateToTime(s: Adapter, key: Key, o: Options, tbmThreshold: nat)
    requires o.size != 0 && o.minDistance == 0 && (key in s.timeBased || key in s.distanceBased)
    ensures var next := Step(s, Update(key, o), tbmThreshold);
            && OthersStay(s, next, key)
            && key in next.timeBased && AreKept(o, next.timeBased[key], tbmThreshold, true)
            && (key in next.distanceBased <==> key in s.timeBased && key in s.distanceBased)
  {
    var p := Clamp(LowerMode(o, tbmThreshold));
    if key in s.distanceBased {
      AskingKeepsSessions(Erase(s, key), key, p);
      SavedUnder(Join(Erase(s, key), p), key, p);
    } else {
      AskingKeepsSessions(s, key, p);
      SavedUnder(Change(s, key, p), key, p);
    }
  }

  /** A stop removes its session, the time-based one first, and asks nothing when it was distance-based. */
  lemma StopErases(s: Adapter, key: Key, tbmThreshold: nat)
    ensures var next := Step(s, Stop(key), tbmThreshold);
            && OthersStay(s, next, key)
            && (key in s.timeBased ==> next.timeBased == s.timeBased - {key} && next.distanceBased == s.distanceBased)
            && (key !in s.timeBased ==> next == s.(distanceBased := s.distanceBased - {key}))
  {
    if key in s.timeBased { AskingKeepsSessions(s, key, s.timeBased[key]); }
    assert key !in s.distanceBased ==> s.distanceBased - {key} == s.distanceBased;
  }

  /** The other messages leave the sessions alone; only a changed requirement changes whether NHz is needed. */
  lemma OthersKeepSessions(s: Adapter, needed: bool, tbmThreshold: nat)
    ensures SameSessions(s, Step(s, Suspend, tbmThreshold)) && SameSessions(s, Step(s, Restart, tbmThreshold))
    ensures SameSessions(s.(nHzNeeded := needed), Step(s, RequireNHz(needed), tbmThreshold))
    ensures needed == s.nHzNeeded ==> Step(s, RequireNHz(needed), tbmThreshold) == s
  {
    RestartKeepsSessions(s);
    RestartKeepsSessions(s.(nHzNeeded := needed));
  }

  lemma RestartKeepsSessions(s: Adapter)
    ensures SameSessions(s, RestartAll(s))
  {
  }
}
