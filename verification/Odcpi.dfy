/** On-demand position injection (ODCPI) requests in gps/gnss/GnssAdapter.cpp: the modem starts and stops
  * them, a one-shot timer keeps the framework from being asked too often.
  */
module Odcpi {

  datatype RequestType = Start | Stop | Invalid

  datatype Request = Request(kind: RequestType, tbfMillis: int, isEmergencyMode: bool)

  /** sent is what the framework callback has been given; expiries counts the timer messages that found
    * the timer running, upgrades the emergency requests that replaced a stored non-emergency one.
    */
  datatype Odcpi = Odcpi(
    registered: bool,
    priority: int,
    wifiRegistered: bool,
    requestActive: bool,
    timerActive: bool,
    stored: Request,
    sent: seq<Request>,
    expiries: nat,
    upgrades: nat)

  const IDLE := Odcpi(false, 0, false, false, false, Request(Start, 0, false), [], 0, 0)

  datatype Event =
    | Init(priority: int)
    | FromModem(request: Request)
    | TimerExpire
    | Restart(modemSsr: bool)

  predicate IsUpgrade(s: Odcpi, r: Request) {
    && s.registered && r.kind == Start && (s.requestActive || s.timerActive)
    && !s.stored.isEmergencyMode && r.isEmergencyMode
  }

  function OnRequest(s: Odcpi, r: Request): Odcpi {
    if !s.registered || r.kind == Invalid then s
    else if r.kind == Stop then s.(sent := s.sent + [r], requestActive := false)
    else if !s.requestActive && !s.timerActive then
      s.(sent := s.sent + [r], requestActive := true, timerActive := true, stored := r)
    else if IsUpgrade(s, r) then
      s.(sent := s.sent + [r], requestActive := true, timerActive := true, stored := r, upgrades := s.upgrades + 1)
    else s.(requestActive := true, stored := r)
  }

  function OnTimer(s: Odcpi): Odcpi {
    var counted := if s.timerActive then s.(expiries := s.expiries + 1) else s;
    if s.requestActive then counted.(sent := s.sent + [s.stored], timerActive := true)
    else counted.(timerActive := false)
  }

  function Step(s: Odcpi, e: Event): Odcpi {
    match e
    case Init(p) => if p >= s.priority then s.(registered := true, priority := p, wifiRegistered := true) else s
    case FromModem(r) => OnRequest(s, r)
    case TimerExpire => OnTimer(s)
    case Restart(ssr) => if ssr then s.(requestActive := false) else s
  }

  function Run(s: Odcpi, events: seq<Event>): Odcpi {
    if events == [] then s else Step(Run(s, events[..|events| - 1]), events[|events| - 1])
  }

  // ---------------------------------------------------------------- the adapter's handlers

  class OdcpiTimer {
    var mActive: bool

    constructor ()
      ensures !mActive
    {
      mActive := false;
    }

    method Start()
      modifies this
      ensures mActive
    {
      mActive := true;
    }

    method Stop()
      modifies this
      ensures !mActive
    {
      mActive := false;
    }

    method Restart()
      modifies this
      ensures mActive
    {
      Stop();
      Start();
    }
  }

  class OdcpiAdapter {
    var mRegistered: bool
    var mCallbackPriority: int
    // The event mask has the bit for WIFI requests.
    var mWifiRegistered: bool
    var mOdcpiRequestActive: bool
    var mOdcpiRequest: Request
    const mOdcpiTimer: OdcpiTimer
    // What the registered callback has been given, and the two counts the bound speaks of.
    ghost var sent: seq<Request>
    ghost var expiries: nat
    ghost var upgrades: nat

    ghost function View(): Odcpi
      reads this, mOdcpiTimer
    {
      Odcpi(mRegistered, mCallbackPriority, mWifiRegistered, mOdcpiRequestActive, mOdcpiTimer.mActive, mOdcpiRequest,
            sent, expiries, upgrades)
    }

    constructor ()
      ensures View() == IDLE && fresh(mOdcpiTimer)
    {
      mRegistered, mCallbackPriority, mWifiRegistered, mOdcpiRequestActive := false, 0, false, false;
      mOdcpiRequest := Request(RequestType.Start, 0, false);
      mOdcpiTimer := new OdcpiTimer();
      sent, expiries, upgrades := [], 0, 0;
    }

    method InitOdcpi(priority: int)
      modifies this
      ensures View() == Step(old(View()), Init(priority))
    {
      if priority >= mCallbackPriority {
        mRegistered := true;
        mCallbackPriority := priority;
        mWifiRegistered := true;
      }
    }

    method OdcpiRequestCb(request: Request)
      modifies this`sent
      ensures sent == old(sent) + [request]
    {
      sent := sent + [request];
    }

    method RequestOdcpi(request: Request)
      modifies this, mOdcpiTimer
      ensures View() == OnRequest(old(View()), request)
    {
      if mRegistered {
        if request.kind == RequestType.Start {
          if !mOdcpiRequestActive && !mOdcpiTimer.mActive {
            OdcpiRequestCb(request);
            mOdcpiRequestActive := true;
            mOdcpiTimer.Start();
          } else if !mOdcpiRequest.isEmergencyMode && request.isEmergencyMode {
            OdcpiRequestCb(request);
            mOdcpiRequestActive := true;
            upgrades := upgrades + 1;
            if mOdcpiTimer.mActive {
              mOdcpiTimer.Restart();
            } else {
              mOdcpiTimer.Start();
            }
          } else if !mOdcpiRequestActive && mOdcpiTimer.mActive {
            mOdcpiRequestActive := true;
          }
          mOdcpiRequest := request;
        } else if request.kind == RequestType.Stop {
          OdcpiRequestCb(request);
          mOdcpiRequestActive := false;
        }
      }
    }

    method OdcpiTimerExpire()
      modifies this, mOdcpiTimer
      ensures View() == OnTimer(old(View()))
    {
      expiries := if mOdcpiTimer.mActive then expiries + 1 else expiries;
      if mOdcpiRequestActive {
        OdcpiRequestCb(mOdcpiRequest);
        mOdcpiTimer.Restart();
      } else {
        mOdcpiTimer.Stop();
      }
    }

    method RestartSessions(modemSSR: bool)
      modifies this
      ensures View() == Step(old(View()), Event.Restart(modemSSR))
    {
      if modemSSR {
        mOdcpiRequestActive := false;
      }
    }
  }

  // ---------------------------------------------------------------- what every run keeps

  function Starts(sent: seq<Request>): nat {
    if sent == [] then 0 else
      Starts(sent[..|sent| - 1]) + (if sent[|sent| - 1].kind == Start then 1 else 0)
  }

  /** An active request has a running timer and a registered callback, WIFI requests are subscribed to exactly
    * when there is one, and the START callbacks are
    * accounted for exactly: one for the running timer, one for each expiry, one for each upgrade.
    */
  ghost predicate Inv(s: Odcpi) {
    && (s.requestActive ==> s.timerActive)
    && (s.timerActive ==> s.registered)
    && (s.registered <==> s.wifiRegistered)
    && s.stored.kind == Start
    && Starts(s.sent) == (if s.timerActive then 1 else 0) + s.expiries + s.upgrades
  }

  lemma StepKeepsInv(s: Odcpi, e: Event)
    requires Inv(s)
    ensures Inv(Step(s, e))
  {
    forall r: Request ensures Starts(s.sent + [r]) == Starts(s.sent) + (if r.kind == Start then 1 else 0) {
      assert (s.sent + [r])[..|s.sent|] == s.sent;
    }
  }

  lemma {:induction false} RunKeepsInv(s: Odcpi, events: seq<Event>)
    requires Inv(s)
    ensures Inv(Run(s, events))
  {
    if events != [] {
      RunKeepsInv(s, events[..|events| - 1]);
      StepKeepsInv(Run(s, events[..|events| - 1]), events[|events| - 1]);
    }
  }

  /** In every reachable state an emergency upgrade finds the timer running, so it is always restarted and
    * never just started.
    */
  lemma UpgradeFindsTimerRunning(events: seq<Event>, r: Request)
    requires IsUpgrade(Run(IDLE, events), r)
    ensures Run(IDLE, events).timerActive
  {
    RunKeepsInv(IDLE, events);
  }

  function TimerEvents(events: seq<Event>): nat {
    if events == [] then 0 else
      TimerEvents(events[..|events| - 1]) + (if events[|events| - 1] == TimerExpire then 1 else 0)
  }

  lemma {:induction false} ExpiriesAreTimerEvents(s: Odcpi, events: seq<Event>)
    ensures s.expiries <= Run(s, events).expiries <= s.expiries + TimerEvents(events)
  {
    if events != [] {
      ExpiriesAreTimerEvents(s, events[..|events| - 1]);
    }
  }

  /** In any run the framework is asked to start at most once, plus once for each timer event and upgrade. */
  lemma StartsAreBounded(events: seq<Event>)
    ensures Starts(Run(IDLE, events).sent) <= 1 + TimerEvents(events) + Run(IDLE, events).upgrades
  {
    RunKeepsInv(IDLE, events);
    ExpiriesAreTimerEvents(IDLE, events);
  }

  /** While the timer runs, nothing but its expiry or an emergency upgrade asks the framework to start. */
  lemma NoStartWhileTimerRuns(s: Odcpi, events: seq<Event>)
    requires Inv(s) && s.timerActive
    requires TimerEvents(events) == 0 && Run(s, events).upgrades == s.upgrades
    ensures Starts(Run(s, events).sent) == Starts(s.sent)
  {
    RunKeepsInv(s, events);
    ExpiriesAreTimerEvents(s, events);
    TimerOnlyStopsOnExpiry(s, events);
  }

  lemma {:induction false} TimerOnlyStopsOnExpiry(s: Odcpi, events: seq<Event>)
    requires s.timerActive && TimerEvents(events) == 0
    ensures Run(s, events).timerActive
  {
    if events != [] {
      TimerOnlyStopsOnExpiry(s, events[..|events| - 1]);
    }
  }

  // ---------------------------------------------------------------- what is sent, over the events alone

  /** A callback is registered once an initialisation has had at least priority 0. */
  ghost predicate IsRegistered(events: seq<Event>) {
    exists n :: 0 <= n < |events| && events[n].Init? && events[n].priority >= 0
  }

  lemma RegisteredLast(events: seq<Event>)
    requires events != []
    ensures var last := events[|events| - 1];
            IsRegistered(events) <==> IsRegistered(events[..|events| - 1]) || (last.Init? && last.priority >= 0)
  {
    var init := events[..|events| - 1];
    if IsRegistered(init) {
      var n :| 0 <= n < |init| && init[n].Init? && init[n].priority >= 0;
      assert events[n] == init[n];
    }
    if IsRegistered(events) {
      var n :| 0 <= n < |events| && events[n].Init? && events[n].priority >= 0;
      assert n < |init| ==> init[n] == events[n];
    }
  }

  /** The priority is the highest of the initialisations, and a callback is registered exactly once there is one. */
  lemma {:induction false} PriorityIsHighest(events: seq<Event>)
    ensures var s := Run(IDLE, events);
            && (s.registered <==> IsRegistered(events)) && s.priority >= 0
            && (forall n :: 0 <= n < |events| && events[n].Init? ==> events[n].priority <= s.priority)
            && (s.priority == 0 || exists n :: 0 <= n < |events| && events[n] == Init(s.priority))
  {
    if events != [] {
      var init, last := events[..|events| - 1], events[|events| - 1];
      PriorityIsHighest(init);
      RegisteredLast(events);
      var before, s := Run(IDLE, init), Run(IDLE, events);
      assert last.Init? ==> s.registered == (before.registered || last.priority >= before.priority);
      if before.priority != 0 {
        var n :| 0 <= n < |init| && init[n] == Init(before.priority);
        assert events[n] == Init(before.priority);
      }
      if s.priority != before.priority {
        assert events[|events| - 1] == Init(s.priority);
      }
      forall n | 0 <= n < |events| && events[n].Init? ensures events[n].priority <= s.priority {
        if n < |init| { assert init[n] == events[n]; }
      }
    }
  }

  /** The latest start request since a callback is registered. */
  function LatestStart(events: seq<Event>): Request {
    if events == [] then Request(Start, 0, false) else
      var init, last := events[..|events| - 1], events[|events| - 1];
      if last.FromModem? && last.request.kind == Start && Run(IDLE, init).registered then last.request
      else LatestStart(init)
  }

  /** The request in force: started, and since then neither stopped nor lost in a modem restart. */
  predicate InForce(events: seq<Event>) {
    events != []
    && var init, last := events[..|events| - 1], events[|events| - 1];
       var heard := last.FromModem? && Run(IDLE, init).registered;
       if heard && last.request.kind == Start then true
       else if heard && last.request.kind == Stop then false
       else if last.Restart? && last.modemSsr then false
       else InForce(init)
  }

  /** Over every run the stored request is the latest start request, and it is active exactly while it is in force. */
  lemma {:induction false} RunStoresLatest(events: seq<Event>)
    ensures Run(IDLE, events).stored == LatestStart(events)
    ensures Run(IDLE, events).requestActive <==> InForce(events)
  {
    if events != [] {
      RunStoresLatest(events[..|events| - 1]);
      RunKeepsInv(IDLE, events[..|events| - 1]);
    }
  }

  predicate GoesOn(r: Request, timerRuns: bool, latest: Request) {
    r.kind == Stop || (r.kind == Start && (!timerRuns || (!latest.isEmergencyMode && r.isEmergencyMode)))
  }

  /** What the framework is sent at each event. A stop request goes on at once. A start request goes on exactly when
    * the timer does not run, or when it is an emergency and the request before was not. An expiry repeats the latest
    * start request exactly when it is in force. Nothing else is sent, and nothing at all without a callback.
    */
  lemma StepSends(events: seq<Event>, e: Event)
    ensures var s, next := Run(IDLE, events), Run(IDLE, events + [e]);
            next.sent ==
            if e.FromModem? && IsRegistered(events) && GoesOn(e.request, s.timerActive, LatestStart(events))
            then s.sent + [e.request]
            else if e.TimerExpire? && InForce(events) then s.sent + [LatestStart(events)]
            else s.sent
  {
    assert (events + [e])[..|events|] == events;
    PriorityIsHighest(events);
    RunStoresLatest(events);
    RunKeepsInv(IDLE, events);
  }

  /** The timer runs from any start request that is heard, and until it expires with no request in force. */
  lemma TimerRuns(events: seq<Event>, e: Event)
    ensures var s, next := Run(IDLE, events), Run(IDLE, events + [e]);
            next.timerActive ==
            if e.TimerExpire? then InForce(events)
            else s.timerActive || (e.FromModem? && IsRegistered(events) && e.request.kind == Start)
  {
    assert (events + [e])[..|events|] == events;
    PriorityIsHighest(events);
    RunStoresLatest(events);
    RunKeepsInv(IDLE, events);
  }
}
