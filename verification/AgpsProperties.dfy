/** What every run of the AGPS machines keeps. */
module AgpsProperties {
  import opened Wrappers
  import opened AgpsModel

  // ---------------------------------------------------------------- the invariants

  ghost predicate DistinctHandles(subs: seq<Subscriber>) {
    forall i, j :: 0 <= i < j < |subs| ==> subs[i].connHandle != subs[j].connHandle
  }

  /** How often a handle was inserted (or dropped), and how often it is listed. */
  function Occurrences(handles: seq<int>, h: int): nat {
    if handles == [] then 0 else
      Occurrences(handles[..|handles| - 1], h) + (if handles[|handles| - 1] == h then 1 else 0)
  }

  function Listings(subs: seq<Subscriber>, h: int): nat {
    if subs == [] then 0 else (if subs[0].connHandle == h then 1 else 0) + Listings(subs[1..], h)
  }

  /** A close status or a failed open status is the last thing a subscriber hears. */
  predicate IsTerminal(c: Callback) {
    c.CloseStatus? || !c.success
  }

  function Terminals(callbacks: seq<Callback>, h: int): nat {
    if callbacks == [] then 0 else
      var last := callbacks[|callbacks| - 1];
      Terminals(callbacks[..|callbacks| - 1], h) + (if IsTerminal(last) && last.connHandle == h then 1 else 0)
  }

  /** For each handle, the insertions are the terminal callbacks, plus one if it is still listed, plus
    * the times a modem restart dropped it.
    */
  ghost predicate Conserved(m: Machine) {
    forall h :: Occurrences(m.added, h) ==
                Terminals(m.callbacks, h) + Listings(m.subscribers, h) + Occurrences(m.dropped, h)
  }

  ghost predicate OpensWhileAcquired(callbacks: seq<Callback>) {
    forall i :: 0 <= i < |callbacks| && callbacks[i].OpenStatus? && callbacks[i].success ==>
      callbacks[i].during == Acquired
  }

  /** The first request is REQUEST, a RELEASE always follows a REQUEST, and the state names the last one. */
  ghost predicate ConnsFollowState(m: Machine) {
    && (forall i :: 0 <= i < |m.conns| && m.conns[i].Release? ==> i > 0 && m.conns[i - 1].Request?)
    && (m.state == Pending || m.state == Acquired ==> m.conns != [] && m.conns[|m.conns| - 1].Request?)
    && (m.state == Releasing ==> m.conns != [] && m.conns[|m.conns| - 1].Release?)
  }

  /** What holds in every run, with or without modem restarts. */
  ghost predicate Inv(m: Machine) {
    && (m.state == Released ==> m.subscribers == [])
    && DistinctHandles(m.subscribers)
    && (m.state == Pending || m.state == Acquired ==> m.subscribers == [] || AnyActive(m.subscribers))
    && ConnsFollowState(m)
    && OpensWhileAcquired(m.callbacks)
    && Conserved(m)
  }

  /** What holds as long as the modem has not restarted. */
  ghost predicate Settled(m: Machine) {
    && m.dropped == []
    && (m.subscribers == [] ==> m.state == Released)
    && (m.state == Pending || m.state == Acquired ==> AnyActive(m.subscribers))
  }

  // ---------------------------------------------------------------- lists and counts

  lemma FilterMember(subs: seq<Subscriber>, who: Audience, keep: bool, s: Subscriber)
    ensures s in Filter(subs, who, keep) <==> s in subs && Hears(who, s) == keep
  {
  }

  lemma WithoutMember(subs: seq<Subscriber>, h: int, s: Subscriber)
    ensures s in Without(subs, h) <==> s in subs && s.connHandle != h
  {
  }

  lemma {:induction false} FilterKeepsDistinct(subs: seq<Subscriber>, who: Audience, keep: bool)
    requires DistinctHandles(subs)
    ensures DistinctHandles(Filter(subs, who, keep))
  {
    if subs != [] {
      FilterKeepsDistinct(subs[1..], who, keep);
      forall s | s in Filter(subs[1..], who, keep) ensures s.connHandle != subs[0].connHandle {
        FilterMember(subs[1..], who, keep, s);
      }
    }
  }

  lemma {:induction false} WithoutKeepsDistinct(subs: seq<Subscriber>, h: int)
    requires DistinctHandles(subs)
    ensures DistinctHandles(Without(subs, h))
  {
    if subs != [] {
      WithoutKeepsDistinct(subs[1..], h);
      forall s | s in Without(subs[1..], h) ensures s.connHandle != subs[0].connHandle {
        WithoutMember(subs[1..], h, s);
      }
    }
  }

  lemma {:induction false} ListingsAppend(subs: seq<Subscriber>, s: Subscriber, h: int)
    ensures Listings(subs + [s], h) == Listings(subs, h) + (if s.connHandle == h then 1 else 0)
  {
    if subs == [] {
      assert subs + [s] == [s];
    } else {
      ListingsAppend(subs[1..], s, h);
      assert (subs + [s])[1..] == subs[1..] + [s];
    }
  }

  lemma OccurrencesAppend(handles: seq<int>, x: int, h: int)
    ensures Occurrences(handles + [x], h) == Occurrences(handles, h) + (if x == h then 1 else 0)
  {
    assert (handles + [x])[..|handles|] == handles;
  }

  lemma {:induction false} OccurrencesConcat(a: seq<int>, b: seq<int>, h: int)
    ensures Occurrences(a + b, h) == Occurrences(a, h) + Occurrences(b, h)
  {
    if b == [] {
      assert a + b == a;
    } else {
      var init, x := b[..|b| - 1], b[|b| - 1];
      OccurrencesConcat(a, init, h);
      OccurrencesAppend(a + init, x, h);
      assert a + b == (a + init) + [x];
    }
  }

  lemma TerminalsAppend(callbacks: seq<Callback>, c: Callback, h: int)
    ensures Terminals(callbacks + [c], h) ==
            Terminals(callbacks, h) + (if IsTerminal(c) && c.connHandle == h then 1 else 0)
  {
    assert (callbacks + [c])[..|callbacks|] == callbacks;
  }

  lemma {:induction false} FilterSplitsListings(subs: seq<Subscriber>, who: Audience, h: int)
    ensures Listings(Filter(subs, who, true), h) + Listings(Filter(subs, who, false), h) == Listings(subs, h)
  {
    if subs != [] {
      FilterSplitsListings(subs[1..], who, h);
      var heard := Hears(who, subs[0]);
      assert Filter(subs, who, heard)[1..] == Filter(subs[1..], who, heard);
    }
  }

  lemma {:induction false} AllHear(subs: seq<Subscriber>)
    ensures Filter(subs, All, true) == subs && Filter(subs, All, false) == []
  {
    if subs != [] {
      AllHear(subs[1..]);
    }
  }

  /** A terminal event tells each listed handle once; GRANTED ends nothing. */
  lemma {:induction false} TerminalsLogged(log: seq<Callback>, e: Event, subs: seq<Subscriber>, state: State,
                                           link: Link, h: int)
    requires e != Subscribe
    ensures Terminals(Logged(log, e, subs, state, link), h) ==
            Terminals(log, h) + (if e == Granted then 0 else Listings(subs, h))
    decreases |subs|
  {
    if subs != [] {
      var c := CallbackFor(e, subs[0].connHandle, state, link);
      TerminalsLogged(log + [c], e, subs[1..], state, link, h);
      TerminalsAppend(log, c, h);
    }
  }

  lemma {:induction false} LoggedOpens(log: seq<Callback>, e: Event, subs: seq<Subscriber>, state: State, link: Link)
    requires e != Subscribe && (e == Granted ==> state == Acquired)
    requires OpensWhileAcquired(log)
    ensures OpensWhileAcquired(Logged(log, e, subs, state, link))
    decreases |subs|
  {
    if subs != [] {
      LoggedOpens(log + [CallbackFor(e, subs[0].connHandle, state, link)], e, subs[1..], state, link);
    }
  }

  lemma {:induction false} MarkKeepsListings(subs: seq<Subscriber>, marked: int, h: int)
    ensures Listings(MarkInactive(subs, marked), h) == Listings(subs, h)
  {
    if subs != [] {
      MarkKeepsListings(subs[1..], marked, h);
      assert MarkInactive(subs, marked)[1..] == MarkInactive(subs[1..], marked);
    }
  }

  /** A handle is listed at most once. */
  lemma {:induction false} DistinctListings(subs: seq<Subscriber>, h: int)
    requires DistinctHandles(subs)
    ensures Listings(subs, h) == if Listed(subs, h) then 1 else 0
  {
    if subs != [] {
      DistinctListings(subs[1..], h);
      assert Listed(subs[1..], h) ==> Listed(subs, h) && subs[0].connHandle != h by {
        if Listed(subs[1..], h) {
          var i :| 0 <= i < |subs[1..]| && subs[1..][i].connHandle == h;
          assert subs[i + 1].connHandle == h;
        }
      }
      assert Listed(subs, h) && subs[0].connHandle != h ==> Listed(subs[1..], h) by {
        if Listed(subs, h) && subs[0].connHandle != h {
          var i :| 0 <= i < |subs| && subs[i].connHandle == h;
          assert subs[1..][i - 1].connHandle == h;
        }
      }
    }
  }

  lemma {:induction false} WithoutListings(subs: seq<Subscriber>, gone: int, h: int)
    ensures Listings(Without(subs, gone), h) == if h == gone then 0 else Listings(subs, h)
  {
    if subs != [] {
      WithoutListings(subs[1..], gone, h);
      if subs[0].connHandle != gone {
        assert Without(subs, gone)[1..] == Without(subs[1..], gone);
      }
    }
  }

  lemma {:induction false} HandleSeqListings(subs: seq<Subscriber>, h: int)
    ensures Occurrences(HandleSeq(subs), h) == Listings(subs, h)
  {
    if subs != [] {
      HandleSeqListings(subs[1..], h);
      OccurrencesConcat([subs[0].connHandle], HandleSeq(subs[1..]), h);
      OccurrencesAppend([], subs[0].connHandle, h);
      assert [] + [subs[0].connHandle] == [subs[0].connHandle];
    }
  }

  // ---------------------------------------------------------------- each operation keeps the books

  lemma AddConserves(m: Machine, s: Subscriber)
    requires Conserved(m)
    ensures Conserved(Add(m, s))
  {
    forall h ensures Occurrences(Add(m, s).added, h) ==
      Terminals(m.callbacks, h) + Listings(Add(m, s).subscribers, h) + Occurrences(m.dropped, h)
    {
      ListingsAppend(m.subscribers, s, h);
      OccurrencesAppend(m.added, s.connHandle, h);
    }
  }

  lemma TellAllConserves(m: Machine, e: Event, delete: bool, who: Audience)
    requires Conserved(m) && e != Subscribe && (delete <==> e != Granted)
    ensures Conserved(TellAll(m, e, delete, who))
  {
    var told := TellAll(m, e, delete, who);
    var heard := Filter(m.subscribers, who, true);
    forall h ensures Occurrences(told.added, h) ==
      Terminals(told.callbacks, h) + Listings(told.subscribers, h) + Occurrences(told.dropped, h)
    {
      FilterSplitsListings(m.subscribers, who, h);
      TerminalsLogged(m.callbacks, e, heard, m.state, m.link, h);
    }
  }

  lemma LeaveConserves(m: Machine, s: Subscriber)
    requires Conserved(m) && DistinctHandles(m.subscribers) && Listed(m.subscribers, s.connHandle)
    ensures Conserved(Leave(m, s))
  {
    var left := Leave(m, s);
    forall h ensures Occurrences(left.added, h) ==
      Terminals(left.callbacks, h) + Listings(left.subscribers, h) + Occurrences(left.dropped, h)
    {
      MarkKeepsListings(m.subscribers, s.connHandle, h);
      WithoutListings(m.subscribers, s.connHandle, h);
      DistinctListings(m.subscribers, s.connHandle);
      TerminalsAppend(m.callbacks, CallbackFor(Unsubscribe, s.connHandle, m.state, m.link), h);
    }
  }

  lemma DropAllConserves(m: Machine)
    requires Conserved(m)
    ensures Conserved(DropAll(m))
  {
    forall h ensures Occurrences(m.added, h) == Terminals(m.callbacks, h) + Occurrences(DropAll(m).dropped, h) {
      HandleSeqListings(m.subscribers, h);
      OccurrencesConcat(m.dropped, HandleSeq(m.subscribers), h);
    }
  }

  // ---------------------------------------------------------------- each event keeps the invariants

  lemma AddKeepsLists(m: Machine, s: Subscriber)
    requires DistinctHandles(m.subscribers) && !s.isInactive && Conserved(m)
    ensures DistinctHandles(Add(m, s).subscribers) && Conserved(Add(m, s))
    ensures m.subscribers == [] || AnyActive(m.subscribers) ==> AnyActive(Add(m, s).subscribers)
    ensures Add(m, s).subscribers != []
  {
    AddConserves(m, s);
    var subs, next := m.subscribers, Add(m, s).subscribers;
    if !Listed(subs, s.connHandle) {
      assert next[|subs|] == s;
    }
  }

  lemma TellGrantedKeeps(m: Machine, h: int)
    requires Inv(m) && m.state == Acquired
    ensures Conserved(Tell(m, Granted, h)) && OpensWhileAcquired(Tell(m, Granted, h).callbacks)
  {
    forall x ensures Terminals(Tell(m, Granted, h).callbacks, x) == Terminals(m.callbacks, x) {
      TerminalsAppend(m.callbacks, CallbackFor(Granted, h, m.state, m.link), x);
    }
  }

  lemma SubscribeWhenAcquired(m: Machine, s: Subscriber)
    requires Inv(m) && !s.isInactive && m.state == Acquired
    ensures Inv(OnSubscribe(m, s)) && AnyActive(OnSubscribe(m, s).subscribers)
  {
    TellGrantedKeeps(m, s.connHandle);
    AddKeepsLists(Tell(m, Granted, s.connHandle), s);
  }

  lemma SubscribeWhenReleased(m: Machine, s: Subscriber)
    requires Inv(m) && !s.isInactive && m.state == Released
    ensures Inv(OnSubscribe(m, s)) && AnyActive(OnSubscribe(m, s).subscribers)
  {
    AddKeepsLists(m, s);
    RequestConnKeeps(m, OnSubscribe(m, s));
    ConservedFrame(Add(m, s), OnSubscribe(m, s));
  }

  lemma SubscribeKeeps(m: Machine, s: Subscriber)
    requires Inv(m) && !s.isInactive
    ensures Inv(OnSubscribe(m, s)) && (Settled(m) ==> Settled(OnSubscribe(m, s)))
  {
    match m.state
    case Acquired => SubscribeWhenAcquired(m, s);
    case Released => SubscribeWhenReleased(m, s);
    case _ => AddKeepsLists(m, s);
  }

  lemma LeaveKeeps(m: Machine, s: Subscriber)
    requires Inv(m) && Listed(m.subscribers, s.connHandle)
    ensures var left := Leave(m, s);
            && DistinctHandles(left.subscribers) && OpensWhileAcquired(left.callbacks) && Conserved(left)
            && left.state == m.state && left.conns == m.conns && left.dropped == m.dropped
  {
    LeaveConserves(m, s);
    WithoutKeepsDistinct(m.subscribers, s.connHandle);
  }

  lemma RequestConnKeeps(m: Machine, next: Machine)
    requires ConnsFollowState(m) && next.conns == m.conns + [m.link.RequestConn()] && next.state == Pending
    ensures ConnsFollowState(next)
  {
  }

  /** The books only look at the list and the logs. */
  lemma ConservedFrame(m: Machine, next: Machine)
    requires Conserved(m) && next.added == m.added && next.dropped == m.dropped
    requires next.callbacks == m.callbacks && next.subscribers == m.subscribers
    ensures Conserved(next)
  {
  }

  lemma ReleaseConnKeeps(m: Machine, next: Machine)
    requires ConnsFollowState(m) && (m.state == Pending || m.state == Acquired)
    requires next.conns == m.conns + [m.link.ReleaseConn()] && (next.state == Released || next.state == Releasing)
    ensures ConnsFollowState(next)
  {
  }

  lemma UnsubscribeKeeps(m: Machine, s: Subscriber)
    requires Inv(m) && Listed(m.subscribers, s.connHandle)
    ensures Inv(OnUnsubscribe(m, s)) && (Settled(m) ==> Settled(OnUnsubscribe(m, s)))
  {
    LeaveKeeps(m, s);
    var left, next := Leave(m, s), OnUnsubscribe(m, s);
    assert next.subscribers == left.subscribers && next.callbacks == left.callbacks;
    assert next.added == left.added && next.dropped == left.dropped;
    if next.conns != m.conns {
      ReleaseConnKeeps(m, next);
    }
  }

  lemma GrantedKeeps(m: Machine)
    requires Inv(m)
    ensures Inv(OnGranted(m)) && (Settled(m) ==> Settled(OnGranted(m)))
  {
    if m.state == Pending {
      var acquired := m.(state := Acquired);
      TellAllConserves(acquired, Granted, false, Active);
      LoggedOpens(m.callbacks, Granted, Filter(m.subscribers, Active, true), Acquired, m.link);
    }
  }

  lemma FinishReleaseKeeps(m: Machine)
    requires Inv(m) && m.state == Releasing
    ensures Inv(FinishRelease(m)) && (Settled(m) ==> Settled(FinishRelease(m)))
  {
    var rest := Filter(m.subscribers, Inactive, false);
    TellAllConserves(m, Closed, true, Inactive);
    LoggedOpens(m.callbacks, Closed, Filter(m.subscribers, Inactive, true), Releasing, m.link);
    FilterKeepsDistinct(m.subscribers, Inactive, false);
    if rest != [] {
      FilterMember(m.subscribers, Inactive, false, rest[0]);
    }
  }

  lemma ReleaseAllKeeps(m: Machine, e: Event)
    requires Inv(m) && (e == Closed || e == Denied)
    ensures Inv(TellAll(m.(state := Released), e, true, All))
    ensures Settled(m) ==> Settled(TellAll(m.(state := Released), e, true, All))
  {
    TellAllConserves(m.(state := Released), e, true, All);
    AllHear(m.subscribers);
    LoggedOpens(m.callbacks, e, m.subscribers, Released, m.link);
  }

  lemma ClosedKeeps(m: Machine)
    requires Inv(m)
    ensures Inv(OnClosed(m)) && (Settled(m) ==> Settled(OnClosed(m)))
  {
    if m.state == Acquired { ReleaseAllKeeps(m, Closed); }
    if m.state == Releasing { FinishReleaseKeeps(m); }
  }

  lemma DeniedKeeps(m: Machine)
    requires Inv(m)
    ensures Inv(OnDenied(m)) && (Settled(m) ==> Settled(OnDenied(m)))
  {
    if m.state == Pending { ReleaseAllKeeps(m, Denied); }
    if m.state == Releasing { FinishReleaseKeeps(m); }
  }

  // ---------------------------------------------------------------- every run of the manager

  ghost predicate ManagerInv(mgr: Manager) {
    && (mgr.agnss.Some? ==> Inv(mgr.agnss.value))
    && (mgr.internet.Some? ==> Inv(mgr.internet.value))
  }

  ghost predicate ManagerSettled(mgr: Manager) {
    && (mgr.agnss.Some? ==> Settled(mgr.agnss.value))
    && (mgr.internet.Some? ==> Settled(mgr.internet.value))
  }

  /** The manager right after createAgpsStateMachines. */
  ghost predicate IsFresh(mgr: Manager) {
    && (mgr.agnss.Some? ==> mgr.agnss.value == Fresh(mgr.agnss.value.link))
    && (mgr.internet.Some? ==> mgr.internet.value == Fresh(mgr.internet.value.link))
  }

  /** The invariants do not look at the connection's parameters. */
  lemma LinkFrame(m: Machine, next: Machine)
    requires Inv(m) && next == m.(link := next.link)
    ensures Inv(next) && (Settled(m) ==> Settled(next))
  {
  }

  /** A manager whose one machine has taken a good step. */
  lemma PutKeeps(mgr: Manager, nif: Nif, next: Machine)
    requires ManagerInv(mgr) && mgr.Get(nif).Some? && Inv(next)
    requires Settled(mgr.Get(nif).value) ==> Settled(next)
    ensures ManagerInv(mgr.Put(nif, next)) && (ManagerSettled(mgr) ==> ManagerSettled(mgr.Put(nif, next)))
  {
  }

  lemma RequestKeeps(mgr: Manager, h: int, t: AgpsType, mask: bv32)
    requires ManagerInv(mgr)
    ensures var next := Step(mgr, RequestAtl(h, t, mask));
            ManagerInv(next) && (ManagerSettled(mgr) ==> ManagerSettled(next))
  {
    var t', mask' := EffectiveType(mgr.emergencyPdn, t), RequestMask(mgr.emergencyPdn, t, mask);
    var nif, s := NifFor(t'), Subscriber(h, true, false, mask');
    if mgr.Get(nif).Some? {
      var m := Asked(mgr.Get(nif).value, t', mask');
      LinkFrame(mgr.Get(nif).value, m);
      SubscribeKeeps(m, s);
      PutKeeps(mgr, nif, OnSubscribe(m, s));
    }
  }

  lemma ReleaseKeeps(mgr: Manager, h: int)
    requires ManagerInv(mgr)
    ensures var next := Step(mgr, ReleaseAtl(h));
            ManagerInv(next) && (ManagerSettled(mgr) ==> ManagerSettled(next))
  {
    var nif := Holder(mgr, h);
    if nif.Some? {
      var m := mgr.Get(nif.value).value;
      var s := Find(m.subscribers, h).value;
      UnsubscribeKeeps(m, s);
      PutKeeps(mgr, nif.value, OnUnsubscribe(m, s));
    }
  }

  lemma StepKeeps(mgr: Manager, i: Input)
    requires Accepts(mgr, i) && ManagerInv(mgr)
    ensures ManagerInv(Step(mgr, i))
    ensures ManagerSettled(mgr) && !i.ModemSsr? ==> ManagerSettled(Step(mgr, i))
  {
    match i
    case RequestAtl(h, t, mask) => RequestKeeps(mgr, h, t, mask);
    case ReleaseAtl(h) => ReleaseKeeps(mgr, h);
    case OpenSuccess(t, apn, len, bearer) =>
      var m := Opened(mgr.Get(NifFor(t)).value, apn, len, bearer);
      LinkFrame(mgr.Get(NifFor(t)).value, m);
      GrantedKeeps(m);
      PutKeeps(mgr, NifFor(t), OnGranted(m));
    case OpenFailed(t) =>
      DeniedKeeps(mgr.Get(NifFor(t)).value);
      PutKeeps(mgr, NifFor(t), OnDenied(mgr.Get(NifFor(t)).value));
    case AtlClosed(t) =>
      ClosedKeeps(mgr.Get(NifFor(t)).value);
      PutKeeps(mgr, NifFor(t), OnClosed(mgr.Get(NifFor(t)).value));
    case ModemSsr =>
      if mgr.agnss.Some? { DropAllConserves(mgr.agnss.value); }
      if mgr.internet.Some? { DropAllConserves(mgr.internet.value); }
  }

  /** Every reachable state, modem restarts included. */
  lemma {:induction false} RunKeepsInv(mgr: Manager, inputs: seq<Input>)
    requires IsFresh(mgr) && forall i :: i in inputs ==> Accepts(mgr, i)
    ensures ManagerInv(Run(mgr, inputs))
  {
    if inputs != [] {
      RunKeepsInv(mgr, inputs[..|inputs| - 1]);
      var before, last := Run(mgr, inputs[..|inputs| - 1]), inputs[|inputs| - 1];
      assert Accepts(mgr, last) && before.agnss.Some? == mgr.agnss.Some?;
      StepKeeps(before, last);
    }
  }

  /** Every reachable state of a run without a modem restart. */
  lemma {:induction false} RunStaysSettled(mgr: Manager, inputs: seq<Input>)
    requires IsFresh(mgr) && forall i :: i in inputs ==> Accepts(mgr, i) && !i.ModemSsr?
    ensures ManagerSettled(Run(mgr, inputs))
  {
    if inputs != [] {
      RunKeepsInv(mgr, inputs[..|inputs| - 1]);
      RunStaysSettled(mgr, inputs[..|inputs| - 1]);
      var before, last := Run(mgr, inputs[..|inputs| - 1]), inputs[|inputs| - 1];
      assert Accepts(mgr, last) && before.agnss.Some? == mgr.agnss.Some?;
      StepKeeps(before, last);
    }
  }

  /** In any run without a restart, each handle's insertions are its terminal callbacks plus one if listed. */
  lemma InsertionsAreAnswered(mgr: Manager, inputs: seq<Input>, nif: Nif, h: int)
    requires IsFresh(mgr) && forall i :: i in inputs ==> Accepts(mgr, i) && !i.ModemSsr?
    requires mgr.Get(nif).Some?
    ensures var m := Run(mgr, inputs).Get(nif).value;
            Occurrences(m.added, h) == Terminals(m.callbacks, h) + (if Listed(m.subscribers, h) then 1 else 0)
  {
    RunKeepsInv(mgr, inputs);
    RunStaysSettled(mgr, inputs);
    DistinctListings(Run(mgr, inputs).Get(nif).value.subscribers, h);
  }

  /** A release request never reaches a machine in RELEASED, so its unsubscribe always finds a connection. */
  lemma ReleaseFindsLiveMachine(mgr: Manager, inputs: seq<Input>, h: int)
    requires IsFresh(mgr) && forall i :: i in inputs ==> Accepts(mgr, i)
    ensures var now := Run(mgr, inputs);
            Holder(now, h).Some? ==> now.Get(Holder(now, h).value).value.state != Released
  {
    RunKeepsInv(mgr, inputs);
  }

  // ---------------------------------------------------------------- what the framework is asked for

  /** The type and APN types of a request that the machine serves. */
  function Served(emergencyPdn: bool, i: Input, nif: Nif): Option<(AgpsType, bv32)> {
    if i.RequestAtl? && NifFor(EffectiveType(emergencyPdn, i.agpsType)) == nif then
      Some((EffectiveType(emergencyPdn, i.agpsType), RequestMask(emergencyPdn, i.agpsType, i.apnTypeMask)))
    else None
  }

  /** The latest of them. */
  function LastServed(emergencyPdn: bool, inputs: seq<Input>, nif: Nif): Option<(AgpsType, bv32)> {
    if inputs == [] then None else
      var init, last := inputs[..|inputs| - 1], inputs[|inputs| - 1];
      if Served(emergencyPdn, last, nif).Some? then Served(emergencyPdn, last, nif)
      else LastServed(emergencyPdn, init, nif)
  }

  /** No event of the machine touches the parameters of its connection. */
  lemma EventsKeepLink(m: Machine, s: Subscriber)
    ensures OnSubscribe(m, s).link == m.link && OnUnsubscribe(m, s).link == m.link
    ensures OnGranted(m).link == OnClosed(m).link == OnDenied(m).link == DropAll(m).link == m.link
  {
  }

  function Names(link: Link): (AgpsType, bv32) { (link.agpsType, link.apnTypeMask) }

  lemma RequestSetsLink(mgr: Manager, h: int, t: AgpsType, mask: bv32, nif: Nif)
    requires mgr.Get(nif).Some?
    ensures var i := RequestAtl(h, t, mask);
            && Step(mgr, i).Get(nif).Some?
            && Names(Step(mgr, i).Get(nif).value.link) ==
               if Served(mgr.emergencyPdn, i, nif).Some? then Served(mgr.emergencyPdn, i, nif).value
               else Names(mgr.Get(nif).value.link)
  {
    var t', mask' := EffectiveType(mgr.emergencyPdn, t), RequestMask(mgr.emergencyPdn, t, mask);
    if mgr.Get(NifFor(t')).Some? {
      EventsKeepLink(Asked(mgr.Get(NifFor(t')).value, t', mask'), Subscriber(h, true, false, mask'));
    }
  }

  lemma StepLink(mgr: Manager, i: Input, nif: Nif)
    requires Accepts(mgr, i) && mgr.Get(nif).Some?
    ensures Step(mgr, i).emergencyPdn == mgr.emergencyPdn && Step(mgr, i).Get(nif).Some?
    ensures Names(Step(mgr, i).Get(nif).value.link) ==
            if Served(mgr.emergencyPdn, i, nif).Some? then Served(mgr.emergencyPdn, i, nif).value
            else Names(mgr.Get(nif).value.link)
  {
    match i
    case RequestAtl(h, t, mask) => RequestSetsLink(mgr, h, t, mask, nif);
    case ReleaseAtl(h) =>
      var holder := Holder(mgr, h);
      if holder.Some? {
        var m := mgr.Get(holder.value).value;
        EventsKeepLink(m, Find(m.subscribers, h).value);
      }
    case OpenSuccess(t, apn, len, bearer) =>
      EventsKeepLink(Opened(mgr.Get(NifFor(t)).value, apn, len, bearer), Subscriber(0, true, false, 0));
    case OpenFailed(t) => EventsKeepLink(mgr.Get(NifFor(t)).value, Subscriber(0, true, false, 0));
    case AtlClosed(t) => EventsKeepLink(mgr.Get(NifFor(t)).value, Subscriber(0, true, false, 0));
    case ModemSsr =>
  }

  /** In every reachable state a machine's type and mask are those of the latest request it has served. */
  lemma {:induction false} LinkFollowsRequests(mgr: Manager, inputs: seq<Input>, nif: Nif)
    requires (forall i :: i in inputs ==> Accepts(mgr, i)) && mgr.Get(nif).Some?
    ensures Run(mgr, inputs).emergencyPdn == mgr.emergencyPdn
    ensures Names(Run(mgr, inputs).Get(nif).value.link) ==
            if LastServed(mgr.emergencyPdn, inputs, nif).Some? then LastServed(mgr.emergencyPdn, inputs, nif).value
            else Names(mgr.Get(nif).value.link)
  {
    if inputs != [] {
      var init, last := inputs[..|inputs| - 1], inputs[|inputs| - 1];
      LinkFollowsRequests(mgr, init, nif);
      assert Accepts(mgr, last) && Accepts(Run(mgr, init), last);
      StepLink(Run(mgr, init), last, nif);
    }
  }

  lemma ReleaseNamesLink(m: Machine, s: Subscriber)
    requires Inv(m) && (m.state == Pending || m.state == Acquired) && OnUnsubscribe(m, s).conns != m.conns
    ensures OnUnsubscribe(m, s).conns == m.conns + [m.link.ReleaseConn()]
    ensures m.conns != [] && m.conns[|m.conns| - 1].Request?
  {
  }

  /** The RELEASE an unsubscription sends names what the REQUEST it ends named if and only if the latest request
    * served named the same.
    */
  lemma ReleaseNamesRequestIff(mgr: Manager, inputs: seq<Input>, nif: Nif, s: Subscriber, m: Machine)
    requires IsFresh(mgr) && (forall i :: i in inputs ==> Accepts(mgr, i)) && mgr.Get(nif).Some?
    requires m == Run(mgr, inputs).Get(nif).value && LastServed(mgr.emergencyPdn, inputs, nif).Some?
    requires (m.state == Pending || m.state == Acquired) && OnUnsubscribe(m, s).conns != m.conns
    ensures m.conns != [] && m.conns[|m.conns| - 1].Request?
    ensures var request := m.conns[|m.conns| - 1];
            OnUnsubscribe(m, s).conns == m.conns + [Release(request.agpsType, request.apnTypeMask)] <==>
            LastServed(mgr.emergencyPdn, inputs, nif).value == (request.agpsType, request.apnTypeMask)
  {
    RunKeepsInv(mgr, inputs);
    LinkFollowsRequests(mgr, inputs, nif);
    ReleaseNamesLink(m, s);
    var request, next := m.conns[|m.conns| - 1], OnUnsubscribe(m, s);
    assert next.conns[|m.conns|] == m.link.ReleaseConn();
    assert (m.conns + [Release(request.agpsType, request.apnTypeMask)])[|m.conns|] ==
           Release(request.agpsType, request.apnTypeMask);
  }

  /** Two subscribers with different APN types: the connection is requested for the first one's and released
    * for the second one's.
    */
  lemma ReleaseCanNameOtherMask(m: Machine, a: Subscriber, b: Subscriber)
    requires m == Fresh(Link(Supl, 0, None, AGPS_APN_BEARER_INVALID))
    requires a == Subscriber(1, true, false, 1) && b == Subscriber(2, true, false, 2)
    ensures var pending := OnSubscribe(Asked(OnSubscribe(Asked(m, Supl, 1), a), Supl, 2), b);
            OnUnsubscribe(OnUnsubscribe(pending, a), b).conns == [Request(Supl, 1), Release(Supl, 2)]
  {
    var first := OnSubscribe(Asked(m, Supl, 1), a);
    assert first.subscribers == [a] && first.conns == [Request(Supl, 1)];
    var pending := OnSubscribe(Asked(first, Supl, 2), b);
    assert pending.subscribers == [a, b];
    var one := OnUnsubscribe(pending, a);
    assert one.subscribers == [a.(isInactive := true), b];
    assert one.subscribers[1] == b && AnyActive(one.subscribers);
    var none := OnUnsubscribe(one, b);
    assert none.subscribers == [a.(isInactive := true), b.(isInactive := true)];
  }
}
