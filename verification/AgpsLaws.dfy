/** Who is told what by the AGPS machines, and which machine it concerns: each event's effect on the list and
  * on the callbacks, counted per callback, and what that makes of every run.
  */
module AgpsLaws {
  import opened Wrappers
  import opened AgpsModel
  import opened AgpsProperties

  // ---------------------------------------------------------------- counting callbacks

  /** How often exactly this callback has been made. */
  function Told(callbacks: seq<Callback>, c: Callback): nat {
    if callbacks == [] then 0 else
      Told(callbacks[..|callbacks| - 1], c) + (if callbacks[|callbacks| - 1] == c then 1 else 0)
  }

  /** How often a handle is listed among those with (or without) the inactive mark. */
  function Marked(subs: seq<Subscriber>, h: int, inactive: bool): nat {
    if subs == [] then 0 else
      (if subs[0].connHandle == h && subs[0].isInactive == inactive then 1 else 0) + Marked(subs[1..], h, inactive)
  }

  function Heard(subs: seq<Subscriber>, who: Audience, h: int): nat {
    match who
    case All => Marked(subs, h, true) + Marked(subs, h, false)
    case Inactive => Marked(subs, h, true)
    case Active => Marked(subs, h, false)
  }

  lemma ToldAppend(callbacks: seq<Callback>, last: Callback, c: Callback)
    ensures Told(callbacks + [last], c) == Told(callbacks, c) + (if last == c then 1 else 0)
  {
    assert (callbacks + [last])[..|callbacks|] == callbacks;
  }

  lemma LoggedCons(log: seq<Callback>, e: Event, s: Subscriber, rest: seq<Subscriber>, state: State, link: Link)
    requires e != Subscribe
    ensures Logged(log, e, [s] + rest, state, link) ==
            Logged(log + [CallbackFor(e, s.connHandle, state, link)], e, rest, state, link)
  {
    assert ([s] + rest)[1..] == rest;
  }

  lemma HeardCons(subs: seq<Subscriber>, who: Audience, h: int)
    requires subs != []
    ensures Heard(subs, who, h) ==
            Heard(subs[1..], who, h) + (if Hears(who, subs[0]) && subs[0].connHandle == h then 1 else 0)
  {
  }

  /** A walk makes its callback once for each listing in its audience, and no other. */
  lemma {:induction false} WalkTells(log: seq<Callback>, e: Event, subs: seq<Subscriber>, who: Audience, state: State,
                                     link: Link, c: Callback)
    requires e != Subscribe
    ensures Told(Logged(log, e, Filter(subs, who, true), state, link), c) ==
            Told(log, c)
            + (if c == CallbackFor(e, c.connHandle, state, link) then Heard(subs, who, c.connHandle) else 0)
    decreases |subs|
  {
    if subs != [] {
      var s := subs[0];
      var one := CallbackFor(e, s.connHandle, state, link);
      HeardCons(subs, who, c.connHandle);
      if Hears(who, s) {
        WalkTells(log + [one], e, subs[1..], who, state, link, c);
        ToldAppend(log, one, c);
        LoggedCons(log, e, s, Filter(subs[1..], who, true), state, link);
      } else {
        WalkTells(log, e, subs[1..], who, state, link, c);
      }
    }
  }

  // ---------------------------------------------------------------- each event

  /** A grant is for a pending machine only: each active listing hears of a successful open, with the parameters
    * just reported, and nobody hears anything else.
    */
  lemma GrantTells(m: Machine, c: Callback)
    ensures m.state != Pending ==> OnGranted(m) == m
    ensures m.state == Pending ==>
              var next := OnGranted(m);
              && next.state == Acquired && next.subscribers == m.subscribers && next.conns == m.conns
              && Told(next.callbacks, c) ==
                 Told(m.callbacks, c)
                 + (if c == OpenStatus(c.connHandle, true, Acquired, m.link)
                    then Marked(m.subscribers, c.connHandle, false) else 0)
  {
    WalkTells(m.callbacks, Granted, m.subscribers, Active, Acquired, m.link, c);
  }

  /** While a connection is being released, its end is told to those who wait for it; exactly the active
    * subscribers stay, and a connection is requested anew if there are any.
    */
  lemma FinishTells(m: Machine, c: Callback)
    requires m.state == Releasing
    ensures var next := FinishRelease(m);
            && Told(next.callbacks, c) ==
               Told(m.callbacks, c)
               + (if c == CloseStatus(c.connHandle, Releasing) then Marked(m.subscribers, c.connHandle, true) else 0)
            && (forall s :: s in next.subscribers <==> s in m.subscribers && !s.isInactive)
            && next.state == (if AnyActive(m.subscribers) then Pending else Released)
            && next.conns == (if AnyActive(m.subscribers) then m.conns + [m.link.RequestConn()] else m.conns)
  {
    WalkTells(m.callbacks, Closed, m.subscribers, Inactive, Releasing, m.link, c);
    var rest := Filter(m.subscribers, Inactive, false);
    forall s ensures s in rest <==> s in m.subscribers && !s.isInactive {
      FilterMember(m.subscribers, Inactive, false, s);
    }
    if rest != [] { assert rest[0] in rest; }
  }

  /** A closed connection is told to every listing, and nobody stays; a connection that is not up is not closed. */
  lemma CloseTells(m: Machine, c: Callback)
    ensures m.state == Releasing ==> OnClosed(m) == FinishRelease(m)
    ensures m.state == Pending || m.state == Released ==> OnClosed(m) == m
    ensures m.state == Acquired ==>
              var next := OnClosed(m);
              && next.state == Released && next.subscribers == [] && next.conns == m.conns
              && Told(next.callbacks, c) ==
                 Told(m.callbacks, c)
                 + (if c == CloseStatus(c.connHandle, Released) then Heard(m.subscribers, All, c.connHandle) else 0)
  {
    WalkTells(m.callbacks, Closed, m.subscribers, All, Released, m.link, c);
    AllHear(m.subscribers);
  }

  /** A denial is told to every listing as a failed open, and nobody stays. */
  lemma DenyTells(m: Machine, c: Callback)
    ensures m.state == Releasing ==> OnDenied(m) == FinishRelease(m)
    ensures m.state == Acquired || m.state == Released ==> OnDenied(m) == m
    ensures m.state == Pending ==>
              var next := OnDenied(m);
              && next.state == Released && next.subscribers == [] && next.conns == m.conns
              && Told(next.callbacks, c) ==
                 Told(m.callbacks, c)
                 + (if c == OpenStatus(c.connHandle, false, Released, m.link)
                    then Heard(m.subscribers, All, c.connHandle) else 0)
  {
    WalkTells(m.callbacks, Denied, m.subscribers, All, Released, m.link, c);
    AllHear(m.subscribers);
  }

  /** A subscription lists its handle and nobody leaves; it makes the framework's request exactly when there is no
    * connection.
    */
  lemma SubscribeLists(m: Machine, s: Subscriber)
    ensures var next := OnSubscribe(m, s);
            && Listed(next.subscribers, s.connHandle)
            && (forall t :: t in m.subscribers ==> t in next.subscribers)
            && (forall t :: t in next.subscribers && t !in m.subscribers ==>
                  t == s && !Listed(m.subscribers, s.connHandle))
            && next.state == (if m.state == Released then Pending else m.state)
            && next.conns == (if m.state == Released then m.conns + [m.link.RequestConn()] else m.conns)
  {
    var next := OnSubscribe(m, s);
    if !Listed(m.subscribers, s.connHandle) { assert next.subscribers[|m.subscribers|] == s; }
  }

  /** It is answered at once, with a successful open, exactly when the connection is up. */
  lemma SubscribeTells(m: Machine, s: Subscriber, c: Callback)
    ensures Told(OnSubscribe(m, s).callbacks, c) ==
            Told(m.callbacks, c)
            + (if m.state == Acquired && c == OpenStatus(s.connHandle, true, Acquired, m.link) then 1 else 0)
  {
    ToldAppend(m.callbacks, OpenStatus(s.connHandle, true, Acquired, m.link), c);
  }

  /** An unsubscription leaves the others as they are. Its own handle is gone, or waits inactive for the end of the
    * connection.
    */
  lemma UnsubscribeLeaves(m: Machine, s: Subscriber)
    requires s in m.subscribers && m.state != Released
    ensures var next := OnUnsubscribe(m, s);
            && (forall t: Subscriber :: t.connHandle != s.connHandle ==>
                  (t in next.subscribers <==> t in m.subscribers))
            && (if s.waitForCloseComplete then s.(isInactive := true) in next.subscribers
                else !Listed(next.subscribers, s.connHandle))
            && (forall t :: t in next.subscribers && t.connHandle == s.connHandle ==> t.isInactive)
  {
    LeaveMembers(m, s);
    assert OnUnsubscribe(m, s).subscribers == Leave(m, s).subscribers;
  }

  /** Only the one that is gone is told so. */
  lemma UnsubscribeTells(m: Machine, s: Subscriber, c: Callback)
    requires m.state != Released
    ensures Told(OnUnsubscribe(m, s).callbacks, c) ==
            Told(m.callbacks, c) + (if !s.waitForCloseComplete && c == CloseStatus(s.connHandle, m.state) then 1 else 0)
  {
    ToldAppend(m.callbacks, CloseStatus(s.connHandle, m.state), c);
    assert OnUnsubscribe(m, s).callbacks == Leave(m, s).callbacks;
  }

  lemma LeaveMembers(m: Machine, s: Subscriber)
    requires s in m.subscribers
    ensures var left := Leave(m, s);
            && (forall t: Subscriber :: t.connHandle != s.connHandle ==>
                  (t in left.subscribers <==> t in m.subscribers))
            && (if s.waitForCloseComplete then s.(isInactive := true) in left.subscribers
                else !Listed(left.subscribers, s.connHandle))
            && (forall t :: t in left.subscribers && t.connHandle == s.connHandle ==> t.isInactive)
  {
    var h, subs, next := s.connHandle, m.subscribers, Leave(m, s).subscribers;
    if s.waitForCloseComplete {
      MarkMembers(subs, s);
    } else {
      forall t ensures t in next <==> t in subs && t.connHandle != h { WithoutMember(subs, h, t); }
      forall i | 0 <= i < |next| ensures next[i].connHandle != h { assert next[i] in next; }
    }
  }

  lemma MarkMembers(subs: seq<Subscriber>, s: Subscriber)
    requires s in subs
    ensures var next := MarkInactive(subs, s.connHandle);
            && (forall t: Subscriber :: t.connHandle != s.connHandle ==> (t in next <==> t in subs))
            && s.(isInactive := true) in next
            && (forall t :: t in next && t.connHandle == s.connHandle ==> t.isInactive)
  {
    var next := MarkInactive(subs, s.connHandle);
    forall t: Subscriber | t.connHandle != s.connHandle ensures t in next <==> t in subs {
      if t in subs {
        var i :| 0 <= i < |subs| && subs[i] == t;
        assert next[i] == t;
      }
    }
    var i :| 0 <= i < |subs| && subs[i] == s;
    assert next[i] == s.(isInactive := true);
  }

  /** Somebody else on the list is active. */
  ghost predicate OthersActive(m: Machine, h: int) {
    exists t :: t in m.subscribers && t.connHandle != h && !t.isInactive
  }

  /** The connection is given up exactly when the last active subscriber leaves; the machine then waits for its end
    * if somebody is still listed. While it waits, only an empty list ends that.
    */
  lemma UnsubscribeReleases(m: Machine, s: Subscriber)
    requires s in m.subscribers && m.state != Released
    ensures var next := OnUnsubscribe(m, s);
            if m.state == Releasing then
              next.conns == m.conns && next.state == (if next.subscribers == [] then Released else Releasing)
            else if OthersActive(m, s.connHandle) then next.conns == m.conns && next.state == m.state
            else
              && next.conns == m.conns + [m.link.ReleaseConn()]
              && next.state == (if next.subscribers == [] then Released else Releasing)
  {
    var left := Leave(m, s);
    LeaveMembers(m, s);
    if OthersActive(m, s.connHandle) {
      var t :| t in m.subscribers && t.connHandle != s.connHandle && !t.isInactive;
      assert t in left.subscribers;
    }
    if AnyActive(left.subscribers) {
      var i :| 0 <= i < |left.subscribers| && !left.subscribers[i].isInactive;
      assert left.subscribers[i] in left.subscribers;
    }
  }

  /** Without a connection an unsubscription is answered and changes nothing. */
  lemma UnsubscribeReleased(m: Machine, s: Subscriber)
    requires m.state == Released
    ensures OnUnsubscribe(m, s) == m.(callbacks := m.callbacks + [CloseStatus(s.connHandle, Released)])
  {
  }

  /** A modem restart is silent. */
  lemma RestartIsSilent(m: Machine)
    ensures DropAll(m).subscribers == [] && DropAll(m).state == m.state
    ensures DropAll(m).callbacks == m.callbacks && DropAll(m).conns == m.conns
  {
  }

  // ---------------------------------------------------------------- who holds an open connection

  /** The latest callback for a handle. */
  function LastOf(callbacks: seq<Callback>, h: int): Option<Callback> {
    if callbacks == [] then None
    else if callbacks[|callbacks| - 1].connHandle == h then Some(callbacks[|callbacks| - 1])
    else LastOf(callbacks[..|callbacks| - 1], h)
  }

  /** The handle has been told of an open connection, and of nothing since. */
  predicate IsOpen(m: Machine, h: int) {
    LastOf(m.callbacks, h).Some? && LastOf(m.callbacks, h).value.OpenStatus? && LastOf(m.callbacks, h).value.success
  }

  lemma LastAppend(callbacks: seq<Callback>, c: Callback, h: int)
    ensures LastOf(callbacks + [c], h) == if c.connHandle == h then Some(c) else LastOf(callbacks, h)
  {
    assert (callbacks + [c])[..|callbacks|] == callbacks;
  }

  lemma {:induction false} LastLogged(log: seq<Callback>, e: Event, subs: seq<Subscriber>, state: State, link: Link,
                                      h: int)
    requires e != Subscribe
    ensures LastOf(Logged(log, e, subs, state, link), h) ==
            if Listed(subs, h) then Some(CallbackFor(e, h, state, link)) else LastOf(log, h)
    decreases |subs|
  {
    if subs != [] {
      var c := CallbackFor(e, subs[0].connHandle, state, link);
      LastLogged(log + [c], e, subs[1..], state, link, h);
      LastAppend(log, c, h);
      ListedCons(subs, h);
    }
  }

  lemma ListedCons(subs: seq<Subscriber>, h: int)
    requires subs != []
    ensures Listed(subs, h) <==> subs[0].connHandle == h || Listed(subs[1..], h)
  {
    if Listed(subs, h) && subs[0].connHandle != h {
      var i :| 0 <= i < |subs| && subs[i].connHandle == h;
      assert subs[1..][i - 1].connHandle == h;
    }
    if Listed(subs[1..], h) {
      var i :| 0 <= i < |subs| - 1 && subs[1..][i].connHandle == h;
      assert subs[i + 1].connHandle == h;
    }
  }

  lemma ListedIsMember(subs: seq<Subscriber>, h: int)
    ensures Listed(subs, h) <==> exists s :: s in subs && s.connHandle == h
  {
    if Listed(subs, h) {
      var i :| 0 <= i < |subs| && subs[i].connHandle == h;
      assert subs[i] in subs;
    }
  }

  /** In ACQUIRED every active subscriber holds an open connection. */
  ghost predicate OpenInv(m: Machine) {
    m.state == Acquired ==> forall s :: s in m.subscribers && !s.isInactive ==> IsOpen(m, s.connHandle)
  }

  /** Nobody else does: no handle that is not listed, nobody in PENDING, and no active subscriber in RELEASING. */
  ghost predicate ClosedInv(m: Machine) {
    && (forall h :: !Listed(m.subscribers, h) ==> !IsOpen(m, h))
    && (m.state == Pending ==> forall h :: !IsOpen(m, h))
    && (m.state == Releasing ==> forall s :: s in m.subscribers && !s.isInactive ==> !IsOpen(m, s.connHandle))
  }

  lemma SubscribeKeepsOpen(m: Machine, s: Subscriber)
    requires Inv(m) && OpenInv(m)
    ensures OpenInv(OnSubscribe(m, s)) && (ClosedInv(m) ==> ClosedInv(OnSubscribe(m, s)))
  {
    var next := OnSubscribe(m, s);
    forall h ensures IsOpen(next, h) <==> IsOpen(m, h) || (m.state == Acquired && h == s.connHandle) {
      LastAppend(m.callbacks, OpenStatus(s.connHandle, true, Acquired, m.link), h);
    }
    SubscribeLists(m, s);
    forall h ensures Listed(next.subscribers, h) <==> Listed(m.subscribers, h) || h == s.connHandle {
      ListedIsMember(m.subscribers, h);
      ListedIsMember(next.subscribers, h);
    }
    if ClosedInv(m) && m.state == Releasing {
      forall t | t in next.subscribers && !t.isInactive ensures !IsOpen(next, t.connHandle) {
        assert t !in m.subscribers ==> !Listed(m.subscribers, t.connHandle);
      }
    }
  }

  lemma UnsubscribeKeepsOpen(m: Machine, s: Subscriber)
    requires Inv(m) && OpenInv(m) && s in m.subscribers && m.state != Released
    ensures OpenInv(OnUnsubscribe(m, s)) && (ClosedInv(m) ==> ClosedInv(OnUnsubscribe(m, s)))
  {
    var next, h0 := OnUnsubscribe(m, s), s.connHandle;
    UnsubscribeLeaves(m, s);
    forall h ensures IsOpen(next, h) <==> IsOpen(m, h) && (s.waitForCloseComplete || h != h0) {
      LastAppend(m.callbacks, CloseStatus(h0, m.state), h);
    }
    forall h ensures Listed(next.subscribers, h) <==> Listed(m.subscribers, h) && (s.waitForCloseComplete || h != h0) {
      ListedIsMember(m.subscribers, h);
      ListedIsMember(next.subscribers, h);
    }
    UnsubscribeStates(m, s);
    forall t | t in next.subscribers && !t.isInactive ensures t in m.subscribers && t.connHandle != h0 {
    }
  }

  /** Releasing a connection leaves no active subscriber behind. */
  lemma UnsubscribeStates(m: Machine, s: Subscriber)
    requires m.state != Released
    ensures var next := OnUnsubscribe(m, s);
            && (next.state == Acquired || next.state == Pending ==> next.state == m.state)
            && (next.state == Releasing && m.state != Releasing ==> !AnyActive(next.subscribers))
            && (next.state == Released ==> next.subscribers == [])
  {
  }

  lemma GrantKeepsOpen(m: Machine)
    requires Inv(m) && OpenInv(m)
    ensures OpenInv(OnGranted(m)) && (ClosedInv(m) ==> ClosedInv(OnGranted(m)))
  {
    if m.state == Pending {
      var next, active := OnGranted(m), Filter(m.subscribers, Active, true);
      forall h ensures IsOpen(next, h) <==> Listed(active, h) || IsOpen(m, h) {
        LastLogged(m.callbacks, Granted, active, Acquired, m.link, h);
      }
      forall s ensures s in active <==> s in m.subscribers && !s.isInactive {
        FilterMember(m.subscribers, Active, true, s);
      }
      forall h ensures Listed(active, h) ==> Listed(m.subscribers, h) {
        ListedIsMember(active, h);
        ListedIsMember(m.subscribers, h);
      }
      forall s | s in m.subscribers && !s.isInactive ensures Listed(active, s.connHandle) {
        ListedIsMember(active, s.connHandle);
      }
    }
  }

  lemma FinishKeepsOpen(m: Machine)
    requires m.state == Releasing
    ensures OpenInv(FinishRelease(m)) && (ClosedInv(m) ==> ClosedInv(FinishRelease(m)))
  {
    var next, waiting := FinishRelease(m), Filter(m.subscribers, Inactive, true);
    FinishTells(m, CloseStatus(0, Released));
    forall h ensures IsOpen(next, h) <==> IsOpen(m, h) && !Listed(waiting, h) {
      LastLogged(m.callbacks, Closed, waiting, Releasing, m.link, h);
    }
    forall s ensures s in waiting <==> s in m.subscribers && s.isInactive {
      FilterMember(m.subscribers, Inactive, true, s);
    }
    if ClosedInv(m) {
      forall h ensures !IsOpen(next, h) {
        ListedIsMember(waiting, h);
        ListedIsMember(m.subscribers, h);
      }
    }
  }

  /** An event that tells everybody the end, and keeps nobody. */
  lemma EndKeepsOpen(m: Machine, e: Event)
    requires e == Closed || e == Denied
    ensures var next := TellAll(m.(state := Released), e, true, All);
            OpenInv(next) && (ClosedInv(m) ==> ClosedInv(next))
  {
    var next := TellAll(m.(state := Released), e, true, All);
    AllHear(m.subscribers);
    forall h ensures IsOpen(next, h) <==> IsOpen(m, h) && !Listed(m.subscribers, h) {
      LastLogged(m.callbacks, e, m.subscribers, Released, m.link, h);
    }
  }

  lemma EventsKeepOpen(m: Machine)
    requires Inv(m) && OpenInv(m)
    ensures OpenInv(OnGranted(m)) && OpenInv(OnClosed(m)) && OpenInv(OnDenied(m)) && OpenInv(DropAll(m))
    ensures ClosedInv(m) ==> ClosedInv(OnGranted(m)) && ClosedInv(OnClosed(m)) && ClosedInv(OnDenied(m))
  {
    GrantKeepsOpen(m);
    if m.state == Releasing { FinishKeepsOpen(m); }
    if m.state == Acquired { EndKeepsOpen(m, Closed); }
    if m.state == Pending { EndKeepsOpen(m, Denied); }
  }

  // ---------------------------------------------------------------- over every run

  ghost predicate ManagerOpen(mgr: Manager) {
    && (mgr.agnss.Some? ==> OpenInv(mgr.agnss.value))
    && (mgr.internet.Some? ==> OpenInv(mgr.internet.value))
  }

  ghost predicate ManagerClosed(mgr: Manager) {
    && (mgr.agnss.Some? ==> ClosedInv(mgr.agnss.value))
    && (mgr.internet.Some? ==> ClosedInv(mgr.internet.value))
  }

  /** The connection's parameters do not matter. */
  lemma OpenFrame(m: Machine, next: Machine)
    requires next == m.(link := next.link)
    ensures (OpenInv(m) ==> OpenInv(next)) && (ClosedInv(m) ==> ClosedInv(next))
  {
    assert forall h :: IsOpen(next, h) == IsOpen(m, h);
  }

  lemma PutOpen(mgr: Manager, nif: Nif, next: Machine)
    requires ManagerOpen(mgr) && mgr.Get(nif).Some? && OpenInv(next)
    requires ClosedInv(mgr.Get(nif).value) ==> ClosedInv(next)
    ensures ManagerOpen(mgr.Put(nif, next)) && (ManagerClosed(mgr) ==> ManagerClosed(mgr.Put(nif, next)))
  {
  }

  lemma RequestKeepsOpen(mgr: Manager, h: int, t: AgpsType, mask: bv32)
    requires ManagerInv(mgr) && ManagerOpen(mgr)
    ensures var next := Step(mgr, RequestAtl(h, t, mask));
            ManagerOpen(next) && (ManagerClosed(mgr) ==> ManagerClosed(next))
  {
    var t', mask' := EffectiveType(mgr.emergencyPdn, t), RequestMask(mgr.emergencyPdn, t, mask);
    var nif, s := NifFor(t'), Subscriber(h, true, false, mask');
    if mgr.Get(nif).Some? {
      var m := Asked(mgr.Get(nif).value, t', mask');
      LinkFrame(mgr.Get(nif).value, m);
      OpenFrame(mgr.Get(nif).value, m);
      SubscribeKeepsOpen(m, s);
      PutOpen(mgr, nif, OnSubscribe(m, s));
    }
  }

  lemma ReleaseKeepsOpen(mgr: Manager, h: int)
    requires ManagerInv(mgr) && ManagerOpen(mgr)
    ensures var next := Step(mgr, ReleaseAtl(h));
            ManagerOpen(next) && (ManagerClosed(mgr) ==> ManagerClosed(next))
  {
    var nif := Holder(mgr, h);
    if nif.Some? {
      var m := mgr.Get(nif.value).value;
      var s := Find(m.subscribers, h).value;
      UnsubscribeKeepsOpen(m, s);
      PutOpen(mgr, nif.value, OnUnsubscribe(m, s));
    }
  }

  lemma ReportKeepsOpen(mgr: Manager, i: Input)
    requires Accepts(mgr, i) && ManagerInv(mgr) && ManagerOpen(mgr)
    requires i.OpenSuccess? || i.OpenFailed? || i.AtlClosed?
    ensures ManagerOpen(Step(mgr, i)) && (ManagerClosed(mgr) ==> ManagerClosed(Step(mgr, i)))
  {
    var nif := NifFor(i.agpsType);
    var m := mgr.Get(nif).value;
    match i
    case OpenSuccess(t, apn, len, bearer) =>
      var up := Opened(m, apn, len, bearer);
      LinkFrame(m, up);
      OpenFrame(m, up);
      EventsKeepOpen(up);
      PutOpen(mgr, nif, OnGranted(up));
    case OpenFailed(t) =>
      EventsKeepOpen(m);
      PutOpen(mgr, nif, OnDenied(m));
    case AtlClosed(t) =>
      EventsKeepOpen(m);
      PutOpen(mgr, nif, OnClosed(m));
  }

  lemma StepKeepsOpen(mgr: Manager, i: Input)
    requires Accepts(mgr, i) && ManagerInv(mgr) && ManagerOpen(mgr)
    ensures ManagerOpen(Step(mgr, i)) && (ManagerClosed(mgr) && !i.ModemSsr? ==> ManagerClosed(Step(mgr, i)))
  {
    match i
    case RequestAtl(h, t, mask) => RequestKeepsOpen(mgr, h, t, mask);
    case ReleaseAtl(h) => ReleaseKeepsOpen(mgr, h);
    case ModemSsr =>
    case _ => ReportKeepsOpen(mgr, i);
  }

  /** In every reachable state, restarts included, each active subscriber of a machine in ACQUIRED holds an open
    * connection.
    */
  lemma {:induction false} RunKeepsOpen(mgr: Manager, inputs: seq<Input>)
    requires IsFresh(mgr) && forall i :: i in inputs ==> Accepts(mgr, i)
    ensures ManagerOpen(Run(mgr, inputs))
    ensures (forall i :: i in inputs ==> !i.ModemSsr?) ==> ManagerClosed(Run(mgr, inputs))
  {
    if inputs != [] {
      var init, last := inputs[..|inputs| - 1], inputs[|inputs| - 1];
      RunKeepsOpen(mgr, init);
      RunKeepsInv(mgr, init);
      assert Accepts(mgr, last) && Accepts(Run(mgr, init), last);
      StepKeepsOpen(Run(mgr, init), last);
    }
  }

  /** In every run without a restart, an active subscriber holds an open connection if and only if its machine is
    * in ACQUIRED.
    */
  lemma ActiveIsOpenIff(mgr: Manager, inputs: seq<Input>, nif: Nif, s: Subscriber)
    requires IsFresh(mgr) && forall i :: i in inputs ==> Accepts(mgr, i) && !i.ModemSsr?
    requires mgr.Get(nif).Some? && s in Run(mgr, inputs).Get(nif).value.subscribers && !s.isInactive
    ensures var m := Run(mgr, inputs).Get(nif).value;
            IsOpen(m, s.connHandle) <==> m.state == Acquired
  {
    RunKeepsOpen(mgr, inputs);
    RunKeepsInv(mgr, inputs);
  }

  // ---------------------------------------------------------------- which machine it concerns

  /** The AGNSS machine serves SUPL, emergency SUPL and requests without a type; the other one all others. */
  predicate Serves(nif: Nif, t: AgpsType) {
    if nif.Agnss? then t in {Invalid, Supl, SuplEs} else t in {Any, C2k, WwanAny, Wifi}
  }

  /** Without an emergency PDN emergency SUPL is plain SUPL; no other type is rewritten, and the rewriting never
    * changes the machine.
    */
  lemma TypeRewriting(emergencyPdn: bool, t: AgpsType)
    ensures var t' := EffectiveType(emergencyPdn, t);
            && NifFor(t') == NifFor(t) && Serves(NifFor(t), t)
            && (emergencyPdn || t != SuplEs ==> t' == t)
            && (!emergencyPdn && t == SuplEs ==> t' == Supl)
  {
  }

  /** With it, the emergency bit of the APN types is exchanged for the SUPL bit, and no other bit changes. */
  lemma MaskRewriting(emergencyPdn: bool, t: AgpsType, mask: bv32)
    ensures emergencyPdn || t != SuplEs ==> RequestMask(emergencyPdn, t, mask) == mask
    ensures !emergencyPdn && t == SuplEs ==> IsExchanged(RequestMask(emergencyPdn, t, mask), mask)
  {
    if !emergencyPdn && t == SuplEs { ExchangedBits(mask); }
  }

  predicate IsExchanged(now: bv32, mask: bv32) {
    now & 0x0000_0200 == 0 && now & 0x0000_0010 == 0x0000_0010 && now & 0xFFFF_FDEF == mask & 0xFFFF_FDEF
  }

  lemma ExchangedBits(mask: bv32)
    ensures IsExchanged((mask & !LOC_APN_TYPE_MASK_EMERGENCY) | LOC_APN_TYPE_MASK_SUPL, mask)
  {
  }

  /** A machine's own type is always one it serves. */
  ghost predicate TypesFit(mgr: Manager) {
    && (mgr.agnss.Some? ==> Serves(Agnss, mgr.agnss.value.link.agpsType))
    && (mgr.internet.Some? ==> Serves(Internet, mgr.internet.value.link.agpsType))
  }

  lemma RunKeepsTypes(mgr: Manager, inputs: seq<Input>)
    requires TypesFit(mgr) && forall i :: i in inputs ==> Accepts(mgr, i)
    ensures TypesFit(Run(mgr, inputs))
  {
    if mgr.agnss.Some? {
      LinkFollowsRequests(mgr, inputs, Agnss);
      LastServedFits(mgr.emergencyPdn, inputs, Agnss);
    }
    if mgr.internet.Some? {
      LinkFollowsRequests(mgr, inputs, Internet);
      LastServedFits(mgr.emergencyPdn, inputs, Internet);
    }
  }

  lemma {:induction false} LastServedFits(emergencyPdn: bool, inputs: seq<Input>, nif: Nif)
    ensures LastServed(emergencyPdn, inputs, nif).Some? ==> Serves(nif, LastServed(emergencyPdn, inputs, nif).value.0)
  {
    if inputs != [] {
      LastServedFits(emergencyPdn, inputs[..|inputs| - 1], nif);
      var last := inputs[|inputs| - 1];
      if last.RequestAtl? { TypeRewriting(emergencyPdn, EffectiveType(emergencyPdn, last.agpsType)); }
    }
  }

  /** An input for one machine leaves the other alone; a request that no machine serves is refused with its
    * rewritten type and APN types, and nothing else is.
    */
  lemma StepTouchesOne(mgr: Manager, i: Input, nif: Nif)
    requires Accepts(mgr, i)
    ensures (i.RequestAtl? || i.OpenSuccess? || i.OpenFailed? || i.AtlClosed?) && !Serves(nif, i.agpsType) ==>
              Step(mgr, i).Get(nif) == mgr.Get(nif)
    ensures Step(mgr, i).refused ==
            if i.RequestAtl? && mgr.Get(if Serves(Agnss, i.agpsType) then Agnss else Internet).None?
            then mgr.refused + [(i.connHandle, EffectiveType(mgr.emergencyPdn, i.agpsType),
                                 RequestMask(mgr.emergencyPdn, i.agpsType, i.apnTypeMask))]
            else mgr.refused
  {
  }

  /** Each report reaches the machine that serves its type, as the event of its name; a modem restart reaches both. */
  lemma ReportReaches(mgr: Manager, i: Input, nif: Nif)
    requires Accepts(mgr, i) && mgr.Get(nif).Some?
    ensures var next, m := Step(mgr, i).Get(nif), mgr.Get(nif).value;
            && (i.OpenFailed? && Serves(nif, i.agpsType) ==> next == Some(OnDenied(m)))
            && (i.AtlClosed? && Serves(nif, i.agpsType) ==> next == Some(OnClosed(m)))
            && (i.ModemSsr? ==> next == Some(DropAll(m)))
  {
  }

  /** No entry of the handle is active any more. */
  ghost predicate GivenUp(m: Option<Machine>, h: int) {
    m.Some? && forall s :: s in m.value.subscribers && s.connHandle == h ==> s.isInactive
  }

  /** A release goes to the AGNSS machine if that lists the handle, otherwise to the other one if that does; a
    * machine it does not go to stays as it is.
    */
  lemma ReleaseGoesTo(mgr: Manager, h: int)
    requires ManagerInv(mgr)
    ensures var next := Step(mgr, ReleaseAtl(h));
            if mgr.agnss.Some? && Listed(mgr.agnss.value.subscribers, h) then
              next.internet == mgr.internet && GivenUp(next.agnss, h)
            else if mgr.internet.Some? && Listed(mgr.internet.value.subscribers, h) then
              next.agnss == mgr.agnss && GivenUp(next.internet, h)
            else next == mgr
  {
    var nif := Holder(mgr, h);
    if nif.Some? {
      var m := mgr.Get(nif.value).value;
      UnsubscribeLeaves(m, Find(m.subscribers, h).value);
    }
  }

  /** The access point and the bearer reported by the latest successful open of a machine's types. */
  function LastOpened(inputs: seq<Input>, nif: Nif): Option<(Option<string>, nat, nat)> {
    if inputs == [] then None else
      var last := inputs[|inputs| - 1];
      if last.OpenSuccess? && Serves(nif, last.agpsType) then Some((last.apn, last.len, last.bearer))
      else LastOpened(inputs[..|inputs| - 1], nif)
  }

  /** In every reachable state a machine's bearer is that of the latest successful open; so is its access point
    * name, if it was given with its own length and has at most 100 characters, and else there is none.
    */
  lemma {:induction false} LinkFollowsOpens(mgr: Manager, inputs: seq<Input>, nif: Nif)
    requires (forall i :: i in inputs ==> Accepts(mgr, i)) && mgr.Get(nif).Some?
    ensures var link, latest := Run(mgr, inputs).Get(nif).value.link, LastOpened(inputs, nif);
            if latest.None? then
              link.apn == mgr.Get(nif).value.link.apn && link.bearer == mgr.Get(nif).value.link.bearer
            else
              && link.bearer == latest.value.2
              && forall name :: link.apn == Some(name) <==>
                   latest.value.0 == Some(name) && |name| == latest.value.1 && |name| <= 100
  {
    if inputs != [] {
      var init, last := inputs[..|inputs| - 1], inputs[|inputs| - 1];
      LinkFollowsOpens(mgr, init, nif);
      assert Accepts(mgr, last) && Accepts(Run(mgr, init), last);
      StepOpens(Run(mgr, init), last, nif);
    }
  }

  predicate SameOpened(link: Link, before: Link) { link.bearer == before.bearer && link.apn == before.apn }

  lemma RequestKeepsOpened(mgr: Manager, h: int, t: AgpsType, mask: bv32, nif: Nif)
    requires mgr.Get(nif).Some?
    ensures var next := Step(mgr, RequestAtl(h, t, mask)).Get(nif);
            next.Some? && SameOpened(next.value.link, mgr.Get(nif).value.link)
  {
    var t', mask' := EffectiveType(mgr.emergencyPdn, t), RequestMask(mgr.emergencyPdn, t, mask);
    if mgr.Get(NifFor(t')).Some? {
      EventsKeepLink(Asked(mgr.Get(NifFor(t')).value, t', mask'), Subscriber(h, true, false, mask'));
    }
  }

  lemma ReleaseKeepsOpened(mgr: Manager, h: int, nif: Nif)
    requires mgr.Get(nif).Some?
    ensures var next := Step(mgr, ReleaseAtl(h)).Get(nif);
            next.Some? && SameOpened(next.value.link, mgr.Get(nif).value.link)
  {
    var holder := Holder(mgr, h);
    if holder.Some? {
      var m := mgr.Get(holder.value).value;
      EventsKeepLink(m, Find(m.subscribers, h).value);
    }
  }

  lemma StepOpens(mgr: Manager, i: Input, nif: Nif)
    requires Accepts(mgr, i) && mgr.Get(nif).Some?
    ensures Step(mgr, i).Get(nif).Some?
    ensures var link, before := Step(mgr, i).Get(nif).value.link, mgr.Get(nif).value.link;
            if i.OpenSuccess? && Serves(nif, i.agpsType)
            then link.bearer == i.bearer && link.apn == CheckedApn(i.apn, i.len)
            else link.bearer == before.bearer && link.apn == before.apn
  {
    match i
    case RequestAtl(h, t, mask) => RequestKeepsOpened(mgr, h, t, mask, nif);
    case ReleaseAtl(h) => ReleaseKeepsOpened(mgr, h, nif);
    case OpenSuccess(t, apn, len, bearer) =>
      EventsKeepLink(Opened(mgr.Get(NifFor(t)).value, apn, len, bearer), Subscriber(0, true, false, 0));
    case OpenFailed(t) => EventsKeepLink(mgr.Get(NifFor(t)).value, Subscriber(0, true, false, 0));
    case AtlClosed(t) => EventsKeepLink(mgr.Get(NifFor(t)).value, Subscriber(0, true, false, 0));
    case ModemSsr =>
  }
}
