/** The state machine and the manager of gps/gnss/Agps.cpp as objects. Every handler is proved to take
  * the object's view from one value of AgpsModel to the next.
  */
module Agps {
  import opened Wrappers
  import opened AgpsModel

  // ---------------------------------------------------------------- the list walks

  /** The element behind a prefix, erasing it, and stepping over it. */
  lemma AtIterator<T>(list: seq<T>, kept: seq<T>, rest: seq<T>)
    requires list == kept + rest && rest != []
    ensures list[|kept|] == rest[0]
    ensures list[..|kept|] + list[|kept| + 1..] == kept + rest[1..]
    ensures list == (kept + [rest[0]]) + rest[1..]
  {
  }

  lemma AppendFirst<T>(kept: seq<T>, x: T, rest: seq<T>)
    ensures (kept + [x]) + rest == kept + ([x] + rest)
  {
  }

  /** What is left to do when an erasing walk stands behind `kept` and in front of `rest`. */
  function Walk(e: Event, delete: bool, who: Audience, state: State, link: Link,
                log: seq<Callback>, kept: seq<Subscriber>, rest: seq<Subscriber>): (seq<Callback>, seq<Subscriber>)
    requires e != Subscribe
    decreases |rest|
  {
    if rest == [] then (log, kept) else
      var s := rest[0];
      var heard := Hears(who, s);
      Walk(e, delete, who, state, link,
           if heard then log + [CallbackFor(e, s.connHandle, state, link)] else log,
           if heard && delete then kept else kept + [s],
           rest[1..])
  }

  /** The walk tells exactly the audience, in list order, and keeps exactly the others (or all). */
  lemma {:induction false} WalkTellsAudience(e: Event, delete: bool, who: Audience, state: State, link: Link,
                                             log: seq<Callback>, kept: seq<Subscriber>, rest: seq<Subscriber>)
    requires e != Subscribe
    ensures Walk(e, delete, who, state, link, log, kept, rest) ==
            (Logged(log, e, Filter(rest, who, true), state, link),
             kept + (if delete then Filter(rest, who, false) else rest))
    decreases |rest|
  {
    if rest == [] {
      assert kept + [] == kept;
    } else {
      var s := rest[0];
      var heard := Hears(who, s);
      var log' := if heard then log + [CallbackFor(e, s.connHandle, state, link)] else log;
      var kept' := if heard && delete then kept else kept + [s];
      WalkTellsAudience(e, delete, who, state, link, log', kept', rest[1..]);
      AppendFirst(kept, s, if delete then Filter(rest[1..], who, false) else rest[1..]);
      assert rest == [s] + rest[1..];
      if heard {
        assert Filter(rest, who, true)[0] == s && Filter(rest, who, true)[1..] == Filter(rest[1..], who, true);
      }
    }
  }

  class AgpsStateMachine {
    var mState: State
    var mAgpsType: AgpsType
    var mApnTypeMask: bv32
    var mAPN: Option<string>
    var mBearer: nat
    var mSubscriberList: seq<Subscriber>
    // What the callbacks to the manager and to the framework have been given so far.
    ghost var callbacks: seq<Callback>
    ghost var conns: seq<DataConn>
    ghost var added: seq<int>
    ghost var dropped: seq<int>

    ghost function View(): Machine
      reads this
    {
      Machine(mState, LinkNow(), mSubscriberList, callbacks, conns, added, dropped)
    }

    ghost function LinkNow(): Link
      reads this`mAgpsType, this`mApnTypeMask, this`mAPN, this`mBearer
    {
      Link(mAgpsType, mApnTypeMask, mAPN, mBearer)
    }

    /** The APN type mask is not initialised: it is whatever it happens to be. */
    constructor (agpsType: AgpsType, anyMask: bv32)
      ensures View() == Fresh(Link(agpsType, anyMask, None, AGPS_APN_BEARER_INVALID))
    {
      mAgpsType, mApnTypeMask, mAPN, mBearer := agpsType, anyMask, None, AGPS_APN_BEARER_INVALID;
      mState, mSubscriberList := Released, [];
      callbacks, conns, added, dropped := [], [], [], [];
    }

    // -------------------------------------------------------------- helpers

    method SetAPN(apn: Option<string>, len: nat)
      modifies this`mAPN
      ensures mAPN == CheckedApn(apn, len)
    {
      if apn.None? || len > MAX_APN_LEN || |apn.value| != len {
        mAPN := None;
      } else {
        assert apn.value[..len] == apn.value;
        mAPN := Some(apn.value[..len]);
      }
    }

    method AddSubscriber(s: Subscriber)
      modifies this
      ensures View() == Add(old(View()), s)
    {
      var it := 0;
      while it < |mSubscriberList|
        invariant 0 <= it <= |mSubscriberList| && View() == old(View())
        invariant forall k :: 0 <= k < it ==> mSubscriberList[k].connHandle != s.connHandle
      {
        if mSubscriberList[it].connHandle == s.connHandle {
          return;
        }
        it := it + 1;
      }
      mSubscriberList := mSubscriberList + [s];
      added := added + [s.connHandle];
    }

    method DeleteSubscriber(h: int)
      modifies this`mSubscriberList
      ensures mSubscriberList == Without(old(mSubscriberList), h)
    {
      var it := 0;
      ghost var kept, rest := [], mSubscriberList;
      while it < |mSubscriberList|
        invariant mSubscriberList == kept + rest && it == |kept|
        invariant kept + Without(rest, h) == Without(old(mSubscriberList), h)
        decreases |rest|
      {
        AtIterator(mSubscriberList, kept, rest);
        AppendFirst(kept, rest[0], Without(rest[1..], h));
        if mSubscriberList[it].connHandle == h {
          mSubscriberList := mSubscriberList[..it] + mSubscriberList[it + 1..];
        } else {
          it, kept := it + 1, kept + [rest[0]];
        }
        rest := rest[1..];
      }
      assert rest == [];
    }

    method AnyActiveSubscribers() returns (any: bool)
      ensures any == AnyActive(mSubscriberList)
    {
      var it := 0;
      while it < |mSubscriberList|
        invariant 0 <= it <= |mSubscriberList|
        invariant forall k :: 0 <= k < it ==> mSubscriberList[k].isInactive
      {
        if !mSubscriberList[it].isInactive {
          return true;
        }
        it := it + 1;
      }
      return false;
    }

    method GetSubscriber(h: int) returns (r: Option<Subscriber>)
      ensures r == Find(mSubscriberList, h)
    {
      var it := 0;
      while it < |mSubscriberList|
        invariant 0 <= it <= |mSubscriberList|
        invariant Find(mSubscriberList, h) == Find(mSubscriberList[it..], h)
      {
        if mSubscriberList[it].connHandle == h {
          return Some(mSubscriberList[it]);
        }
        assert mSubscriberList[it..][1..] == mSubscriberList[it + 1..];
        it := it + 1;
      }
      return None;
    }

    method RequestOrReleaseDataConn(request: bool)
      modifies this`conns
      ensures conns == old(conns) + [if request then LinkNow().RequestConn() else LinkNow().ReleaseConn()]
    {
      conns := conns + [if request then Request(mAgpsType, mApnTypeMask) else Release(mAgpsType, mApnTypeMask)];
    }

    method NotifyEventToSubscriber(e: Event, h: int, deletePostNotify: bool)
      requires e != Subscribe
      modifies this`callbacks, this`mSubscriberList
      ensures callbacks == old(callbacks) + [CallbackFor(e, h, mState, LinkNow())]
      ensures mSubscriberList == if deletePostNotify then Without(old(mSubscriberList), h) else old(mSubscriberList)
    {
      callbacks := callbacks + [CallbackFor(e, h, mState, LinkNow())];
      if deletePostNotify {
        DeleteSubscriber(h);
      }
    }

    /** The notifying walk's step: the iterator moves on, or stays where an entry was erased. */
    method NotifyAt(e: Event, deletePostNotify: bool, who: Audience, it: nat) returns (next: nat)
      requires e != Subscribe && it < |mSubscriberList|
      modifies this`callbacks, this`mSubscriberList
      ensures var s := old(mSubscriberList)[it];
              && callbacks ==
                 (if Hears(who, s) then old(callbacks) + [CallbackFor(e, s.connHandle, mState, LinkNow())]
                  else old(callbacks))
              && if Hears(who, s) && deletePostNotify
                 then next == it && mSubscriberList == old(mSubscriberList)[..it] + old(mSubscriberList)[it + 1..]
                 else next == it + 1 && mSubscriberList == old(mSubscriberList)
    {
      var subscriber := mSubscriberList[it];
      if Hears(who, subscriber) {
        NotifyEventToSubscriber(e, subscriber.connHandle, false);
        if deletePostNotify {
          mSubscriberList := mSubscriberList[..it] + mSubscriberList[it + 1..];
          return it;
        }
      }
      return it + 1;
    }

    method NotifyAllSubscribers(e: Event, deletePostNotify: bool, who: Audience)
      requires e != Subscribe
      modifies this`callbacks, this`mSubscriberList
      ensures View() == TellAll(old(View()), e, deletePostNotify, who)
    {
      NotifyAndErase(e, deletePostNotify, who);
      WalkTellsAudience(e, deletePostNotify, who, mState, LinkNow(), old(callbacks), [], old(mSubscriberList));
    }

    /** The walk itself, from the first entry. */
    method NotifyAndErase(e: Event, deletePostNotify: bool, who: Audience)
      requires e != Subscribe
      modifies this`callbacks, this`mSubscriberList
      ensures (callbacks, mSubscriberList) ==
              Walk(e, deletePostNotify, who, mState, LinkNow(), old(callbacks), [], old(mSubscriberList))
    {
      var it := 0;
      ghost var kept, rest, state, link := [], mSubscriberList, mState, LinkNow();
      ghost var result := Walk(e, deletePostNotify, who, state, link, callbacks, kept, rest);
      while it < |mSubscriberList|
        invariant mSubscriberList == kept + rest && it == |kept|
        invariant Walk(e, deletePostNotify, who, state, link, callbacks, kept, rest) == result
        decreases |rest|
      {
        AtIterator(mSubscriberList, kept, rest);
        it := NotifyAt(e, deletePostNotify, who, it);
        kept := if Hears(who, rest[0]) && deletePostNotify then kept else kept + [rest[0]];
        rest := rest[1..];
      }
      assert rest == [] && mSubscriberList == kept;
      assert result == (callbacks, mSubscriberList);
    }

    // -------------------------------------------------------------- events

    method ProcessSubscribe(current: Subscriber)
      modifies this
      ensures View() == OnSubscribe(old(View()), current)
    {
      match mState {
        case Released =>
          AddSubscriber(current);
          RequestOrReleaseDataConn(true);
          mState := Pending;
        case Pending =>
          AddSubscriber(current);
        case Acquired =>
          NotifyEventToSubscriber(Granted, current.connHandle, false);
          AddSubscriber(current);
        case Releasing =>
          AddSubscriber(current);
      }
    }

    /** current is an entry of the list; marking it inactive writes through to that entry. */
    method LeaveList(current: Subscriber)
      modifies this
      ensures View() == Leave(old(View()), current)
    {
      if current.waitForCloseComplete {
        mSubscriberList := MarkInactive(mSubscriberList, current.connHandle);
      } else {
        NotifyEventToSubscriber(Unsubscribe, current.connHandle, true);
      }
    }

    method ProcessUnsubscribe(current: Subscriber)
      modifies this
      ensures View() == OnUnsubscribe(old(View()), current)
    {
      match mState {
        case Released =>
          NotifyEventToSubscriber(Unsubscribe, current.connHandle, false);
        case Releasing =>
          LeaveList(current);
          if mSubscriberList == [] {
            mState := Released;
          }
        case _ =>
          LeaveList(current);
          var anyActive := AnyActiveSubscribers();
          if mSubscriberList == [] {
            mState := Released;
            RequestOrReleaseDataConn(false);
          } else if !anyActive {
            mState := Releasing;
            RequestOrReleaseDataConn(false);
          }
      }
    }

    method ProcessGranted()
      modifies this
      ensures View() == OnGranted(old(View()))
    {
      if mState == Pending {
        mState := Acquired;
        NotifyAllSubscribers(Granted, false, Active);
      }
    }

    method FinishReleasing()
      modifies this
      ensures View() == FinishRelease(old(View()))
    {
      NotifyAllSubscribers(Closed, true, Inactive);
      var anyActive := AnyActiveSubscribers();
      if anyActive {
        mState := Pending;
        RequestOrReleaseDataConn(true);
      } else {
        mState := Released;
      }
    }

    method ProcessReleased()
      modifies this
      ensures View() == OnClosed(old(View()))
    {
      match mState {
        case Acquired =>
          mState := Released;
          NotifyAllSubscribers(Closed, true, All);
        case Releasing =>
          FinishReleasing();
        case _ =>
      }
    }

    method ProcessDenied()
      modifies this
      ensures View() == OnDenied(old(View()))
    {
      match mState {
        case Releasing =>
          FinishReleasing();
        case Pending =>
          mState := Released;
          NotifyAllSubscribers(Denied, true, All);
        case _ =>
      }
    }

    method DropAllSubscribers()
      modifies this
      ensures View() == DropAll(old(View()))
    {
      dropped := dropped + HandleSeq(mSubscriberList);
      while mSubscriberList != []
        invariant View() == DropAll(old(View())).(subscribers := mSubscriberList)
        decreases |mSubscriberList|
      {
        mSubscriberList := mSubscriberList[1..];
      }
    }
  }

  class AgpsManager {
    const mAgnssNif: AgpsStateMachine?
    const mInternetNif: AgpsStateMachine?
    const useEmergencyPdn: bool
    ghost var refused: seq<(int, AgpsType, bv32)>

    ghost predicate Valid() {
      mAgnssNif != null && mInternetNif != null ==> mAgnssNif != mInternetNif
    }

    ghost function Machines(): set<object> {
      (if mAgnssNif != null then {mAgnssNif} else {}) + (if mInternetNif != null then {mInternetNif} else {})
    }

    static ghost function ViewOf(sm: AgpsStateMachine?): Option<Machine>
      reads sm
    {
      if sm == null then None else Some(sm.View())
    }

    ghost function View(): Manager
      reads this, Machines()
    {
      Manager(ViewOf(mAgnssNif), ViewOf(mInternetNif), useEmergencyPdn, refused)
    }

    /** createAgpsStateMachines, for a given set of ATL types and capabilities. */
    constructor (hasAgnss: bool, hasInternet: bool, emergencyPdn: bool, anyMask: bv32)
      ensures Valid() && fresh(Machines())
      ensures View() == Manager(
                if hasAgnss then Some(Fresh(Link(Supl, anyMask, None, AGPS_APN_BEARER_INVALID))) else None,
                if hasInternet then Some(Fresh(Link(WwanAny, anyMask, None, AGPS_APN_BEARER_INVALID))) else None,
                emergencyPdn, [])
    {
      var agnss: AgpsStateMachine? := null;
      var internet: AgpsStateMachine? := null;
      if hasInternet { internet := new AgpsStateMachine(WwanAny, anyMask); }
      if hasAgnss { agnss := new AgpsStateMachine(Supl, anyMask); }
      mAgnssNif, mInternetNif, useEmergencyPdn, refused := agnss, internet, emergencyPdn, [];
    }

    function MachineFor(t: AgpsType): AgpsStateMachine? {
      if NifFor(t).Agnss? then mAgnssNif else mInternetNif
    }

    method RequestATL(connHandle: int, agpsType: AgpsType, apnTypeMask: bv32)
      requires Valid()
      modifies this, Machines()
      ensures Valid() && View() == Step(old(View()), RequestAtl(connHandle, agpsType, apnTypeMask))
    {
      // The emergency type and its APN bit fall back to plain SUPL when there is no emergency PDN.
      var t, mask := EffectiveType(useEmergencyPdn, agpsType), RequestMask(useEmergencyPdn, agpsType, apnTypeMask);
      var sm := MachineFor(t);
      if sm == null {
        refused := refused + [(connHandle, t, mask)];
        return;
      }
      sm.mAgpsType, sm.mApnTypeMask := t, mask;
      sm.ProcessSubscribe(Subscriber(connHandle, true, false, mask));
    }

    method ReleaseATL(connHandle: int)
      requires Valid()
      modifies this, Machines()
      ensures Valid() && View() == Step(old(View()), ReleaseAtl(connHandle))
    {
      var sm: AgpsStateMachine?, subscriber := null, None;
      if mAgnssNif != null {
        subscriber := mAgnssNif.GetSubscriber(connHandle);
        if subscriber.Some? { sm := mAgnssNif; }
      }
      if sm == null && mInternetNif != null {
        subscriber := mInternetNif.GetSubscriber(connHandle);
        if subscriber.Some? { sm := mInternetNif; }
      }
      if sm == null {
        return;
      }
      sm.ProcessUnsubscribe(subscriber.value);
    }

    method ReportAtlOpenSuccess(agpsType: AgpsType, apnName: Option<string>, apnLen: nat, bearerType: nat)
      requires Valid() && MachineFor(agpsType) != null
      modifies this, Machines()
      ensures Valid() && View() == Step(old(View()), OpenSuccess(agpsType, apnName, apnLen, bearerType))
    {
      var sm := MachineFor(agpsType);
      sm.mBearer := bearerType;
      sm.SetAPN(apnName, apnLen);
      sm.ProcessGranted();
    }

    method ReportAtlOpenFailed(agpsType: AgpsType)
      requires Valid() && MachineFor(agpsType) != null
      modifies this, Machines()
      ensures Valid() && View() == Step(old(View()), OpenFailed(agpsType))
    {
      MachineFor(agpsType).ProcessDenied();
    }

    method ReportAtlClosed(agpsType: AgpsType)
      requires Valid() && MachineFor(agpsType) != null
      modifies this, Machines()
      ensures Valid() && View() == Step(old(View()), AtlClosed(agpsType))
    {
      MachineFor(agpsType).ProcessReleased();
    }

    method HandleModemSSR()
      requires Valid()
      modifies this, Machines()
      ensures Valid() && View() == Step(old(View()), ModemSsr)
    {
      if mAgnssNif != null { mAgnssNif.DropAllSubscribers(); }
      if mInternetNif != null { mInternetNif.DropAllSubscribers(); }
    }
  }
}
