/** The AGPS subscriber state machine of gps/gnss/Agps.cpp as functions on values: what each event does
  * to the state, the subscriber list, and the two streams of messages the machine emits (ATL status
  * callbacks to the modem side, data-connection requests to the framework).
  */
module AgpsModel {
  import opened Wrappers

  datatype State = Released | Pending | Acquired | Releasing

  datatype Event = Subscribe | Unsubscribe | Granted | Closed | Denied

  datatype Subscriber = Subscriber(connHandle: int, waitForCloseComplete: bool, isInactive: bool, apnTypeMask: bv32)

  datatype AgpsType = Invalid | Any | Supl | C2k | WwanAny | Wifi | SuplEs

  /** What a machine knows of its connection: the type and APN types last asked for, the APN and bearer last
    * granted.
    */
  datatype Link = Link(agpsType: AgpsType, apnTypeMask: bv32, apn: Option<string>, bearer: nat) {
    function RequestConn(): DataConn { Request(agpsType, apnTypeMask) }

    function ReleaseConn(): DataConn { Release(agpsType, apnTypeMask) }
  }

  const MAX_APN_LEN: nat := 100
  const AGPS_APN_BEARER_INVALID: nat := 0

  /** setAPN: an APN that is missing, too long, or not as long as said is forgotten. */
  function CheckedApn(apn: Option<string>, len: nat): Option<string> {
    if apn.None? || len > MAX_APN_LEN || |apn.value| != len then None else apn
  }

  /** A status callback, with the machine's state at the moment it is made. */
  datatype Callback =
    | OpenStatus(connHandle: int, success: bool, during: State, link: Link)
    | CloseStatus(connHandle: int, during: State)

  datatype DataConn = Request(agpsType: AgpsType, apnTypeMask: bv32) | Release(agpsType: AgpsType, apnTypeMask: bv32)

  /** added and dropped record the handles of inserted subscribers and of those a modem restart drops. */
  datatype Machine = Machine(
    state: State,
    link: Link,
    subscribers: seq<Subscriber>,
    callbacks: seq<Callback>,
    conns: seq<DataConn>,
    added: seq<int>,
    dropped: seq<int>)

  function Fresh(link: Link): Machine { Machine(Released, link, [], [], [], [], []) }

  // ---------------------------------------------------------------- the subscriber list

  datatype Audience = All | Inactive | Active

  predicate Hears(who: Audience, s: Subscriber) {
    who.All? || (who.Inactive? && s.isInactive) || (who.Active? && !s.isInactive)
  }

  function Filter(subs: seq<Subscriber>, who: Audience, keep: bool): seq<Subscriber> {
    if subs == [] then []
    else if Hears(who, subs[0]) == keep then [subs[0]] + Filter(subs[1..], who, keep)
    else Filter(subs[1..], who, keep)
  }

  function Without(subs: seq<Subscriber>, h: int): seq<Subscriber> {
    if subs == [] then []
    else if subs[0].connHandle == h then Without(subs[1..], h)
    else [subs[0]] + Without(subs[1..], h)
  }

  function MarkInactive(subs: seq<Subscriber>, h: int): (r: seq<Subscriber>)
    ensures |r| == |subs|
    ensures forall i :: 0 <= i < |subs| ==>
              r[i] == if subs[i].connHandle == h then subs[i].(isInactive := true) else subs[i]
  {
    seq(|subs|, i requires 0 <= i < |subs| =>
      if subs[i].connHandle == h then subs[i].(isInactive := true) else subs[i])
  }

  predicate Listed(subs: seq<Subscriber>, h: int) {
    exists i :: 0 <= i < |subs| && subs[i].connHandle == h
  }

  predicate AnyActive(subs: seq<Subscriber>) {
    exists i :: 0 <= i < |subs| && !subs[i].isInactive
  }

  // ---------------------------------------------------------------- messages

  function CallbackFor(e: Event, h: int, state: State, link: Link): Callback
    requires e != Subscribe
  {
    match e
    case Granted => OpenStatus(h, true, state, link)
    case Denied => OpenStatus(h, false, state, link)
    case _ => CloseStatus(h, state)
  }

  /** The log after telling each listed subscriber in turn. */
  function Logged(log: seq<Callback>, e: Event, subs: seq<Subscriber>, state: State, link: Link): seq<Callback>
    requires e != Subscribe
    decreases |subs|
  {
    if subs == [] then log else
      Logged(log + [CallbackFor(e, subs[0].connHandle, state, link)], e, subs[1..], state, link)
  }

  // ---------------------------------------------------------------- the five events

  function Add(m: Machine, s: Subscriber): Machine {
    if Listed(m.subscribers, s.connHandle) then m
    else m.(subscribers := m.subscribers + [s], added := m.added + [s.connHandle])
  }

  function Tell(m: Machine, e: Event, h: int): Machine
    requires e != Subscribe
  {
    m.(callbacks := m.callbacks + [CallbackFor(e, h, m.state, m.link)])
  }

  function TellAll(m: Machine, e: Event, delete: bool, who: Audience): Machine
    requires e != Subscribe
  {
    m.(callbacks := Logged(m.callbacks, e, Filter(m.subscribers, who, true), m.state, m.link),
       subscribers := if delete then Filter(m.subscribers, who, false) else m.subscribers)
  }

  function OnSubscribe(m: Machine, s: Subscriber): Machine {
    match m.state
    case Released => Add(m, s).(conns := m.conns + [m.link.RequestConn()], state := Pending)
    case Acquired => Add(Tell(m, Granted, s.connHandle), s)
    case _ => Add(m, s)
  }

  /** The subscriber leaves the list now, or waits in it, inactive, for the connection to close. */
  function Leave(m: Machine, s: Subscriber): Machine {
    if s.waitForCloseComplete then m.(subscribers := MarkInactive(m.subscribers, s.connHandle))
    else Tell(m, Unsubscribe, s.connHandle).(subscribers := Without(m.subscribers, s.connHandle))
  }

  function OnUnsubscribe(m: Machine, s: Subscriber): Machine {
    if m.state == Released then Tell(m, Unsubscribe, s.connHandle) else
      var left := Leave(m, s);
      if m.state == Releasing then
        if left.subscribers == [] then left.(state := Released) else left
      else if left.subscribers == [] then left.(state := Released, conns := m.conns + [m.link.ReleaseConn()])
      else if !AnyActive(left.subscribers) then left.(state := Releasing, conns := m.conns + [m.link.ReleaseConn()])
      else left
  }

  function OnGranted(m: Machine): Machine {
    if m.state == Pending then TellAll(m.(state := Acquired), Granted, false, Active) else m
  }

  /** The connection is closed while releasing: tell the waiting ones, start over for the active ones. */
  function FinishRelease(m: Machine): Machine {
    var told := TellAll(m, Closed, true, Inactive);
    if AnyActive(told.subscribers) then told.(state := Pending, conns := m.conns + [m.link.RequestConn()])
    else told.(state := Released)
  }

  function OnClosed(m: Machine): Machine {
    match m.state
    case Acquired => TellAll(m.(state := Released), Closed, true, All)
    case Releasing => FinishRelease(m)
    case _ => m
  }

  function OnDenied(m: Machine): Machine {
    match m.state
    case Releasing => FinishRelease(m)
    case Pending => TellAll(m.(state := Released), Denied, true, All)
    case _ => m
  }

  function DropAll(m: Machine): Machine {
    m.(subscribers := [], dropped := m.dropped + HandleSeq(m.subscribers))
  }

  function HandleSeq(subs: seq<Subscriber>): seq<int> {
    if subs == [] then [] else [subs[0].connHandle] + HandleSeq(subs[1..])
  }

  // ---------------------------------------------------------------- the manager

  datatype Nif = Agnss | Internet

  /** refused holds the failed-open callbacks, with type and mask, for requests that no machine serves. */
  datatype Manager = Manager(
    agnss: Option<Machine>,
    internet: Option<Machine>,
    emergencyPdn: bool,
    refused: seq<(int, AgpsType, bv32)>)
  {
    function Get(nif: Nif): Option<Machine> {
      if nif.Agnss? then agnss else internet
    }

    function Put(nif: Nif, m: Machine): Manager {
      if nif.Agnss? then this.(agnss := Some(m)) else this.(internet := Some(m))
    }
  }

  /** getAgpsStateMachine: which machine serves a type. */
  function NifFor(t: AgpsType): Nif {
    match t
    case Invalid => Agnss
    case Supl => Agnss
    case SuplEs => Agnss
    case _ => Internet
  }

  /** The type requestATL works with: emergency SUPL counts as SUPL unless it has its own PDN. */
  function EffectiveType(emergencyPdn: bool, t: AgpsType): AgpsType {
    if !emergencyPdn && t.SuplEs? then Supl else t
  }

  datatype Input =
    | RequestAtl(connHandle: int, agpsType: AgpsType, apnTypeMask: bv32)
    | ReleaseAtl(connHandle: int)
    | OpenSuccess(agpsType: AgpsType, apn: Option<string>, len: nat, bearer: nat)
    | OpenFailed(agpsType: AgpsType)
    | AtlClosed(agpsType: AgpsType)
    | ModemSsr

  /** The framework reports only on types whose machine exists. */
  predicate Accepts(mgr: Manager, i: Input) {
    i.OpenSuccess? || i.OpenFailed? || i.AtlClosed? ==>
      if NifFor(i.agpsType).Agnss? then mgr.agnss.Some? else mgr.internet.Some?
  }

  /** The subscriber list entry with a handle. */
  function Find(subs: seq<Subscriber>, h: int): (r: Option<Subscriber>)
    ensures r.Some? <==> Listed(subs, h)
    ensures r.Some? ==> r.value in subs && r.value.connHandle == h
  {
    if subs == [] then None
    else if subs[0].connHandle == h then Some(subs[0])
    else assert forall i :: 0 <= i < |subs| - 1 ==> subs[1..][i] == subs[i + 1]; Find(subs[1..], h)
  }

  /** The machine a release request goes to: the AGNSS one is searched first. */
  function Holder(mgr: Manager, h: int): Option<Nif> {
    if mgr.agnss.Some? && Listed(mgr.agnss.value.subscribers, h) then Some(Agnss)
    else if mgr.internet.Some? && Listed(mgr.internet.value.subscribers, h) then Some(Internet)
    else None
  }

  function DropIfAny(m: Option<Machine>): Option<Machine> {
    if m.Some? then Some(DropAll(m.value)) else None
  }

  /** The machine remembers what it is asked for, and what it is granted. */
  function Asked(m: Machine, t: AgpsType, mask: bv32): Machine {
    m.(link := m.link.(agpsType := t, apnTypeMask := mask))
  }

  function Opened(m: Machine, apn: Option<string>, len: nat, bearer: nat): Machine {
    m.(link := m.link.(apn := CheckedApn(apn, len), bearer := bearer))
  }

  function Step(mgr: Manager, i: Input): (next: Manager)
    requires Accepts(mgr, i)
    ensures next.agnss.Some? == mgr.agnss.Some? && next.internet.Some? == mgr.internet.Some?
  {
    match i
    case RequestAtl(h, t, mask) =>
      var nif := NifFor(EffectiveType(mgr.emergencyPdn, t));
      if mgr.Get(nif).None? then 
        mgr.(refused := mgr.refused
                        + [(h, EffectiveType(mgr.emergencyPdn, t), RequestMask(mgr.emergencyPdn, t, mask))])
      else
        var mask' := RequestMask(mgr.emergencyPdn, t, mask);
        var m := Asked(mgr.Get(nif).value, EffectiveType(mgr.emergencyPdn, t), mask');
        mgr.Put(nif, OnSubscribe(m, Subscriber(h, true, false, mask')))
    case ReleaseAtl(h) =>
      var nif := Holder(mgr, h);
      if nif.None? then mgr else
        var m := mgr.Get(nif.value).value;
        mgr.Put(nif.value, OnUnsubscribe(m, Find(m.subscribers, h).value))
    case OpenSuccess(t, apn, len, bearer) =>
      mgr.Put(NifFor(t), OnGranted(Opened(mgr.Get(NifFor(t)).value, apn, len, bearer)))
    case OpenFailed(t) => mgr.Put(NifFor(t), OnDenied(mgr.Get(NifFor(t)).value))
    case AtlClosed(t) => mgr.Put(NifFor(t), OnClosed(mgr.Get(NifFor(t)).value))
    case ModemSsr => mgr.(agnss := DropIfAny(mgr.agnss), internet := DropIfAny(mgr.internet))
  }

  const LOC_APN_TYPE_MASK_SUPL: bv32 := 0x0000_0010
  const LOC_APN_TYPE_MASK_EMERGENCY: bv32 := 0x0000_0200

  /** Rewriting emergency SUPL to SUPL also swaps the two APN type bits. */
  function RequestMask(emergencyPdn: bool, t: AgpsType, mask: bv32): bv32 {
    if !emergencyPdn && t.SuplEs? then (mask & !LOC_APN_TYPE_MASK_EMERGENCY) | LOC_APN_TYPE_MASK_SUPL else mask
  }

  function Run(mgr: Manager, inputs: seq<Input>): (end: Manager)
    requires forall i :: i in inputs ==> Accepts(mgr, i)
    ensures end.agnss.Some? == mgr.agnss.Some? && end.internet.Some? == mgr.internet.Some?
  {
    if inputs == [] then mgr else
      var before, last := Run(mgr, inputs[..|inputs| - 1]), inputs[|inputs| - 1];
      assert Accepts(mgr, last) && before.agnss.Some? == mgr.agnss.Some?;
      Step(before, last)
  }
}
