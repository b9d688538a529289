/** The table of connected networks in gps/core/SystemStatus.h: each network event is collated with the
  * last reported table, by insertion or by removal, and reported when something changed.
  */
module NetworkHandles {
  const MAX_NETWORK_HANDLES: nat := 10
  // NETWORK_HANDLE_UNKNOWN is ~0 as a 64-bit number.
  const NETWORK_HANDLE_UNKNOWN: nat := 0xFFFF_FFFF_FFFF_FFFF
  const TYPE_MOBILE := 0
  const TYPE_UNKNOWN := 10
  const MAX_ITEM: nat := 5

  /** NetworkInfoType */
  datatype Slot = Slot(networkHandle: nat, networkType: int)

  const EMPTY_SLOT := Slot(NETWORK_HANDLE_UNKNOWN, TYPE_UNKNOWN)

  type Table = t: seq<Slot> | |t| == MAX_NETWORK_HANDLES witness seq(MAX_NETWORK_HANDLES, _ => EMPTY_SLOT)

  /** The event: a connect or a disconnect of a handle with a type and an access point name. */
  datatype Event = Event(connected: bool, networkHandle: nat, networkType: int, apn: string)

  /** A reported item. */
  datatype Item = Item(event: Event, table: Table)

  /** typeToAllTypes(t) != 0 */
  predicate KnownType(t: int) { TYPE_MOBILE <= t < TYPE_UNKNOWN }

  // ---------------------------------------------------------------- what the table stands for

  /** The number of leading slots in use. */
  function Used(t: seq<Slot>): (n: nat)
    ensures n <= |t|
  {
    if t == [] || t[0].networkHandle == NETWORK_HANDLE_UNKNOWN then 0 else 1 + Used(t[1..])
  }

  /** Distinct known handles first, unknown slots after them. */
  ghost predicate WellFormed(t: Table) {
    && (forall i :: 0 <= i < Used(t) ==> t[i].networkHandle != NETWORK_HANDLE_UNKNOWN)
    && (forall i, j :: 0 <= i < j < Used(t) ==> t[i].networkHandle != t[j].networkHandle)
    && (forall i :: Used(t) <= i < MAX_NETWORK_HANDLES ==> t[i].networkHandle == NETWORK_HANDLE_UNKNOWN)
  }

  /** The connected networks, handle to type: the ones in the first n slots, and all of them. */
  ghost function ContentsUpto(t: seq<Slot>, n: nat): map<nat, int>
    requires n <= |t|
  {
    if n == 0 then map[] else ContentsUpto(t, n - 1)[t[n - 1].networkHandle := t[n - 1].networkType]
  }

  ghost function Contents(t: seq<Slot>): map<nat, int> { ContentsUpto(t, Used(t)) }

  /** Insert if known, absent and there is room; remove if the handle is there with that (known) type. */
  function Apply(m: map<nat, int>, e: Event): map<nat, int> {
    if e.connected then
      if e.networkHandle == NETWORK_HANDLE_UNKNOWN || e.networkHandle in m || |m| >= MAX_NETWORK_HANDLES then m
      else m[e.networkHandle := e.networkType]
    else if KnownType(e.networkType) && e.networkHandle in m && m[e.networkHandle] == e.networkType then
      m - {e.networkHandle}
    else m
  }

  // ---------------------------------------------------------------- the source's loops

  /** The table part of SystemStatusNetworkInfo::collate. */
  method Collate(cached: Table, e: Event) returns (table: Table)
    requires WellFormed(cached)
    ensures WellFormed(table) && Contents(table) == Apply(Contents(cached), e)
  {
    table := cached;
    UsedIsPrefix(cached);
    if e.connected {
      var i := 0;
      while i < MAX_NETWORK_HANDLES
        invariant 0 <= i <= Used(cached) && table == cached
        invariant forall k :: 0 <= k < i ==> cached[k].networkHandle != e.networkHandle
      {
        if e.networkHandle == table[i].networkHandle {
          break;
        }
        if NETWORK_HANDLE_UNKNOWN == table[i].networkHandle {
          table := table[i := Slot(e.networkHandle, e.networkType)];
          Inserted(cached, e, table);
          return;
        }
        i := i + 1;
      }
      if e.networkHandle == NETWORK_HANDLE_UNKNOWN {
        assert Apply(Contents(cached), e) == Contents(cached);
      } else {
        NotInserted(cached, e, i);
      }
    } else if KnownType(e.networkType) {
      var deletedIndex, lastValidIndex := MAX_NETWORK_HANDLES, 0;
      while lastValidIndex < MAX_NETWORK_HANDLES && NETWORK_HANDLE_UNKNOWN != table[lastValidIndex].networkHandle
        invariant 0 <= lastValidIndex <= Used(cached) && 0 <= deletedIndex
        invariant deletedIndex == MAX_NETWORK_HANDLES ==>
                    forall k :: 0 <= k < lastValidIndex ==> cached[k] != Slot(e.networkHandle, e.networkType)
        invariant deletedIndex != MAX_NETWORK_HANDLES ==>
                    deletedIndex < lastValidIndex && cached[deletedIndex] == Slot(e.networkHandle, e.networkType)
      {
        if e.networkType == table[lastValidIndex].networkType {
          if e.networkHandle == table[lastValidIndex].networkHandle {
            deletedIndex := lastValidIndex;
          }
        }
        lastValidIndex := lastValidIndex + 1;
      }
      if lastValidIndex > 0 {
        lastValidIndex := lastValidIndex - 1;
      }
      if MAX_NETWORK_HANDLES != deletedIndex {
        table := table[deletedIndex := table[lastValidIndex]];
        table := table[lastValidIndex := EMPTY_SLOT];
        Deleted(cached, e, deletedIndex, table);
      } else {
        NotDeleted(cached, e);
      }
    }
  }

  /** SystemStatusNetworkInfo::equals */
  predicate Equals(a: Item, b: Item) {
    a.event.connected == b.event.connected && a.table == b.table && a.event.apn == b.event.apn
  }

  /** A fresh item carries its own handle in the first slot, whatever the event says. */
  function OwnTable(e: Event): Table {
    [Slot(e.networkHandle, e.networkType)] + seq(MAX_NETWORK_HANDLES - 1, _ => EMPTY_SLOT)
  }

  /** An access point name survives events of other network types. */
  function CollatedApn(last: Item, e: Event): string {
    if e.networkType != TYPE_MOBILE && last.event.apn != "" then last.event.apn else e.apn
  }

  /** setIteminReport: the report's last item always holds the current table. */
  method SetItemInReport(report: seq<Item>, e: Event) returns (next: seq<Item>, changed: bool)
    requires |report| <= MAX_ITEM
    requires report != [] ==> WellFormed(report[|report| - 1].table)
    ensures 0 < |next| <= MAX_ITEM && WellFormed(next[|next| - 1].table)
    ensures report == [] ==> changed && next[|next| - 1].table == OwnTable(e)
    ensures report != [] ==>
              Contents(next[|next| - 1].table) == Apply(Contents(report[|report| - 1].table), e)
    ensures !changed ==> next == report
    ensures !changed && report != [] ==>
              var last := report[|report| - 1];
              last.event.connected == e.connected
              && (e.networkType == TYPE_MOBILE || last.event.apn == "" ==> last.event.apn == e.apn)
    ensures changed ==> next[|next| - 1].event.(apn := e.apn) == e
    ensures changed && report != [] ==>
              next[|next| - 1].event.apn ==
              if e.networkType == TYPE_MOBILE || report[|report| - 1].event.apn == "" then e.apn
              else report[|report| - 1].event.apn
    ensures report != [] && changed ==>
              var last, now := report[|report| - 1], next[|next| - 1];
              last.event.connected != now.event.connected || last.table != now.table || last.event.apn != now.event.apn
    ensures changed ==> next == (report + [next[|next| - 1]])[if |report| == MAX_ITEM then 1 else 0..]
  {
    var item;
    if report == [] {
      item := Item(e, OwnTable(e));
      OwnTableWellFormed(e);
    } else {
      var last := report[|report| - 1];
      var table := Collate(last.table, e);
      item := Item(e.(apn := CollatedApn(last, e)), table);
      if Equals(last, item) {
        return report, false;
      }
    }
    next := report + [item];
    if |next| > MAX_ITEM {
      next := next[1..];
    }
    changed := true;
  }

  // ---------------------------------------------------------------- facts about the table

  lemma UsedIsPrefix(t: seq<Slot>)
    ensures forall i :: 0 <= i < Used(t) ==> t[i].networkHandle != NETWORK_HANDLE_UNKNOWN
    ensures Used(t) < |t| ==> t[Used(t)].networkHandle == NETWORK_HANDLE_UNKNOWN
  {
  }

  /** A table is well formed as soon as some n marks the end of its distinct known handles. */
  lemma {:induction false} UsedIs(t: seq<Slot>, n: nat)
    requires n <= |t| && forall i :: 0 <= i < n ==> t[i].networkHandle != NETWORK_HANDLE_UNKNOWN
    requires n < |t| ==> t[n].networkHandle == NETWORK_HANDLE_UNKNOWN
    ensures Used(t) == n
  {
    if n > 0 {
      UsedIs(t[1..], n - 1);
    }
  }

  ghost predicate DistinctUpto(t: seq<Slot>, n: nat)
    requires n <= |t|
  {
    forall i, j :: 0 <= i < j < n ==> t[i].networkHandle != t[j].networkHandle
  }

  /** The contents are the handles in the slots, each with its slot's type, and as many as there are slots. */
  lemma {:induction false} ContentsAt(t: seq<Slot>, n: nat)
    requires n <= |t| && DistinctUpto(t, n)
    ensures forall i :: 0 <= i < n ==>
              t[i].networkHandle in ContentsUpto(t, n) && ContentsUpto(t, n)[t[i].networkHandle] == t[i].networkType
    ensures forall h :: h in ContentsUpto(t, n) ==> exists i :: 0 <= i < n && t[i].networkHandle == h
    ensures |ContentsUpto(t, n)| == n
  {
    if n > 0 {
      ContentsAt(t, n - 1);
      var m, last := ContentsUpto(t, n - 1), t[n - 1];
      assert last.networkHandle !in m;
      assert ContentsUpto(t, n).Keys == m.Keys + {last.networkHandle};
    }
  }

  /** The contents of the first n slots depend on these slots only. */
  lemma {:induction false} ContentsFrame(t: seq<Slot>, u: seq<Slot>, n: nat)
    requires n <= |t| && n <= |u|
    requires forall i :: 0 <= i < n ==> t[i] == u[i]
    ensures ContentsUpto(t, n) == ContentsUpto(u, n)
  {
    if n > 0 {
      ContentsFrame(t, u, n - 1);
    }
  }

  /** Overwriting one slot with a new handle exchanges the two handles. */
  lemma {:induction false} ContentsReplaced(t: seq<Slot>, i: nat, s: Slot, u: seq<Slot>, n: nat)
    requires i < n <= |t| && DistinctUpto(t, n)
    requires forall k :: 0 <= k < n ==> t[k].networkHandle != s.networkHandle
    requires n <= |u| && forall k :: 0 <= k < n ==> u[k] == if k == i then s else t[k]
    ensures ContentsUpto(u, n) == (ContentsUpto(t, n) - {t[i].networkHandle})[s.networkHandle := s.networkType]
  {
    if n - 1 == i {
      ContentsFrame(t, u, n - 1);
      ContentsAt(t, n - 1);
      assert ContentsUpto(t, n) - {t[i].networkHandle} == ContentsUpto(t, n - 1);
    } else {
      ContentsReplaced(t, i, s, u, n - 1);
      assert t[n - 1].networkHandle != t[i].networkHandle;
    }
  }

  lemma Inserted(t: Table, e: Event, next: Table)
    requires WellFormed(t) && e.connected && Used(t) < MAX_NETWORK_HANDLES
    requires e.networkHandle != NETWORK_HANDLE_UNKNOWN
    requires next == t[Used(t) := Slot(e.networkHandle, e.networkType)]
    requires forall k :: 0 <= k < Used(t) ==> t[k].networkHandle != e.networkHandle
    ensures WellFormed(next) && Contents(next) == Apply(Contents(t), e)
  {
    InsertedContents(t, e, next);
    ContentsAt(t, Used(t));
  }

  lemma InsertedContents(t: Table, e: Event, next: Table)
    requires WellFormed(t) && Used(t) < MAX_NETWORK_HANDLES && e.networkHandle != NETWORK_HANDLE_UNKNOWN
    requires next == t[Used(t) := Slot(e.networkHandle, e.networkType)]
    requires forall k :: 0 <= k < Used(t) ==> t[k].networkHandle != e.networkHandle
    ensures WellFormed(next) && Contents(next) == Contents(t)[e.networkHandle := e.networkType]
  {
    UsedPast(next, Used(t) + 1);
    ContentsFrame(t, next, Used(t));
  }

  lemma UsedPast(t: Table, n: nat)
    requires n <= |t| && forall i :: 0 <= i < n ==> t[i].networkHandle != NETWORK_HANDLE_UNKNOWN
    requires forall i :: n <= i < |t| ==> t[i].networkHandle == NETWORK_HANDLE_UNKNOWN
    ensures Used(t) == n
  {
    UsedIs(t, n);
  }

  lemma NotInserted(t: Table, e: Event, i: nat)
    requires WellFormed(t) && e.connected && i <= Used(t) && e.networkHandle != NETWORK_HANDLE_UNKNOWN
    requires i < Used(t) ==> t[i].networkHandle == e.networkHandle
    requires i == Used(t) ==> i == MAX_NETWORK_HANDLES
    ensures Contents(t) == Apply(Contents(t), e)
  {
    ContentsAt(t, Used(t));
  }

  lemma NotDeleted(t: Table, e: Event)
    requires WellFormed(t) && !e.connected
    requires forall k :: 0 <= k < Used(t) ==> t[k] != Slot(e.networkHandle, e.networkType)
    ensures Contents(t) == Apply(Contents(t), e)
  {
    ContentsAt(t, Used(t));
    if e.networkHandle in Contents(t) {
      var k :| 0 <= k < Used(t) && t[k].networkHandle == e.networkHandle;
      assert t[k] == Slot(t[k].networkHandle, t[k].networkType);
    }
  }

  lemma Deleted(t: Table, e: Event, i: nat, next: Table)
    requires WellFormed(t) && !e.connected && KnownType(e.networkType)
    requires i < Used(t) && t[i] == Slot(e.networkHandle, e.networkType)
    requires next == t[i := t[Used(t) - 1]][Used(t) - 1 := EMPTY_SLOT]
    ensures WellFormed(next) && Contents(next) == Apply(Contents(t), e)
  {
    DeletedSlots(t, i, next);
    DeletedContents(t, i, next, Used(t) - 1);
    ContentsAt(t, Used(t));
    assert t[i].networkHandle in Contents(t);
  }

  lemma DeletedContents(t: seq<Slot>, i: nat, next: seq<Slot>, n: nat)
    requires i <= n < |t| && n <= |next| && DistinctUpto(t, n + 1)
    requires forall k :: 0 <= k < n ==> next[k] == if k == i then t[n] else t[k]
    ensures ContentsUpto(next, n) == ContentsUpto(t, n + 1) - {t[i].networkHandle}
  {
    if i == n {
      ContentsFrame(t, next, n);
      ContentsAt(t, n);
    } else {
      assert t[i].networkHandle != t[n].networkHandle;
      ContentsReplaced(t, i, t[n], next, n);
    }
  }

  lemma DeletedSlots(t: Table, i: nat, next: Table)
    requires WellFormed(t) && i < Used(t)
    requires next == t[i := t[Used(t) - 1]][Used(t) - 1 := EMPTY_SLOT]
    ensures WellFormed(next) && Used(next) == Used(t) - 1
    ensures forall k :: 0 <= k < Used(t) - 1 ==> next[k] == if k == i then t[Used(t) - 1] else t[k]
  {
    UsedPast(next, Used(t) - 1);
  }

  lemma OwnTableWellFormed(e: Event)
    ensures WellFormed(OwnTable(e))
    ensures Contents(OwnTable(e)) ==
            if e.networkHandle == NETWORK_HANDLE_UNKNOWN then map[] else map[e.networkHandle := e.networkType]
  {
    var t := OwnTable(e);
    var n := if e.networkHandle == NETWORK_HANDLE_UNKNOWN then 0 else 1;
    UsedIs(t, n);
    if n == 1 {
      assert ContentsUpto(t, 1) == ContentsUpto(t, 0)[t[0].networkHandle := t[0].networkType];
    }
  }

  /** A network that connects and disconnects again leaves the set as it was if and only if its type is one of the
    * ten known ones: one without a known type is never removed.
    */
  lemma DisconnectUndoesConnectIff(m: map<nat, int>, h: nat, t: int, apn: string)
    requires h != NETWORK_HANDLE_UNKNOWN && h !in m && |m| < 10
    ensures Apply(Apply(m, Event(true, h, t, apn)), Event(false, h, t, apn)) == m <==> 0 <= t <= 9
  {
    assert m[h := t] - {h} == m;
    assert h in m[h := t];
  }

  /** Nothing else changes the set: a known handle that connects again, a full set, the unknown handle, or a
    * disconnect of another type than the handle connected with.
    */
  lemma OtherEventsAreIgnored(m: map<nat, int>, e: Event)
    requires if e.connected then e.networkHandle in m || |m| >= 10 || e.networkHandle == NETWORK_HANDLE_UNKNOWN
             else e.networkHandle !in m || m[e.networkHandle] != e.networkType
    ensures Apply(m, e) == m
  {
  }

  // ---------------------------------------------------------------- every sequence of events

  /** The bounded set of networks that the events ask for. */
  function Wanted(events: seq<Event>): map<nat, int> {
    if events == [] then map[] else Apply(Wanted(events[..|events| - 1]), events[|events| - 1])
  }

  /** What the reported table stands for: the first event is not collated with anything. */
  function Reported(events: seq<Event>): map<nat, int> {
    if events == [] then map[]
    else if |events| == 1 then
      if events[0].networkHandle == NETWORK_HANDLE_UNKNOWN then map[]
      else map[events[0].networkHandle := events[0].networkType]
    else Apply(Reported(events[..|events| - 1]), events[|events| - 1])
  }

  /** The whole run of setIteminReport, from an empty report. */
  method ReportAll(events: seq<Event>) returns (report: seq<Item>)
    ensures |report| <= MAX_ITEM && (report == [] <==> events == [])
    ensures report != [] ==>
              WellFormed(report[|report| - 1].table) && Contents(report[|report| - 1].table) == Reported(events)
  {
    report := [];
    for n := 0 to |events|
      invariant |report| <= MAX_ITEM && (report == [] <==> n == 0)
      invariant report != [] ==>
                  && WellFormed(report[|report| - 1].table)
                  && Contents(report[|report| - 1].table) == Reported(events[..n])
    {
      var changed;
      report, changed := SetItemInReport(report, events[n]);
      assert events[..n + 1][..n] == events[..n];
      OwnTableWellFormed(events[n]);
    }
    assert events[..|events|] == events;
  }

  /** At every point of the run the table is exactly the wanted set if and only if the first event is not
    * the disconnect of a known handle.
    */
  lemma ReportedIsWantedIff(events: seq<Event>)
    requires events != []
    ensures (forall n :: 0 <= n <= |events| ==> Reported(events[..n]) == Wanted(events[..n])) <==>
            (events[0].connected || events[0].networkHandle == NETWORK_HANDLE_UNKNOWN)
  {
    assert events[..1] == [events[0]] && [events[0]][..0] == [];
    assert Wanted([events[0]]) == Apply(map[], events[0]);
    if events[0].connected || events[0].networkHandle == NETWORK_HANDLE_UNKNOWN {
      forall n | 0 <= n <= |events| ensures Reported(events[..n]) == Wanted(events[..n]) {
        ReportedFollowsWanted(events, n);
      }
    } else {
      assert events[0].networkHandle in Reported(events[..1]);
    }
  }

  lemma {:induction false} ReportedFollowsWanted(events: seq<Event>, n: nat)
    requires events != [] && n <= |events|
    requires events[0].connected || events[0].networkHandle == NETWORK_HANDLE_UNKNOWN
    ensures Reported(events[..n]) == Wanted(events[..n])
  {
    if n == 1 {
      assert events[..1] == [events[0]] && [events[0]][..0] == [];
      assert Wanted([events[0]]) == Apply(map[], events[0]);
    } else if n > 1 {
      ReportedFollowsWanted(events, n - 1);
      assert events[..n][..n - 1] == events[..n - 1];
    }
  }
}
