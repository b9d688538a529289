/** The two-way subscription index of gps/core/SystemStatusOsObserver.cpp over the set maps of
  * gps/utils/LocUnorderedSetMap.h: which client asked for which data items, which data items have which
  * clients, which data items the framework has been asked for, and what the clients have been told.
  */
module Subscriptions {

  type DataItemId = nat
  // A pointer value; 0 is NULLPTR.
  type Client = nat
  const NULLPTR: Client := 0

  // ---------------------------------------------------------------- set maps as values

  function Get<K, V>(m: map<K, set<V>>, k: K): set<V> {
    if k in m then m[k] else {}
  }

  ghost predicate NoEmptyEntry<K, V>(m: map<K, set<V>>) {
    forall k :: k in m ==> m[k] != {}
  }

  /** rVals leave the entries of keys; an entry left empty goes. */
  function Trimmed<K, V>(m: map<K, set<V>>, keys: set<K>, rVals: set<V>): map<K, set<V>> {
    map k | k in m && (k in keys ==> m[k] - rVals != {}) :: if k in keys then m[k] - rVals else m[k]
  }

  /** vals join the entries of keys. */
  function Added<K, V>(m: map<K, set<V>>, keys: set<K>, vals: set<V>): map<K, set<V>> {
    if vals == {} then m else
      map k | k in m.Keys + keys :: if k !in keys then m[k] else if k in m then m[k] + vals else vals
  }

  /** The entry of key becomes vals. */
  function Put<K, V>(m: map<K, set<V>>, key: K, vals: set<V>): map<K, set<V>> {
    if vals == {} then m - {key} else m[key := vals]
  }

  /** What the entries of keys hold of rVals. */
  ghost function Held<K, V>(m: map<K, set<V>>, keys: set<K>, rVals: set<V>): set<V> {
    set v | v in rVals && exists k :: k in keys && v in Get(m, k)
  }

  lemma TrimmedAt<K, V>(m: map<K, set<V>>, keys: set<K>, rVals: set<V>, k: K)
    ensures Get(Trimmed(m, keys, rVals), k) == if k in keys then Get(m, k) - rVals else Get(m, k)
    ensures NoEmptyEntry(m) ==> NoEmptyEntry(Trimmed(m, keys, rVals))
  {
  }

  lemma AddedAt<K, V>(m: map<K, set<V>>, keys: set<K>, vals: set<V>, k: K)
    ensures Get(Added(m, keys, vals), k) == if k in keys then Get(m, k) + vals else Get(m, k)
    ensures NoEmptyEntry(m) ==> NoEmptyEntry(Added(m, keys, vals))
  {
  }

  lemma TrimmedStep<K, V>(m: map<K, set<V>>, keys: set<K>, rVals: set<V>, k: K)
    requires k !in keys
    ensures Trimmed(Trimmed(m, keys, rVals), {k}, rVals) == Trimmed(m, keys + {k}, rVals)
  {
  }

  lemma AddedStep<K, V>(m: map<K, set<V>>, keys: set<K>, vals: set<V>, k: K)
    requires k !in keys
    ensures Added(Added(m, keys, vals), {k}, vals) == Added(m, keys + {k}, vals)
  {
  }

  lemma HeldStep<K, V>(m: map<K, set<V>>, keys: set<K>, rVals: set<V>, k: K)
    ensures Held(m, keys + {k}, rVals) == Held(m, keys, rVals) + Get(m, k) * rVals
  {
    assert k in keys + {k};
  }

  // ---------------------------------------------------------------- the source's set helpers

  /** trimSet */
  method TrimSet<T>(fromSet: set<T>, rVals: set<T>) returns (left: set<T>, gone: set<T>)
    ensures left == fromSet - rVals && gone == fromSet * rVals
  {
    left, gone := fromSet, {};
    var todo := rVals;
    while todo != {}
      invariant todo <= rVals
      invariant left == fromSet - (rVals - todo) && gone == fromSet * (rVals - todo)
    {
      var val :| val in todo;
      todo := todo - {val};
      if val in left {
        left, gone := left - {val}, gone + {val};
      }
    }
  }

  /** removeAndReturnInterset */
  method RemoveAndReturnInterset<T>(s1: set<T>, s2: set<T>) returns (common: set<T>, left1: set<T>, left2: set<T>)
    ensures common == s1 * s2 && left1 == s1 - s2 && left2 == s2 - s1
  {
    common, left1, left2 := {}, s1, s2;
    var todo := s2;
    while todo != {}
      invariant todo <= s2
      invariant common == s1 * (s2 - todo) && left1 == s1 - (s2 - todo) && left2 == s2 - common
    {
      var b :| b in todo;
      todo := todo - {b};
      if b in left1 {
        common, left1, left2 := common + {b}, left1 - {b}, left2 - {b};
      }
    }
  }

  function SetOf(l: seq<DataItemId>): set<DataItemId> { set x | x in l }

  /** containerTransfer, from a list to a set */
  method ContainerTransfer(l: seq<DataItemId>) returns (s: set<DataItemId>)
    ensures s == SetOf(l)
  {
    s := {};
    for i := 0 to |l|
      invariant s == SetOf(l[..i])
    {
      s := s + {l[i]};
    }
    assert l[..|l|] == l;
  }

  class LocUnorderedSetMap<K(==), V(==)> {
    var mMap: map<K, set<V>>

    constructor ()
      ensures mMap == map[]
    {
      mMap := map[];
    }

    /** Trims one entry, and removes it when that leaves it empty. */
    method TrimOrRemoveEntry(key: K, rVals: set<V>) returns (removeEntry: bool, goneVals: set<V>)
      requires key in mMap
      modifies this
      ensures mMap == Trimmed(old(mMap), {key}, rVals)
      ensures removeEntry == (key !in mMap) && goneVals == old(mMap)[key] * rVals
    {
      var left;
      left, goneVals := TrimSet(mMap[key], rVals);
      removeEntry := left == {};
      if removeEntry {
        mMap := mMap - {key};
      } else {
        mMap := mMap[key := left];
      }
    }

    method TrimOrRemove(keys: set<K>, rVals: set<V>) returns (goneKeys: set<K>, goneVals: set<V>)
      modifies this
      ensures mMap == Trimmed(old(mMap), keys, rVals)
      ensures goneKeys == old(mMap).Keys - mMap.Keys
      ensures goneVals == Held(old(mMap), keys, rVals)
    {
      goneKeys, goneVals := {}, {};
      ghost var m := mMap;
      var todo := keys;
      assert mMap == Trimmed(m, {}, rVals);
      while todo != {}
        invariant todo <= keys
        invariant mMap == Trimmed(m, keys - todo, rVals)
        invariant goneKeys == m.Keys - mMap.Keys
        invariant goneVals == Held(m, keys - todo, rVals)
      {
        var key :| key in todo;
        TrimmedStep(m, keys - todo, rVals, key);
        TrimmedAt(m, keys - todo, rVals, key);
        assert keys - todo + {key} == keys - (todo - {key});
        HeldStep(m, keys - todo, rVals, key);
        todo := todo - {key};
        if key in mMap {
          var removeEntry, gone := TrimOrRemoveEntry(key, rVals);
          goneVals := goneVals + gone;
          if removeEntry {
            goneKeys := goneKeys + {key};
          }
        }
      }
      assert keys - {} == keys;
    }

    /** Adds to one entry, which becomes a new one when there was none. */
    method AddEntry(key: K, newVals: set<V>) returns (newEntryAdded: bool)
      modifies this
      ensures mMap == Added(old(mMap), {key}, newVals)
      ensures newEntryAdded == (key in mMap && key !in old(mMap))
    {
      newEntryAdded := false;
      if newVals != {} {
        if key in mMap {
          mMap := mMap[key := mMap[key] + newVals];
        } else {
          mMap := mMap[key := newVals];
          newEntryAdded := true;
        }
      }
    }

    method Add(keys: set<K>, newVals: set<V>) returns (newKeys: set<K>)
      modifies this
      ensures mMap == Added(old(mMap), keys, newVals)
      ensures newKeys == mMap.Keys - old(mMap).Keys
    {
      newKeys := {};
      ghost var m := mMap;
      var todo := keys;
      while todo != {}
        invariant todo <= keys
        invariant mMap == Added(m, keys - todo, newVals)
        invariant newKeys == mMap.Keys - m.Keys
      {
        var key :| key in todo;
        AddedStep(m, keys - todo, newVals, key);
        assert keys - todo + {key} == keys - (todo - {key});
        todo := todo - {key};
        var newEntryAdded := AddEntry(key, newVals);
        if newEntryAdded {
          newKeys := newKeys + {key};
        }
      }
      assert keys - {} == keys;
    }

    /** The returned values are the ones kept, not the ones removed. */
    method Update(key: K, newVals: set<V>) returns (goneVals: set<V>, left: set<V>)
      modifies this
      ensures mMap == Put(old(mMap), key, newVals)
      ensures goneVals == Get(old(mMap), key) * newVals && left == newVals - Get(old(mMap), key)
    {
      goneVals, left := {}, newVals;
      if newVals == {} {
        mMap := mMap - {key};
      } else {
        var curVals := Get(mMap, key);
        mMap := mMap[key := newVals];
        var rest;
        goneVals, rest, left := RemoveAndReturnInterset(curVals, newVals);
      }
    }
  }

  // ---------------------------------------------------------------- the observer as a state machine

  /** Both maps, whether there is a subscription object, and the items it is subscribed to. */
  datatype State = State(
    clients: map<Client, set<DataItemId>>,
    items: map<DataItemId, set<Client>>,
    hasObj: bool,
    subscribed: set<DataItemId>)

  const INITIAL := State(map[], map[], false, {})

  datatype Op =
    | SetSubscriptionObj
    | Subscribe(l: set<DataItemId>, client: Client, toRequestData: bool)
    | UpdateSubscription(l: set<DataItemId>, client: Client)
    | Unsubscribe(l: set<DataItemId>, client: Client)
    | UnsubscribeAll(client: Client)

  /** An operation that is not dropped: items and a client. */
  predicate Effective(op: Op) {
    match op
    case SetSubscriptionObj => true
    case UnsubscribeAll(client) => client != NULLPTR
    case _ => op.l != {} && op.client != NULLPTR
  }

  /** The client's items become l; it is trimmed from the item entries of gone and added to those new to it. */
  function UpdateWith(s: State, l: set<DataItemId>, client: Client, gone: set<DataItemId>): State {
    var trimmed := Trimmed(s.items, gone, {client});
    var added := Added(trimmed, l - Get(s.clients, client), {client});
    State(Put(s.clients, client, l), added, s.hasObj,
          if s.hasObj then s.subscribed + (added.Keys - trimmed.Keys) - (s.items.Keys - trimmed.Keys) else s.subscribed)
  }

  /** The client gives up l. */
  function Dropped(s: State, l: set<DataItemId>, client: Client): State {
    var trimmed := Trimmed(s.items, l * Get(s.clients, client), {client});
    State(Trimmed(s.clients, {client}, l), trimmed, s.hasObj,
          if s.hasObj then s.subscribed - (s.items.Keys - trimmed.Keys) else s.subscribed)
  }

  function Step(s: State, op: Op): State {
    if !Effective(op) then s else
      match op
      case SetSubscriptionObj => s.(hasObj := true, subscribed := s.subscribed + s.items.Keys)
      case Subscribe(l, client, toRequestData) =>
        var items := Added(s.items, l, {client});
        State(Added(s.clients, {client}, l), items, s.hasObj,
              if s.hasObj && !toRequestData then s.subscribed + (items.Keys - s.items.Keys) else s.subscribed)
      case UpdateSubscription(l, client) => UpdateWith(s, l, client, Get(s.clients, client) * l)
      case Unsubscribe(l, client) => Dropped(s, l, client)
      case UnsubscribeAll(client) =>
        if Get(s.clients, client) == {} then s else Dropped(s, Get(s.clients, client), client)
  }

  // ---------------------------------------------------------------- what clients are told

  type Value = int

  /** A reported data item; accepted says whether the system status records it at all. */
  datatype Item = Item(id: DataItemId, value: Value, accepted: bool)

  type Cache = map<DataItemId, Value>

  /** One call of a client's notify. */
  datatype Message = Message(client: Client, news: Cache)

  /** The index, the cached items, the items whose data the framework was asked for, the messages that clients were
    * sent, and the value of each item that each client was last told.
    */
  datatype Feed = Feed(
    state: State,
    cache: Cache,
    requested: set<DataItemId>,
    messages: multiset<Message>,
    heard: map<Client, Cache>)

  const SILENCE := Feed(INITIAL, map[], {}, multiset{}, map[])

  datatype Action = Ask(op: Op) | Notify(items: seq<Item>)

  function HeardBy(heard: map<Client, Cache>, c: Client): Cache {
    if c in heard then heard[c] else map[]
  }

  /** The cached values of some items. */
  function News(cache: Cache, items: set<DataItemId>): Cache { map x | x in items && x in cache :: cache[x] }

  /** sendCachedDataItems: no message when none of the items is cached. */
  function Tell(heard: map<Client, Cache>, c: Client, news: Cache): map<Client, Cache> {
    if news == map[] then heard else heard[c := HeardBy(heard, c) + news]
  }

  function Send(messages: multiset<Message>, c: Client, news: Cache): multiset<Message> {
    if news == map[] then messages else messages + multiset{Message(c, news)}
  }

  /** updateCache: whether the item is new or its value changes, and the cache afterwards. */
  predicate Changes(cache: Cache, item: Item) {
    item.accepted && (item.id !in cache || cache[item.id] != item.value)
  }

  function Record(cache: Cache, item: Item): Cache {
    if Changes(cache, item) then cache[item.id := item.value] else cache
  }

  /** The cache after all items of a report, and the ones that were new or changed. */
  function Recorded(cache: Cache, items: seq<Item>): Cache
    decreases |items|
  {
    if items == [] then cache else Recorded(Record(cache, items[0]), items[1..])
  }

  function Changed(cache: Cache, items: seq<Item>): set<DataItemId>
    decreases |items|
  {
    if items == [] then {} else
      (if Changes(cache, items[0]) then {items[0].id} else {}) + Changed(Record(cache, items[0]), items[1..])
  }

  /** The clients that the item map has for some of the items. */
  function Listeners(s: State, sent: set<DataItemId>): set<Client> {
    set x, c | x in sent && c in Get(s.items, x) :: c
  }

  /** What each listener has to be told: the current values of those items it asked for, if any. */
  function NewsOf(asked: map<Client, set<DataItemId>>, sent: set<DataItemId>, cache: Cache, listeners: set<Client>)
    : map<Client, Cache>
  {
    map c | c in listeners && News(cache, Get(asked, c) * sent) != map[] :: News(cache, Get(asked, c) * sent)
  }

  function MessagesOf(news: map<Client, Cache>): set<Message> { set c | c in news :: Message(c, news[c]) }

  function TellAll(heard: map<Client, Cache>, news: map<Client, Cache>): map<Client, Cache> {
    map c | c in heard.Keys + news.Keys :: if c in news then HeardBy(heard, c) + news[c] else heard[c]
  }

  function FeedStep(f: Feed, a: Action): Feed {
    match a
    case Notify(items) =>
      var cache, sent := Recorded(f.cache, items), Changed(f.cache, items);
      var news := NewsOf(f.state.clients, sent, cache, Listeners(f.state, sent));
      f.(cache := cache, messages := f.messages + multiset(MessagesOf(news)), heard := TellAll(f.heard, news))
    case Ask(op) =>
      var next := f.(state := Step(f.state, op));
      if !Effective(op) then next else
        match op
        case SetSubscriptionObj => next.(requested := f.requested + f.state.items.Keys)
        case Subscribe(l, client, toRequestData) =>
          next.(heard := Tell(f.heard, client, News(f.cache, l)),
                messages := Send(f.messages, client, News(f.cache, l)),
                requested := if f.state.hasObj && toRequestData then f.requested + l else f.requested)
        case UpdateSubscription(l, client) =>
          var news := News(f.cache, l - Get(f.state.clients, client));
          next.(heard := Tell(f.heard, client, news), messages := Send(f.messages, client, news))
        case _ => next
  }

  class SystemStatusOsObserver {
    const mClientToDataItems: LocUnorderedSetMap<Client, DataItemId>
    const mDataItemToClients: LocUnorderedSetMap<DataItemId, Client>
    var mDataItemCache: Cache
    var mSubscriptionObj: bool
    // What the framework makes of the requests it is sent, and what the clients have been told.
    ghost var subscribed: set<DataItemId>
    ghost var requested: set<DataItemId>
    ghost var messages: multiset<Message>
    ghost var heard: map<Client, Cache>

    ghost predicate Valid() {
      (mClientToDataItems as object) != mDataItemToClients
    }

    ghost function Index(): State
      reads this, mClientToDataItems, mDataItemToClients
    {
      State(mClientToDataItems.mMap, mDataItemToClients.mMap, mSubscriptionObj, subscribed)
    }

    ghost function View(): Feed
      reads this, mClientToDataItems, mDataItemToClients
    {
      Feed(Index(), mDataItemCache, requested, messages, heard)
    }

    constructor ()
      ensures Valid() && View() == SILENCE && fresh(mClientToDataItems) && fresh(mDataItemToClients)
    {
      mClientToDataItems := new LocUnorderedSetMap();
      mDataItemToClients := new LocUnorderedSetMap();
      mDataItemCache, mSubscriptionObj := map[], false;
      subscribed, requested, messages, heard := {}, {}, multiset{}, map[];
    }

    method SetSubscriptionObj()
      requires Valid()
      modifies this
      ensures View() == FeedStep(old(View()), Ask(Op.SetSubscriptionObj))
    {
      mSubscriptionObj := true;
      if mDataItemToClients.mMap != map[] {
        subscribed := subscribed + mDataItemToClients.mMap.Keys;
        requested := requested + mDataItemToClients.mMap.Keys;
      }
    }

    method SendCachedDataItems(s: set<DataItemId>, to: Client)
      modifies this`heard, this`messages
      ensures heard == Tell(old(heard), to, News(mDataItemCache, s))
      ensures messages == Send(old(messages), to, News(mDataItemCache, s))
    {
      var dataItems: Cache := map[];
      var todo := s;
      while todo != {}
        invariant todo <= s && dataItems == News(mDataItemCache, s - todo)
      {
        var each :| each in todo;
        if each in mDataItemCache {
          dataItems := dataItems[each := mDataItemCache[each]];
        }
        todo := todo - {each};
      }
      assert s - {} == s;
      if dataItems != map[] {
        heard := heard[to := HeardBy(heard, to) + dataItems];
        messages := messages + multiset{Message(to, dataItems)};
      }
    }

    method Subscribe(l: seq<DataItemId>, client: Client, toRequestData: bool)
      requires Valid()
      modifies this, mClientToDataItems, mDataItemToClients
      ensures View() == FeedStep(old(View()), Ask(Op.Subscribe(SetOf(l), client, toRequestData)))
    {
      var dataItemSet := ContainerTransfer(l);
      if dataItemSet != {} && client != NULLPTR {
        var toSubscribe := mDataItemToClients.Add(dataItemSet, {client});
        var newKeys := mClientToDataItems.Add({client}, dataItemSet);
        SendCachedDataItems(dataItemSet, client);
        if mSubscriptionObj {
          if toRequestData {
            requested := requested + dataItemSet;
          } else {
            subscribed := subscribed + toSubscribe;
          }
        }
      }
    }

    method UpdateSubscription(l: seq<DataItemId>, client: Client)
      requires Valid()
      modifies this, mClientToDataItems, mDataItemToClients
      ensures View() == FeedStep(old(View()), Ask(Op.UpdateSubscription(SetOf(l), client)))
    {
      var dataItemSet := ContainerTransfer(l);
      if dataItemSet != {} && client != NULLPTR {
        ghost var s := Index();
        var gone, left := mClientToDataItems.Update(client, dataItemSet);
        var toUnsubscribe, goneVals := mDataItemToClients.TrimOrRemove(gone, {client});
        ghost var trimmed := mDataItemToClients.mMap;
        assert toUnsubscribe == s.items.Keys - trimmed.Keys;
        var toSubscribe := mDataItemToClients.Add(left, {client});
        SendCachedDataItems(left, client);
        if mSubscriptionObj {
          subscribed := subscribed + toSubscribe - toUnsubscribe;
        }
      }
    }

    method Unsubscribe(l: seq<DataItemId>, client: Client)
      requires Valid()
      modifies this, mClientToDataItems, mDataItemToClients
      ensures View() == FeedStep(old(View()), Ask(Op.Unsubscribe(SetOf(l), client)))
    {
      var dataItemSet := ContainerTransfer(l);
      if dataItemSet != {} && client != NULLPTR {
        ghost var s := Index();
        var clientToRemove, unused := mClientToDataItems.TrimOrRemove({client}, dataItemSet);
        assert client in {client};
        assert unused == dataItemSet * Get(s.clients, client);
        var toUnsubscribe, goneVals := mDataItemToClients.TrimOrRemove(unused, {client});
        assert toUnsubscribe == s.items.Keys - mDataItemToClients.mMap.Keys;
        if mSubscriptionObj {
          subscribed := subscribed - toUnsubscribe;
        }
      }
    }

    method UnsubscribeAll(client: Client)
      requires Valid()
      modifies this, mClientToDataItems, mDataItemToClients
      ensures View() == FeedStep(old(View()), Ask(Op.UnsubscribeAll(client)))
    {
      if client != NULLPTR {
        ghost var s := Index();
        var diByClient := Get(mClientToDataItems.mMap, client);
        if diByClient != {} {
          mClientToDataItems.mMap := mClientToDataItems.mMap - {client};
          var toUnsubscribe, goneVals := mDataItemToClients.TrimOrRemove(diByClient, {client});
          assert toUnsubscribe == s.items.Keys - mDataItemToClients.mMap.Keys;
          assert diByClient * diByClient == diByClient;
          assert mClientToDataItems.mMap == Trimmed(s.clients, {client}, diByClient);
          if mSubscriptionObj {
            subscribed := subscribed - toUnsubscribe;
          }
        }
      }
    }

    method UpdateCache(item: Item) returns (dataItemUpdated: bool)
      modifies this`mDataItemCache
      ensures dataItemUpdated == Changes(old(mDataItemCache), item)
      ensures mDataItemCache == Record(old(mDataItemCache), item)
    {
      dataItemUpdated := false;
      if item.accepted {
        dataItemUpdated := item.id !in mDataItemCache || mDataItemCache[item.id] != item.value;
        if dataItemUpdated {
          mDataItemCache := mDataItemCache[item.id := item.value];
        }
      }
    }

    /** The first loop of notify: the cache takes the report over. */
    method UpdateCacheAll(items: seq<Item>) returns (toBeSent: set<DataItemId>)
      modifies this`mDataItemCache
      ensures mDataItemCache == Recorded(old(mDataItemCache), items)
      ensures toBeSent == Changed(old(mDataItemCache), items)
    {
      toBeSent := {};
      for n := 0 to |items|
        invariant Recorded(mDataItemCache, items[n..]) == Recorded(old(mDataItemCache), items)
        invariant toBeSent + Changed(mDataItemCache, items[n..]) == Changed(old(mDataItemCache), items)
      {
        assert items[n..][1..] == items[n + 1..];
        var updated := UpdateCache(items[n]);
        if updated {
          toBeSent := toBeSent + {items[n].id};
        }
      }
    }

    /** The second loop: the clients that the item map has for the changed items. */
    method CollectClients(sent: set<DataItemId>) returns (clientSet: set<Client>)
      ensures clientSet == Listeners(Index(), sent)
    {
      clientSet := {};
      var todo := sent;
      while todo != {}
        invariant todo <= sent && clientSet == Listeners(Index(), sent - todo)
      {
        var each :| each in todo;
        assert sent - (todo - {each}) == sent - todo + {each};
        todo := todo - {each};
        clientSet := clientSet + Get(mDataItemToClients.mMap, each);
      }
      assert sent - {} == sent;
    }

    method Notify(items: seq<Item>)
      requires Valid()
      modifies this`mDataItemCache, this`heard, this`messages
      ensures View() == FeedStep(old(View()), Action.Notify(items))
    {
      var toBeSent := UpdateCacheAll(items);
      var clientSet := CollectClients(toBeSent);
      TellClients(clientSet, toBeSent);
    }

    /** The third loop: each of the clients is told of its own items. */
    method TellClients(clientSet: set<Client>, toBeSent: set<DataItemId>)
      requires Valid()
      modifies this`heard, this`messages
      ensures Said(heard, messages) ==
              SaidAll(old(Said(heard, messages)), NewsOf(mClientToDataItems.mMap, toBeSent, mDataItemCache, clientSet))
    {
      ghost var asked, cache, before := mClientToDataItems.mMap, mDataItemCache, Said(heard, messages);
      ghost var told: set<Client> := {};
      var todo := clientSet;
      SaidNothing(before, asked, toBeSent, cache);
      while todo != {}
        invariant told !! todo && told + todo == clientSet
        invariant Said(heard, messages) == SaidAll(before, NewsOf(asked, toBeSent, cache, told))
      {
        var client :| client in todo;
        SaidNext(before, asked, toBeSent, cache, told, client);
        TellClient(client, toBeSent);
        todo, told := todo - {client}, told + {client};
      }
      assert told == clientSet;
    }

    method TellClient(client: Client, toBeSent: set<DataItemId>)
      requires Valid()
      modifies this`heard, this`messages
      ensures Said(heard, messages) ==
              SaidOne(old(Said(heard, messages)), client,
                      News(mDataItemCache, Get(mClientToDataItems.mMap, client) * toBeSent))
    {
      var forThisClient := KeepOnly(Get(mClientToDataItems.mMap, client), toBeSent);
      SendCachedDataItems(forThisClient, client);
    }
  }

  /** The erasing loop of notify: what is not in keep goes. */
  method KeepOnly(s: set<DataItemId>, keep: set<DataItemId>) returns (left: set<DataItemId>)
    ensures left == s * keep
  {
    left := s;
    var todo := s;
    while todo != {}
      invariant todo <= s && left == todo + (s - todo) * keep
    {
      var itr :| itr in todo;
      if itr !in keep {
        left := left - {itr};
      }
      todo := todo - {itr};
    }
  }

  lemma TellNext(heard: map<Client, Cache>, asked: map<Client, set<DataItemId>>, sent: set<DataItemId>, cache: Cache,
                 told: set<Client>, c: Client)
    requires c !in told
    ensures TellAll(heard, NewsOf(asked, sent, cache, told + {c})) ==
            Tell(TellAll(heard, NewsOf(asked, sent, cache, told)), c, News(cache, Get(asked, c) * sent))
    ensures multiset(MessagesOf(NewsOf(asked, sent, cache, told + {c}))) ==
            Send(multiset(MessagesOf(NewsOf(asked, sent, cache, told))), c, News(cache, Get(asked, c) * sent))
  {
    var news := News(cache, Get(asked, c) * sent);
    NewsNext(asked, sent, cache, told, c);
    if news != map[] {
      TellOneMore(heard, NewsOf(asked, sent, cache, told), c, news);
      OneMoreMessage(NewsOf(asked, sent, cache, told), c, news);
    }
  }

  lemma NoNews(heard: map<Client, Cache>, asked: map<Client, set<DataItemId>>, sent: set<DataItemId>, cache: Cache)
    ensures TellAll(heard, NewsOf(asked, sent, cache, {})) == heard && MessagesOf(NewsOf(asked, sent, cache, {})) == {}
  {
  }

  /** What clients have heard and the messages that said it. */
  datatype Said = Said(heard: map<Client, Cache>, messages: multiset<Message>)

  function SaidOne(before: Said, c: Client, news: Cache): Said {
    Said(Tell(before.heard, c, news), Send(before.messages, c, news))
  }

  function SaidAll(before: Said, news: map<Client, Cache>): Said {
    Said(TellAll(before.heard, news), before.messages + multiset(MessagesOf(news)))
  }

  lemma SaidNothing(before: Said, asked: map<Client, set<DataItemId>>, sent: set<DataItemId>, cache: Cache)
    ensures SaidAll(before, NewsOf(asked, sent, cache, {})) == before
  {
    NoNews(before.heard, asked, sent, cache);
  }

  lemma SaidNext(before: Said, asked: map<Client, set<DataItemId>>, sent: set<DataItemId>, cache: Cache,
                 told: set<Client>, c: Client)
    requires c !in told
    ensures SaidAll(before, NewsOf(asked, sent, cache, told + {c})) ==
            SaidOne(SaidAll(before, NewsOf(asked, sent, cache, told)), c, News(cache, Get(asked, c) * sent))
  {
    TellNext(before.heard, asked, sent, cache, told, c);
  }

  lemma NewsNext(asked: map<Client, set<DataItemId>>, sent: set<DataItemId>, cache: Cache, told: set<Client>, c: Client)
    requires c !in told
    ensures var news := News(cache, Get(asked, c) * sent);
            && c !in NewsOf(asked, sent, cache, told)
            && NewsOf(asked, sent, cache, told + {c}) ==
               if news == map[] then NewsOf(asked, sent, cache, told) else NewsOf(asked, sent, cache, told)[c := news]
  {
  }

  lemma OneMoreMessage(news: map<Client, Cache>, c: Client, one: Cache)
    requires c !in news
    ensures multiset(MessagesOf(news[c := one])) == multiset(MessagesOf(news)) + multiset{Message(c, one)}
  {
    var all, before := MessagesOf(news[c := one]), MessagesOf(news);
    assert Message(c, one) !in before;
    forall m ensures m in all <==> m in before || m == Message(c, one) {
      if m in before {
        assert m.client in news[c := one] && news[c := one][m.client] == m.news;
      }
      assert c in news[c := one];
    }
    assert all == before + {Message(c, one)};
  }

  lemma TellOneMore(heard: map<Client, Cache>, news: map<Client, Cache>, c: Client, one: Cache)
    requires c !in news && one != map[]
    ensures TellAll(heard, news[c := one]) == Tell(TellAll(heard, news), c, one)
  {
    assert HeardBy(TellAll(heard, news), c) == HeardBy(heard, c);
  }

  // ---------------------------------------------------------------- the two maps are inverses

  ghost predicate Inverse(s: State) {
    && NoEmptyEntry(s.clients) && NoEmptyEntry(s.items)
    && forall c, x :: x in Get(s.clients, c) <==> c in Get(s.items, x)
  }

  /** For any set of items the client is trimmed from, the maps stay inverses exactly when, of its old items,
    * it is trimmed from those it no longer asks for.
    */
  lemma UpdateKeepsInverseIff(s: State, l: set<DataItemId>, client: Client, gone: set<DataItemId>)
    requires Inverse(s) && l != {}
    ensures Inverse(UpdateWith(s, l, client, gone)) <==> gone * Get(s.clients, client) == Get(s.clients, client) - l
  {
    var t, C := UpdateWith(s, l, client, gone), Get(s.clients, client);
    forall c, x
      ensures c in Get(t.items, x) <==> if c == client then x in C - gone || x in l - C else c in Get(s.items, x)
      ensures x in Get(t.clients, c) <==> if c == client then x in l else x in Get(s.clients, c)
    {
      UpdateWithAt(s, l, client, gone, c, x);
    }
    UpdateWithHasNoEmptyEntry(s, l, client, gone);
    if gone * C == C - l {
      forall c, x ensures x in Get(t.clients, c) <==> c in Get(t.items, x) {
        assert x in gone * C <==> x in C - l;
      }
    }
    if Inverse(t) {
      forall x ensures x in gone * C <==> x in C - l {
        assert x in Get(t.clients, client) <==> client in Get(t.items, x);
      }
    }
  }

  lemma UpdateWithAt(s: State, l: set<DataItemId>, client: Client, gone: set<DataItemId>, c: Client, x: DataItemId)
    requires Inverse(s) && l != {}
    ensures c in Get(UpdateWith(s, l, client, gone).items, x) <==>
            if c == client then x in Get(s.clients, client) - gone || x in l - Get(s.clients, client)
            else c in Get(s.items, x)
    ensures x in Get(UpdateWith(s, l, client, gone).clients, c) <==>
            if c == client then x in l else x in Get(s.clients, c)
  {
    var trimmed := Trimmed(s.items, gone, {client});
    TrimmedAt(s.items, gone, {client}, x);
    AddedAt(trimmed, l - Get(s.clients, client), {client}, x);
    assert x in Get(s.clients, client) <==> client in Get(s.items, x);
  }

  lemma UpdateWithHasNoEmptyEntry(s: State, l: set<DataItemId>, client: Client, gone: set<DataItemId>)
    requires NoEmptyEntry(s.clients) && NoEmptyEntry(s.items) && l != {}
    ensures NoEmptyEntry(UpdateWith(s, l, client, gone).clients) && NoEmptyEntry(UpdateWith(s, l, client, gone).items)
  {
    TrimmedAt(s.items, gone, {client}, 0);
    AddedAt(Trimmed(s.items, gone, {client}), l - Get(s.clients, client), {client}, 0);
  }

  /** With the set the call site asks for, the items the client no longer uses, every update keeps the maps
    * inverses.
    */
  lemma DocumentedUpdateKeepsInverse(s: State, l: set<DataItemId>, client: Client)
    requires Inverse(s) && l != {}
    ensures Inverse(UpdateWith(s, l, client, Get(s.clients, client) - l))
  {
    UpdateKeepsInverseIff(s, l, client, Get(s.clients, client) - l);
    assert (Get(s.clients, client) - l) * Get(s.clients, client) == Get(s.clients, client) - l;
  }

  /** An update by a client that already has items. */
  predicate Reupdates(s: State, op: Op) {
    op.UpdateSubscription? && Effective(op) && Get(s.clients, op.client) != {}
  }

  /** One operation keeps the maps inverses exactly when it is not an update by a client with items. */
  lemma StepKeepsInverseIff(s: State, op: Op)
    requires Inverse(s)
    ensures Inverse(Step(s, op)) <==> !Reupdates(s, op)
  {
    if Effective(op) {
      match op
      case SetSubscriptionObj =>
      case Subscribe(l, client, toRequestData) => SubscribeKeepsInverse(s, l, client, toRequestData);
      case UpdateSubscription(l, client) =>
        var C := Get(s.clients, client);
        UpdateKeepsInverseIff(s, l, client, C * l);
        if C * l * C == C - l {
          forall x ensures x !in C {
            assert x in C * l * C <==> x in C - l;
          }
        }
      case Unsubscribe(l, client) => DroppedKeepsInverse(s, l, client);
      case UnsubscribeAll(client) => DroppedKeepsInverse(s, Get(s.clients, client), client);
    }
  }

  lemma SubscribeKeepsInverse(s: State, l: set<DataItemId>, client: Client, toRequestData: bool)
    requires Inverse(s) && Effective(Op.Subscribe(l, client, toRequestData))
    ensures Inverse(Step(s, Op.Subscribe(l, client, toRequestData)))
  {
    forall c, x
      ensures x in Get(Added(s.clients, {client}, l), c) <==> c in Get(Added(s.items, l, {client}), x)
    {
      AddedAt(s.clients, {client}, l, c);
      AddedAt(s.items, l, {client}, x);
    }
    AddedAt(s.clients, {client}, l, 0);
    AddedAt(s.items, l, {client}, 0);
  }

  lemma DroppedKeepsInverse(s: State, l: set<DataItemId>, client: Client)
    requires Inverse(s)
    ensures Inverse(Dropped(s, l, client))
  {
    var both := l * Get(s.clients, client);
    forall c, x
      ensures x in Get(Trimmed(s.clients, {client}, l), c) <==> c in Get(Trimmed(s.items, both, {client}), x)
    {
      TrimmedAt(s.clients, {client}, l, c);
      TrimmedAt(s.items, both, {client}, x);
    }
    TrimmedAt(s.clients, {client}, l, 0);
    TrimmedAt(s.items, both, {client}, 0);
  }

  /** A run keeps the maps inverses at every point. */
  ghost predicate InverseThroughout(s: State, ops: seq<Op>)
    decreases |ops|
  {
    Inverse(s) && (ops != [] ==> InverseThroughout(Step(s, ops[0]), ops[1..]))
  }

  ghost predicate NeverReupdates(s: State, ops: seq<Op>)
    decreases |ops|
  {
    ops != [] ==> !Reupdates(s, ops[0]) && NeverReupdates(Step(s, ops[0]), ops[1..])
  }

  /** Over any run, the maps are inverses throughout exactly when no client with items updates them. */
  lemma {:induction false} RunKeepsInverseIff(s: State, ops: seq<Op>)
    requires Inverse(s)
    ensures InverseThroughout(s, ops) <==> NeverReupdates(s, ops)
    decreases |ops|
  {
    if ops != [] {
      StepKeepsInverseIff(s, ops[0]);
      if !Reupdates(s, ops[0]) {
        RunKeepsInverseIff(Step(s, ops[0]), ops[1..]);
      }
    }
  }

  /** A client of item 1 that asks for 1 and 2 is no longer told about 1. */
  lemma UpdateCanLoseClient()
    ensures var s := Step(Step(INITIAL, Subscribe({1}, 7, false)), UpdateSubscription({1, 2}, 7));
            Get(s.clients, 7) == {1, 2} && 1 !in s.items && Get(s.items, 2) == {7}
  {
    var s1 := Step(INITIAL, Subscribe({1}, 7, false));
    assert Added(INITIAL.clients, {7}, {1}) == map[7 := {1}] && Added(INITIAL.items, {1}, {7}) == map[1 := {7}];
    var s2 := Step(s1, UpdateSubscription({1, 2}, 7));
    assert Get(s1.clients, 7) * {1, 2} == {1};
    assert {1, 2} - Get(s1.clients, 7) == {2};
    assert Trimmed(s1.items, {1}, {7}) == map[];
    assert s2.items == Added(map[], {2}, {7});
  }

  // ---------------------------------------------------------------- who is told

  /** Every client is in the item map for everything it asked for. */
  ghost predicate Covers(s: State) {
    forall c, x :: x in Get(s.clients, c) ==> c in Get(s.items, x)
  }

  /** Every client holds the cached value of everything it asked for that is cached. */
  ghost predicate UpToDate(f: Feed) {
    forall c, x :: x in Get(f.state.clients, c) && x in f.cache ==> Holds(f, c, x)
  }

  predicate Holds(f: Feed, c: Client, x: DataItemId)
    requires x in f.cache
  {
    x in HeardBy(f.heard, c) && HeardBy(f.heard, c)[x] == f.cache[x]
  }

  /** An update that keeps an item the client already has. */
  predicate KeepsItems(s: State, op: Op) {
    op.UpdateSubscription? && Effective(op) && Get(s.clients, op.client) * op.l != {}
  }

  lemma UpdateCoversIff(s: State, l: set<DataItemId>, client: Client)
    requires Covers(s) && l != {}
    ensures Covers(UpdateWith(s, l, client, Get(s.clients, client) * l)) <==> Get(s.clients, client) * l == {}
  {
    var C := Get(s.clients, client);
    var t := UpdateWith(s, l, client, C * l);
    forall c, x
      ensures c in Get(t.items, x) <==> if c == client then (c in Get(s.items, x) && x !in C * l) || x in l - C
                                        else c in Get(s.items, x)
      ensures x in Get(t.clients, c) <==> if c == client then x in l else x in Get(s.clients, c)
    {
      TrimmedAt(s.items, C * l, {client}, x);
      AddedAt(Trimmed(s.items, C * l, {client}), l - C, {client}, x);
    }
    if Covers(t) {
      assert forall x :: x in C * l ==> x in Get(t.clients, client) && client !in Get(t.items, x);
    }
  }

  lemma SubscribeCovers(s: State, l: set<DataItemId>, client: Client, toRequestData: bool)
    requires Covers(s) && Effective(Op.Subscribe(l, client, toRequestData))
    ensures Covers(Step(s, Op.Subscribe(l, client, toRequestData)))
  {
    forall c, x | x in Get(Added(s.clients, {client}, l), c) ensures c in Get(Added(s.items, l, {client}), x) {
      AddedAt(s.clients, {client}, l, c);
      AddedAt(s.items, l, {client}, x);
    }
  }

  lemma DroppedCovers(s: State, l: set<DataItemId>, client: Client)
    requires Covers(s)
    ensures Covers(Dropped(s, l, client))
  {
    var both := l * Get(s.clients, client);
    forall c, x | x in Get(Trimmed(s.clients, {client}, l), c) ensures c in Get(Trimmed(s.items, both, {client}), x) {
      TrimmedAt(s.clients, {client}, l, c);
      TrimmedAt(s.items, both, {client}, x);
    }
  }

  /** An operation keeps every client in the item map if and only if it is not an update that keeps an item. */
  lemma StepCoversIff(s: State, op: Op)
    requires Covers(s)
    ensures Covers(Step(s, op)) <==> !KeepsItems(s, op)
  {
    if Effective(op) {
      match op
      case SetSubscriptionObj =>
      case Subscribe(l, client, toRequestData) => SubscribeCovers(s, l, client, toRequestData);
      case UpdateSubscription(l, client) => UpdateCoversIff(s, l, client);
      case Unsubscribe(l, client) => DroppedCovers(s, l, client);
      case UnsubscribeAll(client) => DroppedCovers(s, Get(s.clients, client), client);
    }
  }

  /** What an operation makes of a client's items: only its own new ones come in. */
  lemma StepClients(s: State, op: Op, c: Client)
    ensures var now := Get(Step(s, op).clients, c);
            if Effective(op) && (op.Subscribe? || op.UpdateSubscription?) && op.client == c
            then now <= Get(s.clients, c) + op.l && (op.UpdateSubscription? ==> now == op.l)
            else now <= Get(s.clients, c)
  {
    if Effective(op) {
      match op
      case SetSubscriptionObj =>
      case Subscribe(l, client, toRequestData) => AddedAt(s.clients, {client}, l, c);
      case UpdateSubscription(l, client) =>
      case Unsubscribe(l, client) => TrimmedAt(s.clients, {client}, l, c);
      case UnsubscribeAll(client) => TrimmedAt(s.clients, {client}, Get(s.clients, client), c);
    }
  }

  /** Every operation, updates included, leaves the clients up to date. */
  lemma AskKeepsUpToDate(f: Feed, op: Op)
    requires UpToDate(f)
    ensures UpToDate(FeedStep(f, Ask(op)))
  {
    var next := FeedStep(f, Ask(op));
    forall c, x | x in Get(next.state.clients, c) && x in next.cache ensures Holds(next, c, x) {
      StepClients(f.state, op, c);
      if x in Get(f.state.clients, c) {
        assert Holds(f, c, x);
      }
    }
  }

  /** A report changes the cache exactly at the changed items. */
  lemma {:induction false} RecordedAt(cache: Cache, items: seq<Item>, x: DataItemId)
    ensures x in Changed(cache, items) ==> x in Recorded(cache, items)
    ensures x in cache ==> x in Recorded(cache, items)
    ensures x !in Changed(cache, items) ==>
              (x in cache <==> x in Recorded(cache, items))
              && (x in cache ==> cache[x] == Recorded(cache, items)[x])
    decreases |items|
  {
    if items != [] {
      RecordedAt(Record(cache, items[0]), items[1..], x);
    }
  }

  lemma TellAllAt(heard: map<Client, Cache>, news: map<Client, Cache>, c: Client)
    ensures HeardBy(TellAll(heard, news), c) == if c in news then HeardBy(heard, c) + news[c] else HeardBy(heard, c)
  {
  }

  /** A listener is told of every changed item that it asked for, and of nothing else. */
  lemma NewsReach(heard: map<Client, Cache>, s: State, sent: set<DataItemId>, cache: Cache, c: Client, x: DataItemId)
    requires x in Get(s.clients, c) && c in Get(s.items, x) && x in cache
    ensures var now := HeardBy(TellAll(heard, NewsOf(s.clients, sent, cache, Listeners(s, sent))), c);
            if x in sent then x in now && now[x] == cache[x]
            else (x in HeardBy(heard, c) ==> x in now && now[x] == HeardBy(heard, c)[x])
  {
    var news := NewsOf(s.clients, sent, cache, Listeners(s, sent));
    TellAllAt(heard, news, c);
    if x in sent {
      assert c in Listeners(s, sent) && x in News(cache, Get(s.clients, c) * sent);
    }
  }

  /** A report reaches every client that the item map has. */
  lemma NotifyKeepsUpToDate(f: Feed, items: seq<Item>)
    requires UpToDate(f) && Covers(f.state)
    ensures UpToDate(FeedStep(f, Action.Notify(items)))
  {
    var next, sent := FeedStep(f, Action.Notify(items)), Changed(f.cache, items);
    forall c, x | x in Get(next.state.clients, c) && x in next.cache ensures Holds(next, c, x) {
      RecordedAt(f.cache, items, x);
      NewsReach(f.heard, f.state, sent, next.cache, c, x);
      assert x in f.cache ==> Holds(f, c, x);
    }
  }

  /** A report of a new value for an item misses a client that the item map does not have for it. */
  lemma NotifyMisses(f: Feed, c: Client, x: DataItemId)
    requires x in Get(f.state.clients, c) && c !in Get(f.state.items, x)
    ensures exists items :: !UpToDate(FeedStep(f, Action.Notify(items)))
  {
    var v := if x in f.cache then f.cache[x] else 0;
    var w := if x in HeardBy(f.heard, c) then HeardBy(f.heard, c)[x] else 0;
    var fresh' := if v < w then w + 1 else v + 1;
    var items := [Item(x, fresh', true)];
    var next := FeedStep(f, Action.Notify(items));
    assert items[1..] == [] && Changes(f.cache, items[0]);
    assert Changed(f.cache, items) == {x} + Changed(Record(f.cache, items[0]), items[1..]);
    assert next.cache == Recorded(Record(f.cache, items[0]), items[1..]);
    assert c !in Listeners(f.state, {x});
    assert HeardBy(next.heard, c) == HeardBy(f.heard, c);
    assert !Holds(next, c, x);
  }

  /** The clients are up to date, and will be after any report that may come next. */
  ghost predicate KeepsInformed(f: Feed) {
    UpToDate(f) && forall items :: UpToDate(FeedStep(f, Action.Notify(items)))
  }

  lemma KeepsInformedIff(f: Feed)
    requires UpToDate(f)
    ensures KeepsInformed(f) <==> Covers(f.state)
  {
    if Covers(f.state) {
      forall items ensures UpToDate(FeedStep(f, Action.Notify(items))) { NotifyKeepsUpToDate(f, items); }
    } else {
      var c, x :| x in Get(f.state.clients, c) && c !in Get(f.state.items, x);
      NotifyMisses(f, c, x);
    }
  }

  ghost predicate InformedThroughout(f: Feed, actions: seq<Action>)
    decreases |actions|
  {
    KeepsInformed(f) && (actions != [] ==> InformedThroughout(FeedStep(f, actions[0]), actions[1..]))
  }

  ghost predicate NeverKeepsItems(f: Feed, actions: seq<Action>)
    decreases |actions|
  {
    actions != [] ==>
      && !(actions[0].Ask? && KeepsItems(f.state, actions[0].op))
      && NeverKeepsItems(FeedStep(f, actions[0]), actions[1..])
  }

  /** Over any run of operations and reports, every client holds the current value of everything it asked for,
    * now and after whatever is reported next, at every point if and only if no client's update keeps an item
    * that it already has.
    */
  lemma {:induction false} RunKeepsInformedIff(f: Feed, actions: seq<Action>)
    requires UpToDate(f) && Covers(f.state)
    ensures InformedThroughout(f, actions) <==> NeverKeepsItems(f, actions)
    decreases |actions|
  {
    KeepsInformedIff(f);
    if actions != [] {
      var next := FeedStep(f, actions[0]);
      match actions[0]
      case Notify(items) =>
        NotifyKeepsUpToDate(f, items);
        RunKeepsInformedIff(next, actions[1..]);
      case Ask(op) =>
        AskKeepsUpToDate(f, op);
        StepCoversIff(f.state, op);
        if KeepsItems(f.state, op) {
          KeepsInformedIff(next);
        } else {
          RunKeepsInformedIff(next, actions[1..]);
        }
    }
  }

  // ---------------------------------------------------------------- which messages, and about what

  /** The cache holds the latest accepted value of a reported item. */
  lemma {:induction false} RecordedIsLast(cache: Cache, items: seq<Item>, n: nat)
    requires n < |items| && items[n].accepted
    requires forall k :: n < k < |items| ==> items[k].id != items[n].id || !items[k].accepted
    ensures items[n].id in Recorded(cache, items) && Recorded(cache, items)[items[n].id] == items[n].value
    decreases |items|
  {
    var next := Record(cache, items[0]);
    if n > 0 {
      RecordedIsLast(next, items[1..], n - 1);
    } else {
      RecordedKeeps(next, items[1..], items[0].id);
    }
  }

  /** It is unchanged where nothing is accepted. */
  lemma {:induction false} RecordedKeeps(cache: Cache, items: seq<Item>, x: DataItemId)
    requires forall n :: 0 <= n < |items| ==> items[n].id != x || !items[n].accepted
    ensures !Differs(cache, Recorded(cache, items), x)
    decreases |items|
  {
    if items != [] {
      RecordedKeeps(Record(cache, items[0]), items[1..], x);
    }
  }

  /** The cached value of an item, if there is one, differs between two caches. */
  predicate Differs(a: Cache, b: Cache, x: DataItemId) {
    (x in a) != (x in b) || (x in a && x in b && a[x] != b[x])
  }

  /** The items that count as changed are those whose cached value differs at some point of the report. */
  lemma {:induction false} ChangedIff(cache: Cache, items: seq<Item>, x: DataItemId)
    ensures x in Changed(cache, items) <==>
            exists n :: 0 <= n <= |items| && Differs(cache, Recorded(cache, items[..n]), x)
    decreases |items|
  {
    if items == [] {
      assert items[..0] == [];
    } else {
      var next := Record(cache, items[0]);
      ChangedIff(next, items[1..], x);
      forall n | 0 < n <= |items| ensures Recorded(cache, items[..n]) == Recorded(next, items[1..][..n - 1]) {
        assert items[..n][1..] == items[1..][..n - 1];
      }
      assert items[1..][..0] == [] && items[..0] == [] && items[..1][1..] == [];
      if Changes(cache, items[0]) && items[0].id == x {
        assert Differs(cache, Recorded(cache, items[..1]), x);
      } else {
        ChangedLater(cache, next, items, x);
      }
    }
  }

  lemma ChangedLater(cache: Cache, next: Cache, items: seq<Item>, x: DataItemId)
    requires items != [] && !Differs(cache, next, x)
    requires forall n :: 0 < n <= |items| ==> Recorded(cache, items[..n]) == Recorded(next, items[1..][..n - 1])
    ensures (exists n :: 0 <= n <= |items| && Differs(cache, Recorded(cache, items[..n]), x)) <==>
            (exists n :: 0 <= n <= |items| - 1 && Differs(next, Recorded(next, items[1..][..n]), x))
  {
    assert items[..0] == [] && items[1..][..0] == [];
    if exists n :: 0 <= n <= |items| && Differs(cache, Recorded(cache, items[..n]), x) {
      var n :| 0 <= n <= |items| && Differs(cache, Recorded(cache, items[..n]), x);
      assert n > 0 && Differs(next, Recorded(next, items[1..][..n - 1]), x);
    }
    if exists n :: 0 <= n <= |items| - 1 && Differs(next, Recorded(next, items[1..][..n]), x) {
      var n :| 0 <= n <= |items| - 1 && Differs(next, Recorded(next, items[1..][..n]), x);
      assert Differs(cache, Recorded(cache, items[..n + 1]), x);
    }
  }

  /** The message is about exactly these items, with their values in the cache, and about something. */
  ghost predicate IsAbout(news: Cache, items: set<DataItemId>, cache: Cache) {
    && news != map[]
    && (forall x :: x in news <==> x in items && x in cache)
    && forall x :: x in news ==> news[x] == cache[x]
  }

  lemma NewsIsAbout(news: Cache, items: set<DataItemId>, cache: Cache)
    ensures IsAbout(news, items, cache) <==> news == News(cache, items) && news != map[]
  {
  }

  /** A report sends each client at most one message: about exactly the changed items that it asked for, if the item
    * map has it for some changed item. Nobody is told about anything else.
    */
  lemma NotifyTells(f: Feed, items: seq<Item>, msg: Message)
    ensures var next, sent := FeedStep(f, Action.Notify(items)), Changed(f.cache, items);
            next.messages[msg] ==
            f.messages[msg]
            + (if (exists y :: y in sent && msg.client in Get(f.state.items, y))
                  && IsAbout(msg.news, Get(f.state.clients, msg.client) * sent, next.cache) then 1 else 0)
  {
    var next, sent := FeedStep(f, Action.Notify(items)), Changed(f.cache, items);
    NewsIsAbout(msg.news, Get(f.state.clients, msg.client) * sent, next.cache);
    var news := NewsOf(f.state.clients, sent, next.cache, Listeners(f.state, sent));
    assert msg in MessagesOf(news) <==> msg.client in news && news[msg.client] == msg.news;
    assert msg.client in Listeners(f.state, sent) <==> exists y :: y in sent && msg.client in Get(f.state.items, y);
  }

  /** A subscription tells its client what is cached of its items, an update what is cached of the new ones, and no
    * other operation tells anybody anything.
    */
  lemma AskTells(f: Feed, op: Op, msg: Message)
    ensures FeedStep(f, Ask(op)).messages[msg] ==
            f.messages[msg]
            + (if Effective(op) && op.Subscribe? && msg.client == op.client && IsAbout(msg.news, op.l, f.cache) then 1
               else if Effective(op) && op.UpdateSubscription? && msg.client == op.client
                       && IsAbout(msg.news, op.l - Get(f.state.clients, op.client), f.cache) then 1
               else 0)
  {
    if op.Subscribe? { NewsIsAbout(msg.news, op.l, f.cache); }
    if op.UpdateSubscription? { NewsIsAbout(msg.news, op.l - Get(f.state.clients, op.client), f.cache); }
  }

  /** An operation without items or without a client is dropped. */
  lemma EmptyIsDropped(f: Feed, op: Op)
    requires !op.SetSubscriptionObj? && (op.client == 0 || (!op.UnsubscribeAll? && op.l == {}))
    ensures FeedStep(f, Ask(op)) == f
  {
  }

  /** What each operation makes of each client's items. */
  lemma StepClientsAre(s: State, op: Op, c: Client)
    ensures Get(Step(s, op).clients, c) ==
            if !Effective(op) || op.SetSubscriptionObj? || op.client != c then Get(s.clients, c)
            else match op
                 case Subscribe(l, _, _) => Get(s.clients, c) + l
                 case UpdateSubscription(l, _) => l
                 case Unsubscribe(l, _) => Get(s.clients, c) - l
                 case _ => {}
  {
    if Effective(op) {
      match op
      case SetSubscriptionObj =>
      case Subscribe(l, client, toRequestData) => AddedAt(s.clients, {client}, l, c);
      case UpdateSubscription(l, client) =>
      case Unsubscribe(l, client) => TrimmedAt(s.clients, {client}, l, c);
      case UnsubscribeAll(client) => TrimmedAt(s.clients, {client}, Get(s.clients, client), c);
    }
  }

  // ---------------------------------------------------------------- whose data the framework is asked for

  function FeedRun(actions: seq<Action>): Feed {
    if actions == [] then SILENCE else FeedStep(FeedRun(actions[..|actions| - 1]), actions[|actions| - 1])
  }

  ghost predicate HasObj(actions: seq<Action>) {
    exists n :: 0 <= n < |actions| && actions[n] == Ask(SetSubscriptionObj)
  }

  /** The n-th action asks for the data of x: a client's subscription that requests it while there is an object, or an
    * object that comes when x has clients.
    */
  ghost predicate AsksFor(actions: seq<Action>, n: nat, x: DataItemId)
    requires n < |actions|
  {
    || (actions[n].Ask? && actions[n].op.Subscribe? && actions[n].op.toRequestData && actions[n].op.client != 0
        && x in actions[n].op.l && HasObj(actions[..n]))
    || (actions[n] == Ask(SetSubscriptionObj) && Get(FeedRun(actions[..n]).state.items, x) != {})
  }

  lemma StepHasObj(f: Feed, a: Action)
    ensures FeedStep(f, a).state.hasObj <==> f.state.hasObj || a == Ask(SetSubscriptionObj)
  {
  }

  lemma HasObjLast(actions: seq<Action>)
    requires actions != []
    ensures HasObj(actions) <==> HasObj(actions[..|actions| - 1]) || actions[|actions| - 1] == Ask(SetSubscriptionObj)
  {
    var init := actions[..|actions| - 1];
    if HasObj(init) {
      var n :| 0 <= n < |init| && init[n] == Ask(SetSubscriptionObj);
      assert actions[n] == init[n];
    }
    if HasObj(actions) {
      var n :| 0 <= n < |actions| && actions[n] == Ask(SetSubscriptionObj);
      assert n < |init| ==> init[n] == actions[n];
    }
  }

  lemma {:induction false} RunHasObjIff(actions: seq<Action>)
    ensures FeedRun(actions).state.hasObj <==> HasObj(actions)
  {
    if actions != [] {
      RunHasObjIff(actions[..|actions| - 1]);
      StepHasObj(FeedRun(actions[..|actions| - 1]), actions[|actions| - 1]);
      HasObjLast(actions);
    }
  }

  lemma {:induction false} RunHasNoEmptyEntry(actions: seq<Action>)
    ensures NoEmptyEntry(FeedRun(actions).state.clients) && NoEmptyEntry(FeedRun(actions).state.items)
  {
    if actions != [] {
      var before, last := FeedRun(actions[..|actions| - 1]).state, actions[|actions| - 1];
      RunHasNoEmptyEntry(actions[..|actions| - 1]);
      if last.Ask? { StepHasNoEmptyEntry(before, last.op); }
    }
  }

  lemma StepHasNoEmptyEntry(s: State, op: Op)
    requires NoEmptyEntry(s.clients) && NoEmptyEntry(s.items)
    ensures NoEmptyEntry(Step(s, op).clients) && NoEmptyEntry(Step(s, op).items)
  {
    if Effective(op) {
      match op
      case SetSubscriptionObj =>
      case Subscribe(l, client, toRequestData) =>
        AddedAt(s.items, l, {client}, 0);
        AddedAt(s.clients, {client}, l, 0);
      case UpdateSubscription(l, client) => UpdateWithHasNoEmptyEntry(s, l, client, Get(s.clients, client) * l);
      case Unsubscribe(l, client) =>
        TrimmedAt(s.clients, {client}, l, 0);
        TrimmedAt(s.items, l * Get(s.clients, client), {client}, 0);
      case UnsubscribeAll(client) =>
        TrimmedAt(s.clients, {client}, Get(s.clients, client), 0);
        TrimmedAt(s.items, Get(s.clients, client) * Get(s.clients, client), {client}, 0);
    }
  }

  lemma AsksForInit(actions: seq<Action>, n: nat, x: DataItemId)
    requires n < |actions| - 1
    ensures AsksFor(actions, n, x) <==> AsksFor(actions[..|actions| - 1], n, x)
  {
    assert actions[..n] == actions[..|actions| - 1][..n];
  }

  lemma AsksForLast(actions: seq<Action>, x: DataItemId)
    requires actions != []
    ensures var before := FeedRun(actions[..|actions| - 1]);
            x in FeedRun(actions).requested <==> x in before.requested || AsksFor(actions, |actions| - 1, x)
  {
    var init := actions[..|actions| - 1];
    RunHasObjIff(init);
    RunHasNoEmptyEntry(init);
    RequestedNow(FeedRun(init), actions[|actions| - 1], x);
  }

  ghost predicate EverAskedFor(actions: seq<Action>, x: DataItemId) {
    exists n :: 0 <= n < |actions| && AsksFor(actions, n, x)
  }

  lemma EverAskedForLast(actions: seq<Action>, x: DataItemId)
    requires actions != []
    ensures EverAskedFor(actions, x) <==>
            EverAskedFor(actions[..|actions| - 1], x) || AsksFor(actions, |actions| - 1, x)
  {
    var init := actions[..|actions| - 1];
    forall n | 0 <= n < |init| ensures AsksFor(actions, n, x) <==> AsksFor(init, n, x) { AsksForInit(actions, n, x); }
    if EverAskedFor(init, x) {
      var n :| 0 <= n < |init| && AsksFor(init, n, x);
      assert AsksFor(actions, n, x);
    }
  }

  /** Over any run the framework has been asked for the data of an item if and only if some action asked for it. */
  lemma {:induction false} RequestedIff(actions: seq<Action>, x: DataItemId)
    ensures x in FeedRun(actions).requested <==> EverAskedFor(actions, x)
  {
    if actions != [] {
      RequestedIff(actions[..|actions| - 1], x);
      AsksForLast(actions, x);
      EverAskedForLast(actions, x);
    }
  }

  lemma RequestedNow(f: Feed, a: Action, x: DataItemId)
    requires NoEmptyEntry(f.state.items)
    ensures x in FeedStep(f, a).requested <==>
            || x in f.requested
            || (a.Ask? && a.op.Subscribe? && a.op.toRequestData && a.op.client != 0 && x in a.op.l && f.state.hasObj)
            || (a == Ask(SetSubscriptionObj) && Get(f.state.items, x) != {})
  {
  }

  // ---------------------------------------------------------------- what the framework is asked for

  /** Nothing is subscribed before there is an object, and only items that have clients afterwards. */
  ghost predicate Bounded(s: State) {
    (!s.hasObj ==> s.subscribed == {}) && s.subscribed <= s.items.Keys
  }

  ghost predicate Exact(s: State) {
    s.hasObj ==> s.subscribed == s.items.Keys
  }

  /** A first subscription to an item that only requests its data. */
  predicate OnlyRequests(s: State, op: Op) {
    s.hasObj && op.Subscribe? && Effective(op) && op.toRequestData && !(op.l <= s.items.Keys)
  }

  /** Every operation, updates included, keeps the framework's items among those with clients, and keeps them
    * equal exactly when it is not a bare data request for an item without clients.
    */
  lemma StepKeepsSubscribed(s: State, op: Op)
    requires Bounded(s)
    ensures Bounded(Step(s, op))
    ensures Exact(s) ==> (Exact(Step(s, op)) <==> !OnlyRequests(s, op))
  {
  }

  function Run(s: State, ops: seq<Op>): State
    decreases |ops|
  {
    if ops == [] then s else Run(Step(s, ops[0]), ops[1..])
  }

  /** In any run, whatever the operations, the framework is asked only for items that have clients. */
  lemma {:induction false} RunNeverSubscribesUnused(s: State, ops: seq<Op>)
    requires Bounded(s)
    ensures Bounded(Run(s, ops))
    decreases |ops|
  {
    if ops != [] {
      StepKeepsSubscribed(s, ops[0]);
      RunNeverSubscribesUnused(Step(s, ops[0]), ops[1..]);
    }
  }

  ghost predicate ExactThroughout(s: State, ops: seq<Op>)
    decreases |ops|
  {
    Exact(s) && (ops != [] ==> ExactThroughout(Step(s, ops[0]), ops[1..]))
  }

  ghost predicate NeverOnlyRequests(s: State, ops: seq<Op>)
    decreases |ops|
  {
    ops != [] ==> !OnlyRequests(s, ops[0]) && NeverOnlyRequests(Step(s, ops[0]), ops[1..])
  }

  /** Over any run with a subscription object, the framework is subscribed to exactly the item map's keys
    * throughout if and only if no operation only requests an item without clients.
    */
  lemma {:induction false} RunKeepsSubscribedIff(s: State, ops: seq<Op>)
    requires Bounded(s) && Exact(s)
    ensures ExactThroughout(s, ops) <==> NeverOnlyRequests(s, ops)
    decreases |ops|
  {
    if ops != [] {
      StepKeepsSubscribed(s, ops[0]);
      if !OnlyRequests(s, ops[0]) {
        RunKeepsSubscribedIff(Step(s, ops[0]), ops[1..]);
      }
    }
  }

  /** Subscribing and then unsubscribing a client without items restores the whole state. */
  lemma UnsubscribeUndoesSubscribe(s: State, l: set<DataItemId>, client: Client)
    requires Inverse(s) && Bounded(s) && Exact(s) && Get(s.clients, client) == {}
    requires l != {} && client != NULLPTR
    ensures Step(Step(s, Subscribe(l, client, false)), Unsubscribe(l, client)) == s
    ensures Step(Step(s, Subscribe(l, client, false)), UnsubscribeAll(client)) == s
  {
    var t := Step(s, Subscribe(l, client, false));
    assert Get(t.clients, client) == l;
    assert l * l == l;
    var u := Dropped(t, l, client);
    assert u.clients == s.clients;
    assert forall x :: client !in Get(s.items, x) by {
      forall x ensures client !in Get(s.items, x) {
        assert x in Get(s.clients, client) <==> client in Get(s.items, x);
      }
    }
    forall x ensures Get(u.items, x) == Get(s.items, x) {
      AddedAt(s.items, l, {client}, x);
      TrimmedAt(t.items, l, {client}, x);
    }
    AddedAt(s.items, l, {client}, 0);
    TrimmedAt(t.items, l, {client}, 0);
    SameEntries(u.items, s.items);
    assert u.subscribed == s.subscribed;
  }

  lemma SameEntries<K, V>(m: map<K, set<V>>, n: map<K, set<V>>)
    requires NoEmptyEntry(m) && NoEmptyEntry(n)
    requires forall k :: Get(m, k) == Get(n, k)
    ensures m == n
  {
    forall k ensures (k in m <==> k in n) && (k in m ==> m[k] == n[k]) {
      assert Get(m, k) == Get(n, k);
    }
  }
}
