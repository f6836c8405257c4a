/**
 The OpenWhisk credential cache of pkg/registry/functions/ow_resolver.go: a hash
 map and a doubly linked list that together form a bounded LRU cache with expiry.

 The list is the first part (Element, List), the cache the second (Resolver), and
 the third states what runs of the cache guarantee, over the most-recent-first
 sequence of entries that the first two implement.
 */
module OwResolver {
  import opened Sequences

  const MAX_CACHE_ENTRIES: nat := 6000

  /** Points in time, in any unit. */
  type Time = int

  datatype CachedAuth = CachedAuth(client: string, nsName: string, validUntil: Time)

  datatype Entry = Entry(key: string, auth: CachedAuth)

  // ------------------------------------------------------------------
  // The most-recent-first sequence of entries
  // ------------------------------------------------------------------

  function Keys(s: seq<Entry>): (r: seq<string>)
    ensures |r| == |s|
    ensures forall i :: 0 <= i < |s| ==> r[i] == s[i].key
  {
    seq(|s|, i requires 0 <= i < |s| => s[i].key)
  }

  ghost predicate UniqueKeys(s: seq<Entry>) {
    Distinct(Keys(s))
  }

  ghost predicate WellFormed(s: seq<Entry>) {
    UniqueKeys(s) && |s| <= MAX_CACHE_ENTRIES
  }

  function Find(s: seq<Entry>, key: string): Option<CachedAuth> {
    if s == [] then None
    else if s[0].key == key then Some(s[0].auth)
    else Find(s[1..], key)
  }

  predicate Expired(e: Entry, now: Time) {
    now > e.auth.validUntil
  }

  function Without(s: seq<Entry>, key: string): (r: seq<Entry>)
    ensures |r| <= |s|
  {
    if s == [] then []
    else if s[0].key == key then Without(s[1..], key)
    else [s[0]] + Without(s[1..], key)
  }

  function Unexpired(s: seq<Entry>, now: Time): (r: seq<Entry>)
    ensures |r| <= |s|
  {
    if s == [] then []
    else if Expired(s[0], now) then Unexpired(s[1..], now)
    else [s[0]] + Unexpired(s[1..], now)
  }

  function First(s: seq<Entry>, n: nat): seq<Entry> {
    if |s| <= n then s else s[..n]
  }

  /** A hit moves the entry to the front; an entry found expired is dropped. */
  function LookedUp(s: seq<Entry>, key: string, now: Time): seq<Entry> {
    match Find(s, key)
    case None => s
    case Some(auth) =>
      if now < auth.validUntil then [Entry(key, auth)] + Without(s, key) else Without(s, key)
  }

  function Hit(s: seq<Entry>, key: string, now: Time): Option<CachedAuth> {
    var r := Find(s, key);
    if r.Some? && now < r.value.validUntil then r else None
  }

  /** A put replaces the key's entry, sweeps, and evicts from the back. */
  function AfterPut(s: seq<Entry>, key: string, auth: CachedAuth, now: Time): seq<Entry> {
    [Entry(key, auth)] + First(Unexpired(Without(s, key), now), MAX_CACHE_ENTRIES - 1)
  }

  // ------------------------------------------------------------------
  // The doubly linked list
  // ------------------------------------------------------------------

  class Element {
    const entry: Entry
    var next: Element?
    var prev: Element?

    constructor (entry: Entry)
      ensures this.entry == entry && next == null && prev == null
    {
      this.entry := entry;
      next, prev := null, null;
    }
  }

  class List {
    var front: Element?
    var back: Element?
    var len: nat
    ghost var nodes: seq<Element>
    ghost var repr: set<Element>  // every element this list may still change

    ghost predicate Valid()
      reads this, repr
    {
      && (forall i {:trigger nodes[i]} :: 0 <= i < |nodes| ==> nodes[i] in repr)
      && len == |nodes|
      && Distinct(nodes)
      && (nodes == [] ==> front == null && back == null)
      && (nodes != [] ==>
            && front == nodes[0] && back == nodes[|nodes| - 1]
            && nodes[0].prev == null && nodes[|nodes| - 1].next == null)
      && (forall i {:trigger nodes[i].prev} :: 1 <= i < |nodes| ==> nodes[i].prev == nodes[i - 1])
      && (forall i {:trigger nodes[i].next} :: 0 <= i < |nodes| - 1 ==> nodes[i].next == nodes[i + 1])
    }

    constructor ()
      ensures Valid() && nodes == [] && repr == {}
    {
      front, back, len, nodes, repr := null, null, 0, [], {};
    }

    method Remove(e: Element, ghost k: nat)
      requires Valid()
      requires k < |nodes| && nodes[k] == e
      modifies this, repr
      ensures Valid()
      ensures nodes == RemoveAt(old(nodes), k) && repr == old(repr)
    {
      ghost var was := nodes;
      DistinctRemoveAt(nodes, k);
      DistinctAt(nodes, k);
      if k > 0 { DistinctAt(nodes, k - 1); }
      if k + 1 < |nodes| { DistinctAt(nodes, k + 1); }
      if e.prev == null { front := e.next; } else { e.prev.next := e.next; }
      if e.next == null { back := e.prev; } else { e.next.prev := e.prev; }
      len := len - 1;
      nodes := RemoveAt(nodes, k);
      assert |nodes| == |was| - 1;
      forall i | 1 <= i < |nodes|
        ensures nodes[i].prev == nodes[i - 1]
      {
        RemovedPair(was, k, i - 1);
      }
      forall i | 0 <= i < |nodes| - 1
        ensures nodes[i].next == nodes[i + 1]
      {
        RemovedPair(was, k, i);
      }
    }

    method LinkFront(e: Element)
      requires Valid() && e !in nodes
      modifies this, repr, e
      ensures Valid()
      ensures nodes == [e] + old(nodes) && repr == old(repr) + {e}
    {
      DistinctPrepend(e, nodes);
      if nodes != [] { DistinctAt(nodes, 0); }
      e.prev, e.next := null, front;
      if front == null { back := e; } else { front.prev := e; }
      front := e;
      len := len + 1;
      nodes, repr := [e] + nodes, repr + {e};
    }

    method PushFront(entry: Entry) returns (e: Element)
      requires Valid()
      modifies this, repr
      ensures Valid() && fresh(e) && e.entry == entry
      ensures nodes == [e] + old(nodes) && repr == old(repr) + {e}
    {
      e := new Element(entry);
      LinkFront(e);
    }

    method MoveToFront(e: Element, ghost k: nat)
      requires Valid()
      requires k < |nodes| && nodes[k] == e
      modifies this, repr
      ensures Valid()
      ensures nodes == [e] + RemoveAt(old(nodes), k) && repr == old(repr)
    {
      if front != e {
        DistinctRemoveAt(nodes, k);
        Remove(e, k);
        LinkFront(e);
      }
    }
  }

  // ------------------------------------------------------------------
  // The cache: a map and a list changed together
  // ------------------------------------------------------------------

  function EntriesOf(nodes: seq<Element>): (r: seq<Entry>)
    ensures |r| == |nodes|
    ensures forall i :: 0 <= i < |r| ==> r[i] == nodes[i].entry
  {
    seq(|nodes|, i requires 0 <= i < |nodes| => nodes[i].entry)
  }

  /** The map holds exactly the list's elements, each under its own key. */
  ghost predicate Indexes(items: map<string, Element>, nodes: seq<Element>) {
    && (forall k :: k in items ==> items[k] in nodes && items[k].entry.key == k)
    && (forall e :: e in nodes ==> e.entry.key in items && items[e.entry.key] == e)
  }

  lemma IndexesDrop(items: map<string, Element>, nodes: seq<Element>, k: nat)
    requires Distinct(nodes) && Indexes(items, nodes) && k < |nodes|
    ensures Indexes(items - {nodes[k].entry.key}, RemoveAt(nodes, k))
  {
    var rest := RemoveAt(nodes, k);
    DistinctRemoveAt(nodes, k);
    forall e | e in nodes && e != nodes[k] ensures e in rest {
      var i :| 0 <= i < |nodes| && nodes[i] == e;
      assert rest[if i < k then i else i - 1] == e;
    }
  }

  lemma IndexesPrepend(items: map<string, Element>, nodes: seq<Element>, e: Element)
    requires Indexes(items, nodes) && e.entry.key !in items
    ensures e !in nodes
    ensures Indexes(items[e.entry.key := e], [e] + nodes)
  {
    var more := items[e.entry.key := e];
    forall k | k in more ensures more[k] in [e] + nodes {
      assert ([e] + nodes)[0] == e;
      if k != e.entry.key {
        var i :| 0 <= i < |nodes| && nodes[i] == items[k];
        assert ([e] + nodes)[i + 1] == items[k];
      }
    }
  }

  lemma IndexesSameMembers(items: map<string, Element>, nodes: seq<Element>, k: nat)
    requires Indexes(items, nodes) && k < |nodes|
    ensures Indexes(items, [nodes[k]] + RemoveAt(nodes, k))
  {
    var moved := [nodes[k]] + RemoveAt(nodes, k);
    forall e | e in nodes ensures e in moved {
      var i :| 0 <= i < |nodes| && nodes[i] == e;
      assert moved[if i < k then i + 1 else if i == k then 0 else i] == e;
    }
  }

  lemma IndexedKeysUnique(items: map<string, Element>, nodes: seq<Element>)
    requires Distinct(nodes) && Indexes(items, nodes)
    ensures UniqueKeys(EntriesOf(nodes))
    ensures |items| == |nodes|
  {
    var keys := Keys(EntriesOf(nodes));
    forall i, j | 0 <= i < j < |nodes| ensures Apart(keys, i, j) {
      assert Apart(nodes, i, j) && nodes[i] in nodes && nodes[j] in nodes;
    }
    KeysOfNodes(items, nodes);
  }

  lemma {:induction false} KeysOfNodes(items: map<string, Element>, nodes: seq<Element>)
    requires Distinct(nodes) && Indexes(items, nodes)
    ensures |items| == |nodes|
  {
    if nodes == [] {
      assert items == map[];
    } else {
      var key := nodes[0].entry.key;
      IndexesDrop(items, nodes, 0);
      assert RemoveAt(nodes, 0) == nodes[1..];
      DistinctRemoveAt(nodes, 0);
      KeysOfNodes(items - {key}, nodes[1..]);
      assert items.Keys == (items - {key}).Keys + {key};
      assert |items| == |items.Keys| && |items - {key}| == |(items - {key}).Keys|;
    }
  }

  lemma EntriesPrepend(e: Element, nodes: seq<Element>)
    ensures EntriesOf([e] + nodes) == [e.entry] + EntriesOf(nodes)
  {
  }

  class Resolver {
    var items: map<string, Element>
    const order: List

    ghost predicate Consistent()
      reads this, order, order.repr
    {
      order.Valid() && Indexes(items, order.nodes)
    }

    ghost predicate Valid()
      reads this, order, order.repr
    {
      Consistent() && |order.nodes| <= MAX_CACHE_ENTRIES
    }

    ghost function Contents(): seq<Entry>
      reads order
    {
      EntriesOf(order.nodes)
    }

    constructor ()
      ensures Valid() && Contents() == []
      ensures fresh(order)
    {
      items := map[];
      order := new List();
    }

    /** The list entry under a key, and the sequence's view of it. */
    ghost method Locate(key: string) returns (k: nat)
      requires Consistent() && key in items
      ensures k < |order.nodes| && order.nodes[k] == items[key]
      ensures Find(Contents(), key) == Some(items[key].entry.auth)
      ensures Without(Contents(), key) == EntriesOf(RemoveAt(order.nodes, k))
    {
      k :| 0 <= k < |order.nodes| && order.nodes[k] == items[key];
      IndexedKeysUnique(items, order.nodes);
      WithoutAt(Contents(), k);
      assert RemoveAt(Contents(), k) == EntriesOf(RemoveAt(order.nodes, k));
    }

    /** Unlinks one element and forgets its key. */
    method Drop(e: Element, ghost k: nat)
      requires Consistent()
      requires k < |order.nodes| && order.nodes[k] == e
      modifies this, order, order.repr
      ensures Consistent()
      ensures order.nodes == RemoveAt(old(order.nodes), k)
      ensures order.repr == old(order.repr)
    {
      IndexesDrop(items, order.nodes, k);
      order.Remove(e, k);
      items := items - {e.entry.key};
    }

    /** Marks the key's entry as the most recently used. */
    method Touch(e: Element, ghost k: nat)
      requires Consistent()
      requires k < |order.nodes| && order.nodes[k] == e
      modifies order, order.repr
      ensures Consistent() && order.repr == old(order.repr)
      ensures order.nodes == [e] + RemoveAt(old(order.nodes), k)
    {
      IndexesSameMembers(items, order.nodes, k);
      order.MoveToFront(e, k);
    }

    /** The cache half of Resolve: what a caller gets without provisioning a key. */
    method Lookup(key: string, now: Time) returns (hit: Option<CachedAuth>)
      requires Valid()
      modifies this, order, order.repr
      ensures Valid()
      ensures fresh(order.repr - old(order.repr))
      ensures hit == Hit(old(Contents()), key, now)
      ensures Contents() == LookedUp(old(Contents()), key, now)
    {
      hit := None;
      if key in items {
        ghost var k := Locate(key);
        var elem := items[key];
        if now < elem.entry.auth.validUntil {
          EntriesPrepend(elem, RemoveAt(order.nodes, k));
          Touch(elem, k);
          return Some(elem.entry.auth);
        }
        Drop(elem, k);
      } else {
        AbsentWithout(Contents(), key);
      }
    }

    /** Visits one element of the backward walk and steps to its predecessor. */
    method SweepElement(elem: Element, now: Time, ghost k: nat) returns (prev: Element?)
      requires Consistent()
      requires k < |order.nodes| && order.nodes[k] == elem
      modifies this, order, order.repr
      ensures Consistent()
      ensures prev == if k == 0 then null else old(order.nodes)[k - 1]
      ensures order.nodes == if Expired(elem.entry, now)
                             then RemoveAt(old(order.nodes), k) else old(order.nodes)
      ensures order.repr == old(order.repr)
    {
      prev := elem.prev;
      if now > elem.entry.auth.validUntil {
        Drop(elem, k);
      }
    }

    method SweepAt(elem: Element, now: Time, ghost start: seq<Element>, ghost i: nat) returns (prev: Element?)
      requires Consistent()
      requires 0 < i <= |start| && elem == start[i - 1] && Swept(start, i, now, order.nodes)
      modifies this, order, order.repr
      ensures Consistent()
      ensures prev == if i == 1 then null else start[i - 2]
      ensures Swept(start, i - 1, now, order.nodes)
      ensures order.repr == old(order.repr)
    {
      SweepStep(start, i, now, order.nodes);
      SweptBelow(start, i, now, order.nodes);
      prev := SweepElement(elem, now, i - 1);
    }

    /** Walks the list from the back, dropping expired entries as it goes. */
    method SweepExpired(now: Time)
      requires Consistent()
      modifies this, order, order.repr
      ensures Consistent()
      ensures Contents() == Unexpired(old(Contents()), now)
      ensures order.repr == old(order.repr)
    {
      ghost var start := order.nodes;
      ghost var i := |start|;  // the elements from i on have been visited
      var elem := order.back;
      while elem != null
        invariant Consistent() && order.repr == old(order.repr)
        invariant 0 <= i <= |start|
        invariant elem == if i == 0 then null else start[i - 1]
        invariant Swept(start, i, now, order.nodes)
        decreases i
      {
        elem := SweepAt(elem, now, start, i);
        i := i - 1;
      }
      SweptThrough(start, now, order.nodes);
    }

    /** Removes the key's entry, if there is one. */
    method Discard(key: string)
      requires Consistent()
      modifies this, order, order.repr
      ensures Consistent()
      ensures Contents() == Without(old(Contents()), key)
      ensures order.repr == old(order.repr)
    {
      if key in items {
        ghost var k := Locate(key);
        Drop(items[key], k);
      } else {
        AbsentWithout(Contents(), key);
      }
    }

    /** Removes entries from the back until there is room for one more. */
    method EvictOldest()
      requires Consistent()
      modifies this, order, order.repr
      ensures Consistent()
      ensures Contents() == First(old(Contents()), MAX_CACHE_ENTRIES - 1)
      ensures order.repr == old(order.repr)
    {
      ghost var start := order.nodes;
      while order.len >= MAX_CACHE_ENTRIES
        invariant Consistent()
        invariant order.repr == old(order.repr)
        invariant |order.nodes| <= |start| && order.nodes == start[..|order.nodes|]
        invariant |order.nodes| >= MAX_CACHE_ENTRIES - 1 || order.nodes == start
        decreases order.len
      {
        Drop(order.back, order.len - 1);
      }
    }

    method Insert(entry: Entry)
      requires Consistent() && entry.key !in items
      modifies this, order, order.repr
      ensures Consistent()
      ensures fresh(order.repr - old(order.repr))
      ensures Contents() == [entry] + old(Contents())
    {
      ghost var nodes := order.nodes;
      var elem := order.PushFront(entry);
      IndexesPrepend(items, nodes, elem);
      EntriesPrepend(elem, nodes);
      items := items[entry.key := elem];
    }

    method Put(key: string, auth: CachedAuth, now: Time)
      requires Valid()
      modifies this, order, order.repr
      ensures Valid()
      ensures fresh(order.repr - old(order.repr))
      ensures Contents() == AfterPut(old(Contents()), key, auth, now)
    {
      ghost var before := Contents();
      Discard(key);
      SweepExpired(now);
      EvictOldest();
      assert key !in items by {
        PutMakesRoom(before, key, now);
      }
      Insert(Entry(key, auth));
    }

    /** The whole of Resolve: what provisioning yields, if the cache has no answer,
        is cached under the time the put happens and handed back. */
    method Resolve(key: string, now: Time, provisioned: Option<CachedAuth>, later: Time)
      returns (served: Option<CachedAuth>)
      requires Valid()
      modifies this, order, order.repr
      ensures Valid()
      ensures fresh(order.repr - old(order.repr))
      ensures served == if Hit(old(Contents()), key, now).Some? then Hit(old(Contents()), key, now) else provisioned
      ensures
        var looked := LookedUp(old(Contents()), key, now);
        Contents() == if Hit(old(Contents()), key, now).None? && provisioned.Some?
                      then AfterPut(looked, key, provisioned.value, later) else looked
    {
      served := Lookup(key, now);
      if served.None? {
        served := provisioned;
        if provisioned.Some? {
          Put(key, provisioned.value, later);
        }
      }
    }
  }

  /** Once the key is discarded, sweeping and evicting leave no entry under it. */
  lemma PutMakesRoom(s: seq<Entry>, key: string, now: Time)
    ensures forall e :: e in First(Unexpired(Without(s, key), now), MAX_CACHE_ENTRIES - 1) ==> e.key != key
  {
    forall e | e in First(Unexpired(Without(s, key), now), MAX_CACHE_ENTRIES - 1) ensures e.key != key {
      UnexpiredMember(Without(s, key), now, e);
      WithoutMember(s, key, e);
    }
  }

  lemma {:induction false} WithoutMember(s: seq<Entry>, key: string, e: Entry)
    ensures e in Without(s, key) <==> e in s && e.key != key
  {
    if s != [] {
      WithoutMember(s[1..], key, e);
      assert s == [s[0]] + s[1..];
    }
  }

  lemma {:induction false} UnexpiredMember(s: seq<Entry>, now: Time, e: Entry)
    ensures e in Unexpired(s, now) <==> e in s && !Expired(e, now)
  {
    if s != [] {
      UnexpiredMember(s[1..], now, e);
      assert s == [s[0]] + s[1..];
    }
  }

  /** The elements from position i on that the sweep keeps. */
  ghost function SurvivorsFrom(s: seq<Element>, i: nat, now: Time): seq<Element>
    requires i <= |s|
    decreases |s| - i
  {
    if i == |s| then []
    else if Expired(s[i].entry, now) then SurvivorsFrom(s, i + 1, now)
    else [s[i]] + SurvivorsFrom(s, i + 1, now)
  }

  /** The list once the backward sweep has visited the positions from i on. */
  ghost predicate Swept(start: seq<Element>, i: nat, now: Time, nodes: seq<Element>)
    requires i <= |start|
  {
    var kept := SurvivorsFrom(start, i, now);
    && |nodes| == i + |kept|
    && (forall j :: 0 <= j < i ==> nodes[j] == start[j])
    && (forall j :: i <= j < |nodes| ==> nodes[j] == kept[j - i])
  }

  lemma SweptBelow(start: seq<Element>, i: nat, now: Time, nodes: seq<Element>)
    requires 0 < i <= |start| && Swept(start, i, now, nodes)
    ensures i <= |nodes| && nodes[i - 1] == start[i - 1] && (i > 1 ==> nodes[i - 2] == start[i - 2])
  {
  }

  lemma SweptThrough(start: seq<Element>, now: Time, nodes: seq<Element>)
    requires Swept(start, 0, now, nodes)
    ensures EntriesOf(nodes) == Unexpired(EntriesOf(start), now)
  {
    SurvivorsAreUnexpired(start, 0, now);
    assert nodes == SurvivorsFrom(start, 0, now);
    assert EntriesOf(start)[0..] == EntriesOf(start);
  }

  lemma SweepStep(start: seq<Element>, i: nat, now: Time, nodes: seq<Element>)
    requires 0 < i <= |start| && Swept(start, i, now, nodes)
    ensures Swept(start, i - 1, now,
                  if Expired(start[i - 1].entry, now) then RemoveAt(nodes, i - 1) else nodes)
  {
    if Expired(start[i - 1].entry, now) {
      SweepDrops(start, i, now, nodes, SurvivorsFrom(start, i, now));
    }
  }

  lemma SweepDrops(start: seq<Element>, i: nat, now: Time, nodes: seq<Element>, kept: seq<Element>)
    requires 0 < i <= |start| && |nodes| == i + |kept|
    requires forall j :: 0 <= j < i ==> nodes[j] == start[j]
    requires forall j :: i <= j < |nodes| ==> nodes[j] == kept[j - i]
    ensures
      var left := RemoveAt(nodes, i - 1);
      && |left| == i - 1 + |kept|
      && (forall j :: 0 <= j < i - 1 ==> left[j] == start[j])
      && (forall j :: i - 1 <= j < |left| ==> left[j] == kept[j - (i - 1)])
  {
    var left := RemoveAt(nodes, i - 1);
    forall j | 0 <= j < i - 1
      ensures left[j] == start[j]
    {
      RemovedAt(nodes, i - 1, j);
    }
    forall j | i - 1 <= j < |left|
      ensures left[j] == kept[j - (i - 1)]
    {
      RemovedAt(nodes, i - 1, j);
    }
  }

  lemma {:induction false} SurvivorsAreUnexpired(s: seq<Element>, i: nat, now: Time)
    requires i <= |s|
    ensures EntriesOf(SurvivorsFrom(s, i, now)) == Unexpired(EntriesOf(s)[i..], now)
    decreases |s| - i
  {
    if i < |s| {
      SurvivorsAreUnexpired(s, i + 1, now);
      assert EntriesOf(s)[i..][1..] == EntriesOf(s)[i + 1..];
    }
  }

  lemma {:induction false} WithoutAt(s: seq<Entry>, k: nat)
    requires UniqueKeys(s) && k < |s|
    ensures Without(s, s[k].key) == RemoveAt(s, k)
    ensures Find(s, s[k].key) == Some(s[k].auth)
  {
    RemoveBehind(s, k);
    if k == 0 {
      DistinctAt(Keys(s), k);
      AbsentWithout(s[1..], s[0].key);
    } else {
      UniqueTail(s);
      WithoutAt(s[1..], k - 1);
    }
  }

  lemma UniqueTail(s: seq<Entry>)
    requires UniqueKeys(s) && s != []
    ensures UniqueKeys(s[1..]) && forall e :: e in s[1..] ==> e.key != s[0].key
  {
    DistinctRemoveAt(Keys(s), 0);
    DistinctAt(Keys(s), 0);
    assert RemoveAt(Keys(s), 0) == Keys(s[1..]);
  }

  lemma {:induction false} AbsentWithout(s: seq<Entry>, key: string)
    requires forall e :: e in s ==> e.key != key
    ensures Without(s, key) == s && Find(s, key) == None
  {
    if s != [] {
      AbsentWithout(s[1..], key);
    }
  }

  // ------------------------------------------------------------------
  // Runs: any interleaving of the critical sections
  // ------------------------------------------------------------------

  datatype Op =
    | Lookup(key: string, now: Time)
    | Put(key: string, auth: CachedAuth, now: Time)

  function Step(s: seq<Entry>, op: Op): seq<Entry> {
    match op
    case Lookup(key, now) => LookedUp(s, key, now)
    case Put(key, auth, now) => AfterPut(s, key, auth, now)
  }

  function Run(s: seq<Entry>, ops: seq<Op>): seq<Entry>
    decreases |ops|
  {
    if ops == [] then s else Run(Step(s, ops[0]), ops[1..])
  }

  /** The key this step uses: put, or looked up and found. */
  function Used(s: seq<Entry>, op: Op): set<string> {
    match op
    case Lookup(key, now) => if Hit(s, key, now).Some? then {key} else {}
    case Put(key, _, _) => {key}
  }

  function OthersUsed(s: seq<Entry>, ops: seq<Op>, key: string): set<string>
    decreases |ops|
  {
    if ops == [] then {} else (Used(s, ops[0]) - {key}) + OthersUsed(Step(s, ops[0]), ops[1..], key)
  }

  /** The time at which a step takes place is one at which an entry that is good
      until a given time is neither served as a miss nor swept. */
  predicate Spares(op: Op, key: string, until: Time) {
    match op
    case Lookup(k, now) => k == key ==> now < until
    case Put(k, _, now) => k == key || now <= until
  }

  /** No step comes after the time until which the key's entry is then valid. */
  predicate StaysFresh(s: seq<Entry>, ops: seq<Op>, key: string)
    decreases |ops|
  {
    ops == [] ||
    (var auth := Find(s, key);
     && (auth.Some? ==> Spares(ops[0], key, auth.value.validUntil))
     && StaysFresh(Step(s, ops[0]), ops[1..], key))
  }

  /** The keys more recently used than the given one. */
  function Ahead(s: seq<Entry>, key: string): set<string> {
    if s == [] || s[0].key == key then {} else {s[0].key} + Ahead(s[1..], key)
  }

  // Well-formedness of every reachable state

  lemma {:induction false} WithoutUnique(s: seq<Entry>, key: string)
    requires UniqueKeys(s)
    ensures UniqueKeys(Without(s, key))
    ensures forall e :: e in Without(s, key) ==> e in s && e.key != key
  {
    if s != [] {
      UniqueTail(s);
      WithoutUnique(s[1..], key);
      if s[0].key != key { PrependUnique(s[0], Without(s[1..], key)); }
    }
  }

  lemma {:induction false} UnexpiredUnique(s: seq<Entry>, now: Time)
    requires UniqueKeys(s)
    ensures UniqueKeys(Unexpired(s, now))
    ensures forall e :: e in Unexpired(s, now) ==> e in s
  {
    if s != [] {
      UniqueTail(s);
      UnexpiredUnique(s[1..], now);
      if !Expired(s[0], now) { PrependUnique(s[0], Unexpired(s[1..], now)); }
    }
  }

  lemma PrependUnique(e: Entry, s: seq<Entry>)
    requires UniqueKeys(s) && forall x :: x in s ==> x.key != e.key
    ensures UniqueKeys([e] + s)
  {
    DistinctPrepend(e.key, Keys(s));
    assert Keys([e] + s) == [e.key] + Keys(s);
  }

  lemma FirstUnique(s: seq<Entry>, n: nat)
    requires UniqueKeys(s)
    ensures UniqueKeys(First(s, n))
  {
    forall i, j | 0 <= i < j < |First(s, n)| ensures Apart(Keys(First(s, n)), i, j) {
      assert Apart(Keys(s), i, j);
    }
  }

  lemma StepWellFormed(s: seq<Entry>, op: Op)
    requires WellFormed(s)
    ensures WellFormed(Step(s, op))
  {
    WithoutUnique(s, op.key);
    match op
    case Lookup(key, now) =>
      if Find(s, key).Some? {
        PrependUnique(Entry(key, Find(s, key).value), Without(s, key));
        FoundIsRemoved(s, key);
      }
    case Put(key, auth, now) =>
      UnexpiredUnique(Without(s, key), now);
      FirstUnique(Unexpired(Without(s, key), now), MAX_CACHE_ENTRIES - 1);
      PutMakesRoom(s, key, now);
      PrependUnique(Entry(key, auth), First(Unexpired(Without(s, key), now), MAX_CACHE_ENTRIES - 1));
  }

  lemma {:induction false} FoundIsRemoved(s: seq<Entry>, key: string)
    requires Find(s, key).Some?
    ensures |Without(s, key)| < |s|
  {
    if s[0].key != key {
      FoundIsRemoved(s[1..], key);
    }
  }

  /** Every reachable cache has distinct keys and at most the maximum of entries. */
  lemma {:induction false} RunWellFormed(s: seq<Entry>, ops: seq<Op>)
    requires WellFormed(s)
    ensures WellFormed(Run(s, ops))
    decreases |ops|
  {
    if ops != [] {
      StepWellFormed(s, ops[0]);
      RunWellFormed(Step(s, ops[0]), ops[1..]);
    }
  }

  // Retention

  lemma {:induction false} FindWithout(s: seq<Entry>, key: string, other: string)
    requires key != other
    ensures Find(Without(s, other), key) == Find(s, key)
    ensures Ahead(Without(s, other), key) == Ahead(s, key) - {other}
  {
    if s != [] { FindWithout(s[1..], key, other); }
  }

  /** Sweeping keeps a key that is not expired, and moves nothing ahead of it. */
  lemma {:induction false} FindUnexpired(s: seq<Entry>, key: string, now: Time)
    requires Find(s, key).Some? && !Expired(Entry(key, Find(s, key).value), now)
    ensures Find(Unexpired(s, now), key) == Find(s, key)
    ensures Ahead(Unexpired(s, now), key) <= Ahead(s, key)
  {
    if s[0].key != key { FindUnexpired(s[1..], key, now); }
  }

  /** The keys ahead of an entry are its position, so cutting the sequence after
      more entries than that keeps it. */
  lemma {:induction false} FindFirst(s: seq<Entry>, key: string, n: nat)
    requires UniqueKeys(s) && Find(s, key).Some?
    ensures |Ahead(s, key)| < n ==> Find(First(s, n), key) == Find(s, key) && Ahead(First(s, n), key) == Ahead(s, key)
    ensures |Ahead(s, key)| >= n ==> Find(First(s, n), key) == None
  {
    if n > 0 {
      FirstCons(s, n);
      if s[0].key != key {
        assert UniqueKeys(s[1..]) && s[0].key !in Ahead(s[1..], key) by {
          UniqueTail(s);
          AheadKeys(s[1..], key);
        }
        FindFirst(s[1..], key, n - 1);
      }
    }
  }

  lemma FirstCons(s: seq<Entry>, n: nat)
    requires s != [] && n > 0
    ensures First(s, n) == [s[0]] + First(s[1..], n - 1)
  {
  }

  lemma {:induction false} AheadKeys(s: seq<Entry>, key: string)
    ensures key !in Ahead(s, key)
    ensures forall k :: k in Ahead(s, key) ==> exists e :: e in s && e.key == k
  {
    if s != [] && s[0].key != key {
      AheadKeys(s[1..], key);
      forall k | k in Ahead(s, key) ensures exists e :: e in s && e.key == k {
        if k == s[0].key {
          assert s[0] in s;
        } else {
          var e :| e in s[1..] && e.key == k;
          assert e in s;
        }
      }
    }
  }

  /** What a put of another key leaves before it evicts. */
  lemma SweptAhead(s: seq<Entry>, key: string, other: string, now: Time)
    requires UniqueKeys(s) && key != other
    requires Find(s, key).Some? && !Expired(Entry(key, Find(s, key).value), now)
    ensures
      var swept := Unexpired(Without(s, other), now);
      && UniqueKeys(swept) && Find(swept, key) == Find(s, key)
      && Ahead(swept, key) <= Ahead(s, key) - {other}
      && |Ahead(swept, key)| + 1 <= |Ahead(s, key) + {other}|
  {
    FindWithout(s, key, other);
    FindUnexpired(Without(s, other), key, now);
    WithoutUnique(s, other);
    UnexpiredUnique(Without(s, other), now);
    var ahead := Ahead(Unexpired(Without(s, other), now), key);
    SubsetCardinality(ahead + {other}, Ahead(s, key) + {other});
  }

  /** One step moves at most the key it uses ahead of another key's entry, and
      keeps that entry while it is fresh and fewer keys than the maximum are ahead. */
  lemma StepRetains(s: seq<Entry>, op: Op, key: string)
    requires WellFormed(s) && Find(s, key).Some?
    requires Spares(op, key, Find(s, key).value.validUntil)
    requires |Ahead(s, key) + (Used(s, op) - {key})| < MAX_CACHE_ENTRIES
    ensures Find(Step(s, op), key).Some?
    ensures Ahead(Step(s, op), key) <= Ahead(s, key) + (Used(s, op) - {key})
  {
    if op.key != key {
      match op
      case Lookup(other, _) =>
        FindWithout(s, key, other);
      case Put(other, auth, now) =>
        assert Used(s, op) - {key} == {other};
        SweptAhead(s, key, other, now);
        FindFirst(Unexpired(Without(s, other), now), key, MAX_CACHE_ENTRIES - 1);
    }
  }

  /** A key stays cached, whatever the steps, while it is fresh and fewer distinct
      other keys than the maximum have been used since it was. */
  lemma {:induction false} LruRetention(s: seq<Entry>, ops: seq<Op>, key: string)
    requires WellFormed(s) && Find(s, key).Some?
    requires StaysFresh(s, ops, key)
    requires |Ahead(s, key) + OthersUsed(s, ops, key)| < MAX_CACHE_ENTRIES
    ensures Find(Run(s, ops), key).Some?
    ensures Ahead(Run(s, ops), key) <= Ahead(s, key) + OthersUsed(s, ops, key)
    decreases |ops|
  {
    if ops != [] {
      var next := Step(s, ops[0]);
      var all := Ahead(s, key) + OthersUsed(s, ops, key);
      SubsetCardinality(Ahead(s, key) + (Used(s, ops[0]) - {key}), all);
      StepRetains(s, ops[0], key);
      StepWellFormed(s, ops[0]);
      SubsetCardinality(Ahead(next, key) + OthersUsed(next, ops[1..], key), all);
      LruRetention(next, ops[1..], key);
    }
  }

  /** After a put or a hit of a key, nothing is ahead of it, so what the key can
      survive is counted from that use on. */
  lemma RetainedSinceUse(s: seq<Entry>, use: Op, ops: seq<Op>)
    requires WellFormed(s) && use.key in Used(s, use)
    requires StaysFresh(Step(s, use), ops, use.key)
    requires |OthersUsed(Step(s, use), ops, use.key)| < MAX_CACHE_ENTRIES
    ensures Find(Run(Step(s, use), ops), use.key).Some?
  {
    var next := Step(s, use);
    StepWellFormed(s, use);
    assert Ahead(next, use.key) + OthersUsed(next, ops, use.key) == OthersUsed(next, ops, use.key);
    LruRetention(next, ops, use.key);
  }

  // The bound is exact: where nothing expires, eviction is by recency alone

  predicate NothingExpires(s: seq<Entry>, ops: seq<Op>)
    decreases |ops|
  {
    ops == [] ||
    ((forall e :: e in s ==> ops[0].now < e.auth.validUntil) && NothingExpires(Step(s, ops[0]), ops[1..]))
  }

  lemma {:induction false} AllUnexpired(s: seq<Entry>, now: Time)
    requires forall e :: e in s ==> !Expired(e, now)
    ensures Unexpired(s, now) == s
  {
    if s != [] { AllUnexpired(s[1..], now); }
  }

  lemma {:induction false} AheadIsShort(s: seq<Entry>, key: string)
    requires Find(s, key).Some?
    ensures |Ahead(s, key)| < |s|
  {
    if s[0].key != key { AheadIsShort(s[1..], key); }
  }

  lemma {:induction false} FoundInSequence(s: seq<Entry>, key: string)
    requires Find(s, key).Some?
    ensures Entry(key, Find(s, key).value) in s
  {
    if s[0].key != key { FoundInSequence(s[1..], key); }
  }

  lemma PutExactly(s: seq<Entry>, key: string, other: string, auth: CachedAuth, now: Time)
    requires WellFormed(s) && Find(s, key).Some? && other != key
    requires forall e :: e in s ==> now < e.auth.validUntil
    ensures
      var next := AfterPut(s, other, auth, now);
      var ahead := Ahead(s, key) + {other};
      if |ahead| < MAX_CACHE_ENTRIES
      then Find(next, key).Some? && Ahead(next, key) == ahead
      else Find(next, key) == None
  {
    var rest := Without(s, other);
    FindWithout(s, key, other);
    WithoutUnique(s, other);
    AllUnexpired(rest, now);
    assert Ahead(s, key) + {other} == Ahead(rest, key) + {other};
    FindFirst(rest, key, MAX_CACHE_ENTRIES - 1);
  }

  lemma StepExactly(s: seq<Entry>, op: Op, key: string)
    requires WellFormed(s) && Find(s, key).Some? && op.key != key
    requires forall e :: e in s ==> op.now < e.auth.validUntil
    ensures
      var ahead := Ahead(s, key) + Used(s, op);
      if |ahead| < MAX_CACHE_ENTRIES
      then Find(Step(s, op), key).Some? && Ahead(Step(s, op), key) == ahead
      else Find(Step(s, op), key) == None
  {
    match op
    case Put(other, auth, now) =>
      PutExactly(s, key, other, auth, now);
    case Lookup(other, now) =>
      StepWellFormed(s, op);
      FindWithout(s, key, other);
      if Find(s, other).Some? { FoundInSequence(s, other); }
      AheadIsShort(Step(s, op), key);
      assert Ahead(Step(s, op), key) == Ahead(s, key) + Used(s, op);
  }

  lemma {:induction false} GoneStaysGone(s: seq<Entry>, ops: seq<Op>, key: string)
    requires Find(s, key) == None
    requires forall op :: op in ops ==> op.key != key
    ensures Find(Run(s, ops), key) == None
    decreases |ops|
  {
    if ops != [] {
      var other := ops[0].key;
      FindWithout(s, key, other);
      if ops[0].Put? {
        NotFoundUnexpired(Without(s, other), key, ops[0].now);
        NotFoundFirst(Unexpired(Without(s, other), ops[0].now), key, MAX_CACHE_ENTRIES - 1);
      }
      GoneStaysGone(Step(s, ops[0]), ops[1..], key);
    }
  }

  lemma {:induction false} NotFoundUnexpired(s: seq<Entry>, key: string, now: Time)
    requires Find(s, key) == None
    ensures Find(Unexpired(s, now), key) == None
  {
    if s != [] { NotFoundUnexpired(s[1..], key, now); }
  }

  lemma {:induction false} NotFoundFirst(s: seq<Entry>, key: string, n: nat)
    requires Find(s, key) == None
    ensures Find(First(s, n), key) == None
  {
    if s != [] && n > 0 {
      FirstCons(s, n);
      NotFoundFirst(s[1..], key, n - 1);
    }
  }

  /** What is ahead of a key, and is used from a step on. */
  lemma AheadAndUsed(s: seq<Entry>, ops: seq<Op>, key: string)
    requires WellFormed(s) && Find(s, key).Some? && ops != []
    requires NothingExpires(s, ops) && ops[0].key != key
    ensures
      var next, all := Step(s, ops[0]), Ahead(s, key) + OthersUsed(s, ops, key);
      if Find(next, key).Some? then all == Ahead(next, key) + OthersUsed(next, ops[1..], key)
      else |all| >= MAX_CACHE_ENTRIES
  {
    StepExactly(s, ops[0], key);
    assert Used(s, ops[0]) - {key} == Used(s, ops[0]);
    SubsetCardinality(Ahead(s, key) + Used(s, ops[0]), Ahead(s, key) + OthersUsed(s, ops, key));
  }

  /** Where nothing expires, a key that is not used again is still cached if and
      only if fewer distinct other keys than the maximum were used since. */
  lemma {:induction false} LruIsExact(s: seq<Entry>, ops: seq<Op>, key: string)
    requires WellFormed(s) && Find(s, key).Some?
    requires NothingExpires(s, ops) && forall op :: op in ops ==> op.key != key
    ensures Find(Run(s, ops), key).Some? <==> |Ahead(s, key) + OthersUsed(s, ops, key)| < MAX_CACHE_ENTRIES
    decreases |ops|
  {
    if ops == [] {
      assert Ahead(s, key) + OthersUsed(s, ops, key) == Ahead(s, key);
      AheadIsShort(s, key);
    } else {
      var next := Step(s, ops[0]);
      AheadAndUsed(s, ops, key);
      if Find(next, key).Some? {
        StepWellFormed(s, ops[0]);
        LruIsExact(next, ops[1..], key);
      } else {
        GoneStaysGone(next, ops[1..], key);
      }
    }
  }

  // What one step does, whatever has expired

  predicate LiveAt(auth: Option<CachedAuth>, now: Time) {
    auth.Some? && now <= auth.value.validUntil
  }

  /** The keys ahead of the given one that are not past their time. */
  function LiveAhead(s: seq<Entry>, key: string, now: Time): set<string> {
    set x | x in Ahead(s, key) && LiveAt(Find(s, x), now)
  }

  lemma {:induction false} FoundIn(s: seq<Entry>, e: Entry)
    requires UniqueKeys(s) && e in s
    ensures Find(s, e.key) == Some(e.auth)
  {
    UniqueTail(s);
    if e != s[0] { FoundIn(s[1..], e); }
  }

  lemma {:induction false} AheadIsFound(s: seq<Entry>, key: string, x: string)
    requires x in Ahead(s, key)
    ensures Find(s, x).Some? && x != key
  {
    if x != s[0].key { AheadIsFound(s[1..], key, x); }
  }

  /** Sweeping drops a key exactly if it is past its time, and leaves ahead of a key exactly
      the keys that are not. */
  lemma {:induction false} SweepDecides(s: seq<Entry>, key: string, now: Time)
    requires UniqueKeys(s)
    ensures Find(Unexpired(s, now), key) == if LiveAt(Find(s, key), now) then Find(s, key) else None
    ensures LiveAt(Find(s, key), now) ==> Ahead(Unexpired(s, now), key) == LiveAhead(s, key, now)
  {
    if s != [] {
      var head, rest := s[0], s[1..];
      UniqueTail(s);
      SweepDecides(rest, key, now);
      if head.key == key {
        if Expired(head, now) { AbsentWhenUnique(rest, key); NotFoundUnexpired(rest, key, now); }
      } else {
        LiveAheadBehind(s, key, now);
      }
    }
  }

  lemma {:induction false} AbsentWhenUnique(s: seq<Entry>, key: string)
    requires forall e :: e in s ==> e.key != key
    ensures Find(s, key) == None
  {
    if s != [] { AbsentWhenUnique(s[1..], key); }
  }

  lemma LiveAheadBehind(s: seq<Entry>, key: string, now: Time)
    requires UniqueKeys(s) && s != [] && s[0].key != key
    ensures LiveAhead(s, key, now)
            == (if Expired(s[0], now) then {} else {s[0].key}) + LiveAhead(s[1..], key, now)
  {
    UniqueTail(s);
    forall x | x in Ahead(s[1..], key)
      ensures Find(s, x) == Find(s[1..], x) && x != s[0].key
    {
      AheadIsFound(s[1..], key, x);
      FoundInSequence(s[1..], x);
    }
  }

  lemma LiveAheadWithout(s: seq<Entry>, key: string, other: string, now: Time)
    requires key != other
    ensures LiveAhead(Without(s, other), key, now) == LiveAhead(s, key, now) - {other}
  {
    FindWithout(s, key, other);
    forall x | x in Ahead(s, key) && x != other
      ensures Find(Without(s, other), x) == Find(s, x)
    {
      FindWithout(s, x, other);
    }
  }

  /** After a put, nothing but the new entry is past its time. */
  lemma PutSweeps(s: seq<Entry>, key: string, auth: CachedAuth, now: Time, e: Entry)
    requires e in Step(s, Put(key, auth, now)) && e.key != key
    ensures now <= e.auth.validUntil
  {
    UnexpiredMember(Without(s, key), now, e);
  }

  /** A put leaves its key in front, and another key exactly if it was there, is not past its
      time, and has fewer than 5999 others ahead that are not past theirs; those, behind the
      new one, are then what is ahead of it. */
  lemma PutDecides(s: seq<Entry>, other: string, auth: CachedAuth, now: Time, key: string)
    requires WellFormed(s)
    ensures
      var next := Step(s, Put(other, auth, now));
      var live := LiveAhead(s, key, now) - {other};
      if key == other then Find(next, key) == Some(auth) && Ahead(next, key) == {}
      else if LiveAt(Find(s, key), now) && |live| < 5999
      then Find(next, key) == Find(s, key) && Ahead(next, key) == {other} + live
      else Find(next, key) == None
  {
    if key != other {
      var rest := Without(s, other);
      WithoutUnique(s, other);
      FindWithout(s, key, other);
      LiveAheadWithout(s, key, other, now);
      SweepDecides(rest, key, now);
      UnexpiredUnique(rest, now);
      if LiveAt(Find(s, key), now) {
        FindFirst(Unexpired(rest, now), key, MAX_CACHE_ENTRIES - 1);
      } else {
        NotFoundFirst(Unexpired(rest, now), key, MAX_CACHE_ENTRIES - 1);
      }
    }
  }

  /** A lookup serves its key and moves it to the front if it is before its time, and drops it
      otherwise; of the other keys nothing changes but that a hit is ahead of them. */
  lemma LookupDecides(s: seq<Entry>, other: string, now: Time, key: string)
    requires WellFormed(s)
    ensures
      var next, found := Step(s, Lookup(other, now)), Find(s, other);
      var hit := found.Some? && now < found.value.validUntil;
      && (Hit(s, other, now) == if hit then found else None)
      && (if key == other then
            Find(next, key) == (if hit then found else None) && (hit ==> Ahead(next, key) == {})
          else
            && Find(next, key) == Find(s, key)
            && (Find(s, key).Some? ==> Ahead(next, key) == (Ahead(s, key) - {other}) + (if hit then {other} else {})))
  {
    if key != other {
      FindWithout(s, key, other);
      if Find(s, other).None? { NotAhead(s, key, other); }
    } else if Find(s, other).Some? {
      WithoutUnique(s, other);
      AbsentWhenUnique(Without(s, other), other);
    }
  }

  lemma NotAhead(s: seq<Entry>, key: string, other: string)
    requires Find(s, other).None?
    ensures other !in Ahead(s, key)
  {
    if other in Ahead(s, key) { AheadIsFound(s, key, other); }
  }

  /** Every put of the run comes in the key's time, and finds fewer than 5999 other keys ahead
      of it that are in theirs. */
  ghost predicate AlwaysFits(s: seq<Entry>, ops: seq<Op>, key: string)
    decreases |ops|
  {
    ops == [] ||
    (&& (ops[0].Put? ==>
           && LiveAt(Find(s, key), ops[0].now)
           && |LiveAhead(s, key, ops[0].now) - {ops[0].key}| < 5999)
     && AlwaysFits(Step(s, ops[0]), ops[1..], key))
  }

  /** Over any run, whatever expires meanwhile, a key that is not used again is still cached if
      and only if every put left it there, counting only what was not past its time. */
  lemma {:induction false} RetainedIff(s: seq<Entry>, ops: seq<Op>, key: string)
    requires WellFormed(s) && Find(s, key).Some? && forall op :: op in ops ==> op.key != key
    ensures Find(Run(s, ops), key).Some? <==> AlwaysFits(s, ops, key)
    decreases |ops|
  {
    if ops != [] {
      var next := Step(s, ops[0]);
      StepWellFormed(s, ops[0]);
      if ops[0].Put? {
        PutDecides(s, ops[0].key, ops[0].auth, ops[0].now, key);
      } else {
        LookupDecides(s, ops[0].key, ops[0].now, key);
      }
      if Find(next, key).Some? {
        RetainedIff(next, ops[1..], key);
      } else {
        GoneStaysGone(next, ops[1..], key);
      }
    }
  }

  // What a hit serves

  /** The credentials last put under a key. */
  function LastPut(ops: seq<Op>, key: string): Option<CachedAuth> {
    if ops == [] then None
    else
      var later := LastPut(ops[1..], key);
      if later.Some? then later
      else if ops[0].Put? && ops[0].key == key then Some(ops[0].auth)
      else None
  }

  lemma StepServes(s: seq<Entry>, op: Op, e: Entry)
    requires e in Step(s, op)
    ensures if op.Put? && op.key == e.key then e.auth == op.auth else e in s
  {
    WithoutMember(s, op.key, e);
    if op.Put? {
      UnexpiredMember(Without(s, op.key), op.now, e);
    } else if Find(s, op.key).Some? {
      FoundInSequence(s, op.key);
    }
  }

  /** Whatever is cached after a run is the credential last put under its key, or was
      cached before and has not been put again. */
  lemma {:induction false} CachedIsLastPut(s: seq<Entry>, ops: seq<Op>, e: Entry)
    requires e in Run(s, ops)
    ensures e in s || LastPut(ops, e.key).Some?
    ensures LastPut(ops, e.key).Some? ==> LastPut(ops, e.key).value == e.auth
    decreases |ops|
  {
    if ops != [] {
      var next := Step(s, ops[0]);
      CachedIsLastPut(next, ops[1..], e);
      if e in next { StepServes(s, ops[0], e); }
    }
  }

  /** A hit after any run is the credential last put, and not past its time. */
  lemma HitIsLastPut(ops: seq<Op>, key: string, now: Time)
    ensures
      var hit := Hit(Run([], ops), key, now);
      hit.Some? ==> hit == LastPut(ops, key) && now < hit.value.validUntil
  {
    var s := Run([], ops);
    if Find(s, key).Some? {
      FoundInSequence(s, key);
      CachedIsLastPut([], ops, Entry(key, Find(s, key).value));
    }
  }
}
