/**
 The least-recently-used cache (core/hotspot/cache/lru.go): a map from keys to list elements and the list of
 elements in order of use, kept in step by every operation.
 */
module LruCaches {
  import opened Prelude

  // ---------------------------------------------------------------- the recency sequence

  datatype Entry<K, V> = Entry(key: K, value: V)

  /** Entries with the most recently used one first. */
  type Recency<K, V> = seq<Entry<K, V>>

  function Find<K(==), V>(es: Recency<K, V>, key: K): (i: int)
    ensures -1 <= i < |es|
    ensures i >= 0 ==> es[i].key == key
    ensures forall j :: 0 <= j < (if i < 0 then |es| else i) ==> es[j].key != key
  {
    if es == [] then -1
    else if es[0].key == key then 0
    else
      var i := Find(es[1..], key);
      if i < 0 then -1 else i + 1
  }

  function Without<T>(s: seq<T>, i: nat): seq<T>
    requires i < |s|
  {
    s[..i] + s[i + 1..]
  }

  function ToFront<T>(s: seq<T>, i: nat): seq<T>
    requires i < |s|
  {
    [s[i]] + Without(s, i)
  }

  /** A new front element; if that is one too many, the least recently used one goes. */
  function Push<T>(s: seq<T>, x: T, size: int): seq<T> {
    if |s| + 1 > size then ([x] + s)[..|s|] else [x] + s
  }

  function Added<K(==), V>(es: Recency<K, V>, size: int, key: K, value: V): Recency<K, V> {
    var i := Find(es, key);
    if i >= 0 then ToFront(es[i := Entry(key, value)], i) else Push(es, Entry(key, value), size)
  }

  /** A present key keeps its value; both ways the key is the most recently used one afterwards. */
  function AddedIfAbsent<K(==), V>(es: Recency<K, V>, size: int, key: K, value: V): Recency<K, V> {
    var i := Find(es, key);
    if i >= 0 then ToFront(es, i) else Push(es, Entry(key, value), size)
  }

  function Touched<K(==), V>(es: Recency<K, V>, key: K): Recency<K, V> {
    var i := Find(es, key);
    if i >= 0 then ToFront(es, i) else es
  }

  function Removed<K(==), V>(es: Recency<K, V>, key: K): Recency<K, V> {
    var i := Find(es, key);
    if i >= 0 then Without(es, i) else es
  }

  function Stored<K(==), V>(es: Recency<K, V>, key: K, value: V): Recency<K, V> {
    var i := Find(es, key);
    if i >= 0 then es[i := Entry(key, value)] else es
  }

  function Lookup<K(==), V>(es: Recency<K, V>, key: K): Option<V> {
    var i := Find(es, key);
    if i >= 0 then Some(es[i].value) else None
  }

  function Shrunk<T>(s: seq<T>, size: int): seq<T> {
    if |s| <= size then s else s[..Max(0, size)]
  }

  /** How many elements a change of size says it has evicted. */
  function ReportedGone<T>(s: seq<T>, size: int): int {
    Max(0, |s| - size)
  }

  // ---------------------------------------------------------------- the cache itself

  /** An element of the list; holders of a reference to it can load and store its value. */
  class Element<K, V> {
    const key: K
    var value: V

    constructor (key: K, value: V)
      ensures this.key == key && this.value == value
    {
      this.key := key;
      this.value := value;
    }
  }

  /** The map and the list agree one to one, and no key is there twice. */
  ghost predicate Agree<K, V>(list: seq<Element<K, V>>, items: map<K, Element<K, V>>) {
    && (forall i, j :: 0 <= i < j < |list| ==> list[i].key != list[j].key)
    && (forall i {:trigger list[i]} :: 0 <= i < |list| ==> list[i].key in items && items[list[i].key] == list[i])
    && (forall k :: k in items ==> items[k] in list && items[k].key == k)
  }

  /** Where the `j`-th element after moving the `i`-th to the front was before. */
  function Before(i: nat, j: nat): nat {
    if j == 0 then i else if j <= i then j - 1 else j
  }

  lemma ToFrontAt<T>(s: seq<T>, i: nat, j: nat)
    requires i < |s| && j < |s|
    ensures |ToFront(s, i)| == |s| && Before(i, j) < |s| && ToFront(s, i)[j] == s[Before(i, j)]
  {
  }

  lemma ToFrontMembers<T>(s: seq<T>, i: nat, x: T)
    requires i < |s|
    ensures x in ToFront(s, i) <==> x in s
  {
    assert s == s[..i] + [s[i]] + s[i + 1..];
  }

  lemma AgreeToFront<K, V>(list: seq<Element<K, V>>, items: map<K, Element<K, V>>, i: nat)
    requires Agree(list, items) && i < |list|
    ensures Agree(ToFront(list, i), items)
    ensures forall x :: x in ToFront(list, i) <==> x in list
  {
    var moved := ToFront(list, i);
    forall x
      ensures x in moved <==> x in list
    {
      ToFrontMembers(list, i, x);
    }
    forall j, k | 0 <= j < k < |moved|
      ensures moved[j].key != moved[k].key
    {
      ToFrontAt(list, i, j);
      ToFrontAt(list, i, k);
      assert Before(i, j) != Before(i, k);
    }
    forall j | 0 <= j < |moved|
      ensures moved[j].key in items && items[moved[j].key] == moved[j]
    {
      ToFrontAt(list, i, j);
    }
  }

  lemma AgreeWithout<K, V>(list: seq<Element<K, V>>, items: map<K, Element<K, V>>, i: nat)
    requires Agree(list, items) && i < |list|
    ensures Agree(Without(list, i), items - {list[i].key})
    ensures forall x :: x in Without(list, i) ==> x in list
  {
    var rest := Without(list, i);
    assert forall j {:trigger rest[j]} :: 0 <= j < |rest| ==> rest[j] == list[if j < i then j else j + 1];
    assert forall j {:trigger list[j]} :: 0 <= j < |list| && j != i ==> list[j] == rest[if j < i then j else j - 1];
  }

  lemma AgreePush<K, V>(list: seq<Element<K, V>>, items: map<K, Element<K, V>>, ent: Element<K, V>)
    requires Agree(list, items) && ent.key !in items
    ensures Agree([ent] + list, items[ent.key := ent])
  {
    var pushed := [ent] + list;
    assert forall j {:trigger pushed[j]} :: 1 <= j < |pushed| ==> pushed[j] == list[j - 1];
    assert pushed[0] == ent;
    assert forall j {:trigger list[j]} :: 0 <= j < |list| ==> list[j] == pushed[j + 1];
  }

  lemma PushedEntries<K, V>(list: seq<Element<K, V>>, ent: Element<K, V>)
    ensures EntriesOf([ent] + list) == [Entry(ent.key, ent.value)] + EntriesOf(list)
    ensures EntriesOf(([ent] + list)[..|list|]) == ([Entry(ent.key, ent.value)] + EntriesOf(list))[..|list|]
  {
  }

  ghost function EntriesOf<K, V>(list: seq<Element<K, V>>): (es: Recency<K, V>)
    reads list
    ensures |es| == |list|
  {
    seq(|list|, i requires 0 <= i < |list| reads list => Entry(list[i].key, list[i].value))
  }

  lemma EntriesOfParts<K, V>(list: seq<Element<K, V>>, i: nat)
    requires i < |list|
    ensures EntriesOf(ToFront(list, i)) == ToFront(EntriesOf(list), i)
    ensures EntriesOf(Without(list, i)) == Without(EntriesOf(list), i)
  {
  }

  lemma EntriesOfPrefix<K, V>(list: seq<Element<K, V>>, n: nat)
    requires n <= |list|
    ensures EntriesOf(list[..n]) == EntriesOf(list)[..n]
  {
  }

  /** Where the map finds a key is where the recency sequence has it. */
  lemma FoundAt<K, V>(list: seq<Element<K, V>>, items: map<K, Element<K, V>>, key: K)
    requires Agree(list, items)
    ensures var i := Find(EntriesOf(list), key);
            && (key in items <==> i >= 0)
            && (i >= 0 ==> list[i] == items[key] && EntriesOf(list)[i] == Entry(key, items[key].value))
  {
    var es := EntriesOf(list);
    var i := Find(es, key);
    if i >= 0 {
      assert es[i].key == list[i].key;
    } else {
      forall j | 0 <= j < |list|
        ensures list[j].key != key
      {
        assert es[j].key != key;
      }
    }
  }

  /** The index of an element in the list. */
  function PositionIn<K, V>(list: seq<Element<K, V>>, e: Element<K, V>): (i: nat)
    requires e in list
    ensures i < |list| && list[i] == e
  {
    if list[0] == e then 0 else PositionIn(list[1..], e) + 1
  }

  datatype SizeError = SizeNotPositive

  /** A cache of the given size, which has to be positive. */
  method NewLRU<K(==), V>(size: int) returns (r: Result<LRU<K, V>, SizeError>)
    ensures r.Ok? <==> size > 0
    ensures r.Ok? ==> fresh(r.value) && r.value.Valid() && r.value.Contents() == [] && r.value.size == size
  {
    if size <= 0 {
      return Err(SizeNotPositive);
    }
    var lru := new LRU<K, V>(size);
    return Ok(lru);
  }

  class LRU<K(==), V> {
    var size: int
    var evictList: seq<Element<K, V>>
    var items: map<K, Element<K, V>>

    ghost predicate Valid()
      reads this
    {
      Agree(evictList, items) && |evictList| <= Max(0, size)
    }

    ghost function Contents(): (es: Recency<K, V>)
      reads this, evictList
      ensures |es| == |evictList|
    {
      EntriesOf(evictList)
    }

    constructor (size: int)
      requires size > 0
      ensures Valid() && Contents() == [] && this.size == size && evictList == []
    {
      this.size := size;
      evictList := [];
      items := map[];
    }

    method MoveToFront(e: Element<K, V>)
      requires Agree(evictList, items) && e in evictList
      modifies `evictList
      ensures Agree(evictList, items)
      ensures evictList == ToFront(old(evictList), PositionIn(old(evictList), e))
      ensures forall x :: x in evictList <==> x in old(evictList)
    {
      AgreeToFront(evictList, items, PositionIn(evictList, e));
      evictList := ToFront(evictList, PositionIn(evictList, e));
    }

    /** Takes an element out of the list and its key out of the map. */
    method RemoveElement(e: Element<K, V>)
      requires Agree(evictList, items) && e in evictList
      modifies `evictList, `items
      ensures Agree(evictList, items)
      ensures evictList == Without(old(evictList), PositionIn(old(evictList), e))
      ensures forall x :: x in evictList ==> x in old(evictList)
    {
      AgreeWithout(evictList, items, PositionIn(evictList, e));
      evictList := Without(evictList, PositionIn(evictList, e));
      items := items - {e.key};
    }

    method RemoveOldest()
      requires Agree(evictList, items)
      modifies `evictList, `items
      ensures Agree(evictList, items)
      ensures evictList == Shrunk(old(evictList), |old(evictList)| - 1)
    {
      if evictList != [] {
        var ent := evictList[|evictList| - 1];
        ghost var i := PositionIn(evictList, ent);
        assert i == |evictList| - 1 by {
          assert evictList[i].key == evictList[|evictList| - 1].key;
        }
        RemoveElement(ent);
      }
    }

    /** Adds a key that is not there yet, at the front, and lets the oldest one go if that is one too many. */
    method AddNew(key: K, value: V)
      requires Valid() && key !in items
      modifies `evictList, `items
      ensures Valid()
      ensures Contents() == Push(old(Contents()), Entry(key, value), size)
      ensures forall x :: x in evictList ==> x in old(evictList) || fresh(x)
    {
      ghost var before, es := evictList, Contents();
      var ent := new Element<K, V>(key, value);
      AgreePush(before, items, ent);
      PushedEntries(before, ent);
      assert EntriesOf(before) == es;
      evictList := [ent] + evictList;
      items := items[key := ent];
      assert Contents() == [Entry(key, value)] + es;
      if |evictList| > size {
        RemoveOldest();
        assert evictList == ([ent] + before)[..|before|];
        assert Contents() == ([Entry(key, value)] + es)[..|es|];
      }
    }

    method Add(key: K, value: V)
      requires Valid()
      modifies `evictList, `items, evictList
      ensures Valid()
      ensures Contents() == Added(old(Contents()), size, key, value)
      ensures forall x :: x in evictList ==> x in old(evictList) || fresh(x)
    {
      FoundAt(evictList, items, key);
      if key in items {
        var ent := items[key];
        StoreThrough(ent, value);
        ghost var i := Find(Contents(), key);
        FoundAt(evictList, items, key);
        AgreeToFront(evictList, items, PositionIn(evictList, ent));
        SamePosition(evictList, items, i, PositionIn(evictList, ent));
        EntriesOfParts(evictList, i);
        MoveToFront(ent);
        return;
      }
      AddNew(key, value);
    }

    /** Adds a key unless it is there; gives the element that was there. */
    method AddIfAbsent(key: K, value: V) returns (prior: Element?<K, V>)
      requires Valid()
      modifies `evictList, `items
      ensures Valid()
      ensures Contents() == AddedIfAbsent(old(Contents()), size, key, value)
      ensures prior == null <==> Find(old(Contents()), key) < 0
      ensures prior != null ==> prior in evictList && prior.key == key && Some(prior.value) == Lookup(old(Contents()), key)
      ensures forall x :: x in evictList ==> x in old(evictList) || fresh(x)
    {
      prior := Use(key);
      if prior != null {
        return;
      }
      AddNew(key, value);
    }

    method Get(key: K) returns (found: Element?<K, V>)
      requires Valid()
      modifies `evictList
      ensures Valid()
      ensures Contents() == Touched(old(Contents()), key)
      ensures found == null <==> Find(old(Contents()), key) < 0
      ensures found != null ==> found in evictList && found.key == key && Some(found.value) == Lookup(old(Contents()), key)
      ensures forall x :: x in evictList ==> x in old(evictList)
    {
      found := Use(key);
    }

    /** The element of a key, moved to the front, or null. */
    method Use(key: K) returns (ent: Element?<K, V>)
      requires Valid()
      modifies `evictList
      ensures Valid()
      ensures ent == null <==> key !in items
      ensures Contents() == Touched(old(Contents()), key)
      ensures key in items <==> Find(old(Contents()), key) >= 0
      ensures ent != null ==> ent in evictList && ent.key == key && Some(ent.value) == Lookup(old(Contents()), key)
      ensures ent == null ==> evictList == old(evictList)
      ensures forall x :: x in evictList <==> x in old(evictList)
    {
      FoundAt(evictList, items, key);
      if key !in items {
        return null;
      }
      ent := items[key];
      ghost var i := Find(Contents(), key);
      SamePosition(evictList, items, i, PositionIn(evictList, ent));
      EntriesOfParts(evictList, i);
      MoveToFront(ent);
    }

    /** Stores through a reference that an earlier call gave out. */
    method StoreThrough(e: Element<K, V>, value: V)
      requires Valid() && e in evictList
      modifies e
      ensures Valid() && e.value == value
      ensures Contents() == Stored(old(Contents()), e.key, value)
    {
      assert items[e.key] == e;
      FoundAt(evictList, items, e.key);
      ghost var i := Find(Contents(), e.key);
      e.value := value;
      assert forall j :: 0 <= j < |evictList| && j != i ==> evictList[j].key != e.key;
    }

    method Remove(key: K) returns (isFound: bool)
      requires Valid()
      modifies `evictList, `items
      ensures Valid()
      ensures isFound <==> Find(old(Contents()), key) >= 0
      ensures Contents() == Removed(old(Contents()), key)
    {
      FoundAt(evictList, items, key);
      if key in items {
        ghost var i := Find(Contents(), key);
        SamePosition(evictList, items, i, PositionIn(evictList, items[key]));
        EntriesOfParts(evictList, i);
        RemoveElement(items[key]);
        return true;
      }
      return false;
    }

    /** Changes the size and drops the oldest elements beyond it; gives how many were over. */
    method Resize(size: int) returns (evicted: int)
      requires Valid()
      modifies this
      ensures Valid() && this.size == size
      ensures evicted == ReportedGone(old(Contents()), size)
      ensures Contents() == Shrunk(old(Contents()), size)
    {
      var diff := |evictList| - size;
      if diff < 0 {
        diff := 0;
      }
      ghost var before := evictList;
      EntriesOfPrefix(before, Max(0, |before| - diff));
      for i := 0 to diff
        invariant Agree(evictList, items)
        invariant evictList == before[..Max(0, |before| - i)]
      {
        hide Agree, EntriesOf;
        RemoveOldest();
      }
      this.size := size;
      hide EntriesOf;
      return diff;
    }
  }

  lemma SamePosition<K, V>(list: seq<Element<K, V>>, items: map<K, Element<K, V>>, i: nat, j: nat)
    requires Agree(list, items) && i < |list| && j < |list| && list[i] == list[j]
    ensures i == j
  {
    assert list[i].key == list[j].key;
  }

  // ---------------------------------------------------------------- what the recency sequence promises

  ghost predicate NoDuplicates<K, V>(es: Recency<K, V>) {
    forall i, j :: 0 <= i < j < |es| ==> es[i].key != es[j].key
  }

  function Keys<K, V>(es: Recency<K, V>): seq<K> {
    seq(|es|, i requires 0 <= i < |es| => es[i].key)
  }

  /** Keys by last use, latest first: what a history of uses leaves. */
  function ByLastUse<K(==)>(history: seq<K>): seq<K> {
    if history == [] then []
    else
      var k := history[|history| - 1];
      [k] + Drop(ByLastUse(history[..|history| - 1]), k)
  }

  function Drop<K(==)>(keys: seq<K>, k: K): seq<K> {
    if keys == [] then []
    else if keys[0] == k then Drop(keys[1..], k)
    else [keys[0]] + Drop(keys[1..], k)
  }

  lemma {:induction false} DropAbsent<K>(keys: seq<K>, k: K)
    requires k !in keys
    ensures Drop(keys, k) == keys
  {
    if keys != [] {
      DropAbsent(keys[1..], k);
    }
  }

  lemma {:induction false} DropMembers<K>(keys: seq<K>, k: K)
    ensures forall x :: x in Drop(keys, k) <==> x in keys && x != k
  {
    if keys != [] {
      DropMembers(keys[1..], k);
    }
  }

  ghost predicate Unique<K>(keys: seq<K>) {
    forall i, j :: 0 <= i < j < |keys| ==> keys[i] != keys[j]
  }

  lemma {:induction false} DropUnique<K>(keys: seq<K>, i: nat)
    requires Unique(keys) && i < |keys|
    ensures Drop(keys, keys[i]) == Without(keys, i)
  {
    if i == 0 {
      DropAbsent(keys[1..], keys[0]);
    } else {
      DropUnique(keys[1..], i - 1);
      assert Without(keys, i) == [keys[0]] + Without(keys[1..], i - 1);
    }
  }

  lemma UniqueCons<K>(k: K, keys: seq<K>)
    requires Unique(keys) && k !in keys
    ensures Unique([k] + keys)
  {
  }

  lemma {:induction false} ByLastUseUnique<K>(history: seq<K>)
    ensures Unique(ByLastUse(history))
  {
    if history != [] {
      var before, k := history[..|history| - 1], history[|history| - 1];
      ByLastUseUnique(before);
      DropMembers(ByLastUse(before), k);
      DropKeepsUnique(ByLastUse(before), k);
      UniqueCons(k, Drop(ByLastUse(before), k));
    }
  }

  lemma {:induction false} DropKeepsUnique<K>(keys: seq<K>, k: K)
    requires Unique(keys)
    ensures Unique(Drop(keys, k))
  {
    if keys != [] {
      DropMembers(keys[1..], k);
      DropKeepsUnique(keys[1..], k);
      assert keys[0] !in keys[1..];
      UniqueCons(keys[0], Drop(keys[1..], k));
    }
  }

  /** The cache after adding the keys of a history, one after the other. */
  function AfterUses<K(==), V>(size: int, history: seq<Entry<K, V>>): Recency<K, V> {
    if history == [] then []
    else
      var e := history[|history| - 1];
      AddedIfAbsent(AfterUses(size, history[..|history| - 1]), size, e.key, e.value)
  }

  lemma KeysFind<K, V>(es: Recency<K, V>, key: K)
    ensures Find(es, key) >= 0 <==> key in Keys(es)
    ensures Find(es, key) >= 0 ==> Keys(es)[Find(es, key)] == key
  {
    var i := Find(es, key);
    if i >= 0 {
      assert Keys(es)[i] == key;
    }
    if key in Keys(es) {
      var j :| 0 <= j < |es| && Keys(es)[j] == key;
      assert es[j].key == key;
    }
  }

  /** Using a key moves it to the front of the `size` latest ones. */
  lemma {:induction false} UseKey<K>(latest: seq<K>, size: nat, k: K)
    requires Unique(latest) && size > 0
    ensures var kept := Shrunk(latest, size);
            var next := Shrunk([k] + Drop(latest, k), size);
            && (k !in kept ==> next == Push(kept, k, size))
            && forall i :: 0 <= i < |kept| && kept[i] == k ==> next == ToFront(kept, i)
  {
    var kept := Shrunk(latest, size);
    if k in latest {
      var i :| 0 <= i < |latest| && latest[i] == k;
      DropUnique(latest, i);
      if i < |kept| {
        MoveWithinKept(latest, size, i);
      } else {
        PushOntoKept(latest, size, i);
      }
    } else {
      DropAbsent(latest, k);
    }
  }

  lemma MoveWithinKept<K>(latest: seq<K>, size: nat, i: nat)
    requires Unique(latest) && size > 0 && i < |Shrunk(latest, size)|
    ensures Shrunk([latest[i]] + Without(latest, i), size) == ToFront(Shrunk(latest, size), i)
    ensures forall j :: 0 <= j < |Shrunk(latest, size)| && latest[j] == latest[i] ==> j == i
  {
  }

  lemma PushOntoKept<K>(latest: seq<K>, size: nat, i: nat)
    requires Unique(latest) && size > 0 && |Shrunk(latest, size)| <= i < |latest|
    ensures Shrunk([latest[i]] + Without(latest, i), size) == Push(Shrunk(latest, size), latest[i], size)
    ensures latest[i] !in Shrunk(latest, size)
  {
  }

  /**
   LEAST RECENTLY USED. After any history of uses the cache holds exactly the `size` most recently used keys, in
   order of use.
   */
  lemma {:induction false} HoldsTheLatestKeys<K, V>(size: nat, history: seq<Entry<K, V>>)
    requires size > 0
    ensures Keys(AfterUses(size, history)) == Shrunk(ByLastUse(Keys(history)), size)
  {
    if history != [] {
      var before, e := history[..|history| - 1], history[|history| - 1];
      HoldsTheLatestKeys(size, before);
      assert Keys(history)[..|history| - 1] == Keys(before);
      var es, latest := AfterUses(size, before), ByLastUse(Keys(before));
      ByLastUseUnique(Keys(before));
      UseKey(latest, size, e.key);
      KeysFind(es, e.key);
      KeysOfAdded(es, size, e.key, e.value);
    }
  }

  lemma KeysToFront<K, V>(es: Recency<K, V>, i: nat)
    requires i < |es|
    ensures Keys(ToFront(es, i)) == ToFront(Keys(es), i)
  {
    forall j | 0 <= j < |es|
      ensures Keys(ToFront(es, i))[j] == ToFront(Keys(es), i)[j]
    {
      ToFrontAt(es, i, j);
      ToFrontAt(Keys(es), i, j);
    }
  }

  lemma KeysOfAdded<K, V>(es: Recency<K, V>, size: int, key: K, value: V)
    ensures Keys(AddedIfAbsent(es, size, key, value)) ==
              var i := Find(es, key);
              if i >= 0 then ToFront(Keys(es), i) else Push(Keys(es), key, size)
  {
    var i, keys := Find(es, key), Keys(es);
    if i >= 0 {
      KeysToFront(es, i);
    } else {
      assert Keys(Push(es, Entry(key, value), size)) == Push(keys, key, size);
    }
  }

  datatype Op<K, V> = AddOp(key: K, value: V) | AddIfAbsentOp(key: K, value: V) | GetOp(key: K) | RemoveOp(key: K) | ResizeOp(size: int)

  /** Contents and size after an operation. */
  function StepOp<K(==), V>(es: Recency<K, V>, size: int, op: Op<K, V>): (Recency<K, V>, int) {
    match op
    case AddOp(k, v) => (Added(es, size, k, v), size)
    case AddIfAbsentOp(k, v) => (AddedIfAbsent(es, size, k, v), size)
    case GetOp(k) => (Touched(es, k), size)
    case RemoveOp(k) => (Removed(es, k), size)
    case ResizeOp(n) => (Shrunk(es, n), n)
  }

  function RunOps<K(==), V>(size: int, ops: seq<Op<K, V>>): (Recency<K, V>, int) {
    if ops == [] then ([], size)
    else
      var (es, n) := RunOps(size, ops[..|ops| - 1]);
      StepOp(es, n, ops[|ops| - 1])
  }

  /** Over every sequence of operations no key is there twice and the size is kept; a negative size keeps nothing. */
  lemma {:induction false} EveryRunStaysSound<K, V>(size: int, ops: seq<Op<K, V>>)
    ensures var (es, n) := RunOps(size, ops); NoDuplicates(es) && |es| <= Max(0, n)
  {
    if ops != [] {
      EveryRunStaysSound(size, ops[..|ops| - 1]);
      var (es, n) := RunOps(size, ops[..|ops| - 1]);
      StepStaysSound(es, n, ops[|ops| - 1]);
    }
  }

  lemma {:induction false} StepStaysSound<K, V>(es: Recency<K, V>, n: int, op: Op<K, V>)
    requires NoDuplicates(es) && |es| <= Max(0, n)
    ensures NoDuplicates(StepOp(es, n, op).0) && |StepOp(es, n, op).0| <= Max(0, StepOp(es, n, op).1)
  {
    if !op.ResizeOp? {
      var i := Find(es, op.key);
      if i >= 0 {
        ToFrontKeepsUnique(es, i);
        WithoutKeepsUnique(es, i);
        if op.AddOp? {
          ToFrontKeepsUnique(es[i := Entry(op.key, op.value)], i);
        }
      } else if op.AddOp? || op.AddIfAbsentOp? {
        PushKeepsUnique(es, Entry(op.key, op.value), n);
      }
    }
  }

  lemma PushKeepsUnique<K, V>(es: Recency<K, V>, e: Entry<K, V>, size: int)
    requires NoDuplicates(es) && Find(es, e.key) < 0
    ensures NoDuplicates(Push(es, e, size)) && (|es| <= Max(0, size) ==> |Push(es, e, size)| <= Max(0, size))
  {
    var pushed := [e] + es;
    assert forall j {:trigger pushed[j]} :: 1 <= j < |pushed| ==> pushed[j] == es[j - 1];
  }

  lemma WithoutKeepsUnique<K, V>(es: Recency<K, V>, i: nat)
    requires NoDuplicates(es) && i < |es|
    ensures NoDuplicates(Without(es, i))
  {
    var rest := Without(es, i);
    assert forall j {:trigger rest[j]} :: 0 <= j < |rest| ==> rest[j] == es[if j < i then j else j + 1];
  }

  lemma ToFrontKeepsUnique<K, V>(es: Recency<K, V>, i: nat)
    requires NoDuplicates(es) && i < |es|
    ensures NoDuplicates(ToFront(es, i))
  {
    var moved := ToFront(es, i);
    forall j, k | 0 <= j < k < |moved|
      ensures moved[j].key != moved[k].key
    {
      ToFrontAt(es, i, j);
      ToFrontAt(es, i, k);
      assert Before(i, j) != Before(i, k);
    }
  }

  /** A change of size reports exactly the elements that are gone if and only if the new size is not negative. */
  lemma {:induction false} ResizeReportsTheGoneIff<K, V>(es: Recency<K, V>, size: int, newSize: int)
    ensures ReportedGone(es, newSize) == |es| - |StepOp(es, size, ResizeOp(newSize)).0| <==> newSize >= 0
  {
  }

  // ---------------------------------------------------------------- every operation on the keys alone

  /** What an operation makes of the keys, latest first: a use brings its key to the front of those that fit. */
  function StepKeys<K(==), V>(keys: seq<K>, size: int, op: Op<K, V>): seq<K> {
    match op
    case AddOp(k, _) => Shrunk([k] + Drop(keys, k), size)
    case AddIfAbsentOp(k, _) => Shrunk([k] + Drop(keys, k), size)
    case GetOp(k) => if k in keys then [k] + Drop(keys, k) else keys
    case RemoveOp(k) => Drop(keys, k)
    case ResizeOp(n) => Shrunk(keys, n)
  }

  function RunKeys<K(==), V>(size: int, ops: seq<Op<K, V>>): seq<K> {
    if ops == [] then []
    else StepKeys(RunKeys(size, ops[..|ops| - 1]), RunOps(size, ops[..|ops| - 1]).1, ops[|ops| - 1])
  }

  lemma UniqueKeys<K, V>(es: Recency<K, V>)
    requires NoDuplicates(es)
    ensures Unique(Keys(es))
  {
  }

  lemma UsedKeyFirst<K>(keys: seq<K>, i: nat)
    requires Unique(keys) && i < |keys|
    ensures ToFront(keys, i) == [keys[i]] + Drop(keys, keys[i])
  {
    DropUnique(keys, i);
  }

  lemma NewKeyFirst<K>(keys: seq<K>, k: K, size: int)
    requires k !in keys && |keys| <= Max(0, size)
    ensures Push(keys, k, size) == Shrunk([k] + Drop(keys, k), size)
  {
    DropAbsent(keys, k);
  }

  lemma SameKeysStored<K, V>(es: Recency<K, V>, i: nat, value: V)
    requires i < |es|
    ensures Keys(es[i := Entry(es[i].key, value)]) == Keys(es)
  {
  }

  /** Adding with a new value does to the keys what adding without one does. */
  lemma KeysOfAddedValue<K, V>(es: Recency<K, V>, size: int, key: K, value: V)
    ensures Keys(Added(es, size, key, value)) == Keys(AddedIfAbsent(es, size, key, value))
  {
    var i := Find(es, key);
    if i >= 0 {
      SameKeysStored(es, i, value);
      KeysToFront(es, i);
      KeysToFront(es[i := Entry(key, value)], i);
    }
  }

  lemma KeysAfterAdding<K, V>(es: Recency<K, V>, size: int, key: K, value: V)
    requires NoDuplicates(es) && |es| <= Max(0, size)
    ensures Keys(AddedIfAbsent(es, size, key, value)) == Shrunk([key] + Drop(Keys(es), key), size)
  {
    hide AddedIfAbsent, ToFront, Push, Drop, Keys, NoDuplicates, Unique, Shrunk;
    var keys, i := Keys(es), Find(es, key);
    KeyCount(es);
    UniqueKeys(es);
    KeysFind(es, key);
    KeysOfAdded(es, size, key, value);
    if i >= 0 {
      UsedKeyFirst(keys, i);
      FrontFits(keys, i, size);
    } else {
      NewKeyFirst(keys, key, size);
    }
  }

  lemma KeyCount<K, V>(es: Recency<K, V>)
    ensures |Keys(es)| == |es|
  {
  }

  lemma FrontFits<K>(keys: seq<K>, i: nat, size: int)
    requires i < |keys| <= Max(0, size)
    ensures Shrunk(ToFront(keys, i), size) == ToFront(keys, i)
  {
  }

  lemma {:induction false} StepOnKeys<K, V>(es: Recency<K, V>, size: int, op: Op<K, V>)
    requires NoDuplicates(es) && |es| <= Max(0, size)
    ensures Keys(StepOp(es, size, op).0) == StepKeys(Keys(es), size, op)
  {
    UniqueKeys(es);
    if op.AddOp? || op.AddIfAbsentOp? {
      KeysAfterAdding(es, size, op.key, op.value);
      KeysOfAddedValue(es, size, op.key, op.value);
    } else if !op.ResizeOp? {
      var i := Find(es, op.key);
      KeysFind(es, op.key);
      if i >= 0 {
        UsedKeyFirst(Keys(es), i);
        DropUnique(Keys(es), i);
        KeysToFront(es, i);
      } else {
        DropAbsent(Keys(es), op.key);
      }
    }
  }

  /**
   RECENCY. Over every sequence of additions, lookups, removals and changes of size the cache holds the keys that
   repeated moves to the front leave, as many as fit.
   */
  lemma {:induction false} RunsHoldTheLatestKeys<K, V>(size: int, ops: seq<Op<K, V>>)
    ensures Keys(RunOps(size, ops).0) == RunKeys(size, ops)
  {
    hide StepOp, StepKeys, NoDuplicates;
    if ops == [] {
      NoKeys<K, V>(size);
    } else {
      var before := ops[..|ops| - 1];
      RunsHoldTheLatestKeys(size, before);
      EveryRunStaysSound(size, before);
      StepOnKeys(RunOps(size, before).0, RunOps(size, before).1, ops[|ops| - 1]);
    }
  }

  lemma NoKeys<K, V>(size: int)
    ensures Keys<K, V>(RunOps(size, []).0) == []
  {
  }

  /** Which key leaves by an operation: the one removed, the oldest when a new one has no room, or those beyond a new size. */
  predicate Leaves<K(==), V>(es: Recency<K, V>, size: int, op: Op<K, V>, g: nat)
    requires g < |es|
  {
    match op
    case AddOp(k, _) => Find(es, k) < 0 && |es| + 1 > size && g == |es| - 1
    case AddIfAbsentOp(k, _) => Find(es, k) < 0 && |es| + 1 > size && g == |es| - 1
    case GetOp(_) => false
    case RemoveOp(k) => es[g].key == k
    case ResizeOp(n) => g >= n
  }

  /** EVICTION. A key leaves by an operation exactly then. */
  lemma {:induction false} LeavesIff<K, V>(es: Recency<K, V>, size: int, op: Op<K, V>, g: nat)
    requires NoDuplicates(es) && |es| <= Max(0, size) && g < |es|
    ensures es[g].key !in Keys(StepOp(es, size, op).0) <==> Leaves(es, size, op, g)
  {
    hide StepOp;
    StepOnKeys(es, size, op);
    UniqueKeys(es);
    var keys := Keys(es);
    assert keys[g] == es[g].key;
    if op.ResizeOp? {
      KeptPrefix(keys, op.size, g);
    } else {
      KeysFind(es, op.key);
      DropMembers(keys, op.key);
      if op.AddOp? || op.AddIfAbsentOp? {
        if Find(es, op.key) >= 0 {
          UsedKeyFirst(keys, Find(es, op.key));
          FrontFits(keys, Find(es, op.key), size);
        } else {
          DropAbsent(keys, op.key);
          KeptPrefix([op.key] + keys, size, g + 1);
        }
      }
    }
  }

  lemma KeptPrefix<K>(keys: seq<K>, size: int, g: nat)
    requires Unique(keys) && g < |keys|
    ensures keys[g] in Shrunk(keys, size) <==> g < size
  {
  }

  // ---------------------------------------------------------------- values

  lemma LookupIsMember<K, V>(es: Recency<K, V>, k: K, v: V)
    requires NoDuplicates(es)
    ensures Lookup(es, k) == Some(v) <==> Entry(k, v) in es
  {
    var i := Find(es, k);
    if Entry(k, v) in es {
      var j :| 0 <= j < |es| && es[j] == Entry(k, v);
      assert es[j].key == k;
      assert i == j;
    }
  }

  lemma LookupNone<K, V>(es: Recency<K, V>, k: K)
    ensures Lookup(es, k).None? <==> k !in Keys(es)
  {
    KeysFind(es, k);
  }

  /** A key's value after an operation: the one just added, or the one it had. */
  function ValueAfter<K(==), V>(es: Recency<K, V>, op: Op<K, V>, k: K): Option<V> {
    match op
    case AddOp(key, v) => if k == key then Some(v) else Lookup(es, k)
    case AddIfAbsentOp(key, v) => if k == key && Lookup(es, k).None? then Some(v) else Lookup(es, k)
    case _ => Lookup(es, k)
  }

  lemma PushMembers<T>(s: seq<T>, x: T, size: int, y: T)
    requires y in Push(s, x, size)
    ensures y in s || y == x
  {
  }

  lemma WithoutMembers<T>(s: seq<T>, i: nat, y: T)
    requires i < |s| && y in Without(s, i)
    ensures y in s
  {
  }

  lemma ShrunkMembers<T>(s: seq<T>, size: int, y: T)
    requires y in Shrunk(s, size)
    ensures y in s
  {
  }

  lemma ReplacedMembers<K, V>(es: Recency<K, V>, i: nat, value: V, e: Entry<K, V>)
    requires NoDuplicates(es) && i < |es| && e in es[i := Entry(es[i].key, value)]
    ensures if e.key == es[i].key then e.value == value else e in es
  {
    var j :| 0 <= j < |es| && es[i := Entry(es[i].key, value)][j] == e;
    assert j != i ==> es[j].key != es[i].key;
  }

  /** Every entry after an operation is one from before or the one added, and that has its key alone. */
  lemma {:induction false} EntriesAfterStep<K, V>(es: Recency<K, V>, size: int, op: Op<K, V>, e: Entry<K, V>)
    requires NoDuplicates(es) && |es| <= Max(0, size) && e in StepOp(es, size, op).0
    ensures ValueAfter(es, op, e.key) == Some(e.value)
  {
    hide ToFront, Push, Without, Shrunk, Find, Lookup, NoDuplicates, Keys;
    LookupIsMember(es, e.key, e.value);
    match op
    case AddOp(key, v) =>
      var i := Find(es, key);
      if i >= 0 {
        ToFrontMembers(es[i := Entry(key, v)], i, e);
        ReplacedMembers(es, i, v, e);
      } else {
        PushMembers(es, Entry(key, v), size, e);
        AbsentKey(es, key, e);
      }
    case AddIfAbsentOp(key, v) =>
      var i := Find(es, key);
      if i >= 0 {
        ToFrontMembers(es, i, e);
      } else {
        PushMembers(es, Entry(key, v), size, e);
        AbsentKey(es, key, e);
      }
    case GetOp(key) =>
      var i := Find(es, key);
      if i >= 0 {
        ToFrontMembers(es, i, e);
      }
    case RemoveOp(key) =>
      var i := Find(es, key);
      if i >= 0 {
        WithoutMembers(es, i, e);
      }
    case ResizeOp(n) => ShrunkMembers(es, n, e);
  }

  lemma AbsentKey<K, V>(es: Recency<K, V>, key: K, e: Entry<K, V>)
    requires Find(es, key) < 0
    ensures Lookup(es, key).None? && (e in es ==> e.key != key)
  {
  }

  /** VALUES. After every operation a key that is there has the value last added for it. */
  lemma {:induction false} ValuesAfterStep<K, V>(es: Recency<K, V>, size: int, op: Op<K, V>, k: K)
    requires NoDuplicates(es) && |es| <= Max(0, size)
    ensures var after := StepOp(es, size, op).0;
            Lookup(after, k) == if k in Keys(after) then ValueAfter(es, op, k) else None
  {
    hide StepOp, Keys;
    var after := StepOp(es, size, op).0;
    StepStaysSound(es, size, op);
    LookupNone(after, k);
    if Lookup(after, k).Some? {
      var v := Lookup(after, k).value;
      LookupIsMember(after, k, v);
      EntriesAfterStep(es, size, op, Entry(k, v));
    }
  }
}
