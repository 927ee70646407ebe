/** The insertion-ordered cache that scan-local request reuse keeps its results in. */
module BoundedCache {
  import opened Wrappers

  datatype CacheState<K, V> = CacheState(values: map<K, V>, order: seq<K>, capacity: nat)

  ghost predicate NoDuplicates<K>(s: seq<K>) {
    forall i, j | 0 <= i < j < |s| :: s[i] != s[j]
  }

  /** The queue holds every key of the map exactly once. */
  ghost predicate CacheOk<K, V>(c: CacheState<K, V>) {
    && 0 < c.capacity && |c.order| == |c.values| <= c.capacity
    && multiset(c.order) == multiset(c.values.Keys)
  }

  lemma QueuedExactlyCached<K, V>(c: CacheState<K, V>)
    requires CacheOk(c)
    ensures forall k :: k in c.order <==> k in c.values
  {
    forall k
      ensures k in c.order <==> k in c.values
    {
      assert k in c.order <==> k in multiset(c.order);
      assert k in c.values.Keys <==> k in multiset(c.values.Keys);
    }
  }

  function InsertInto<K, V>(c: CacheState<K, V>, key: K, value: V): CacheState<K, V>
    requires |c.values| == c.capacity ==> c.order != []
  {
    if key in c.values then c.(values := c.values[key := value])
    else if |c.values| == c.capacity then
      c.(values := (c.values - {c.order[0]})[key := value], order := c.order[1..] + [key])
    else c.(values := c.values[key := value], order := c.order + [key])
  }

  /** The cache holds exactly the last `capacity` keys that were new when inserted, oldest first. */
  ghost predicate Remembers<K, V>(c: CacheState<K, V>, history: seq<K>) {
    CacheOk(c) && LastOf(c.order, history, c.capacity)
  }

  ghost predicate LastOf<K>(order: seq<K>, history: seq<K>, capacity: nat) {
    && |order| == (if |history| < capacity then |history| else capacity)
    && (forall j | 0 <= j < |order| :: order[j] == history[|history| - |order| + j])
  }

  lemma ShiftLast<K>(order: seq<K>, history: seq<K>, capacity: nat, key: K)
    requires LastOf(order, history, capacity) && |order| == capacity > 0
    ensures LastOf(order[1..] + [key], history + [key], capacity)
  {
  }

  lemma GrowLast<K>(order: seq<K>, history: seq<K>, capacity: nat, key: K)
    requires LastOf(order, history, capacity) && |order| < capacity
    ensures LastOf(order + [key], history + [key], capacity)
  {
  }

  lemma UpdateRemembers<K, V>(c: CacheState<K, V>, history: seq<K>, key: K, value: V)
    requires Remembers(c, history) && key in c.values
    ensures Remembers(c.(values := c.values[key := value]), history)
  {
    assert c.values[key := value].Keys == c.values.Keys;
  }

  lemma AppendRemembers<K, V>(c: CacheState<K, V>, history: seq<K>, key: K, value: V)
    requires Remembers(c, history) && key !in c.values && |c.values| < c.capacity
    ensures Remembers(c.(values := c.values[key := value], order := c.order + [key]), history + [key])
  {
    AppendOk(c, key, value);
    GrowLast(c.order, history, c.capacity, key);
  }

  function Evict<K, V>(c: CacheState<K, V>): CacheState<K, V>
    requires c.order != []
  {
    c.(values := c.values - {c.order[0]}, order := c.order[1..])
  }

  lemma EvictOk<K, V>(c: CacheState<K, V>)
    requires CacheOk(c) && c.order != []
    ensures CacheOk(Evict(c)) && |Evict(c).values| == |c.values| - 1
  {
    var oldest := c.order[0];
    assert c.order == [oldest] + c.order[1..];
    assert oldest in multiset(c.values.Keys);
    assert Evict(c).values.Keys == c.values.Keys - {oldest};
    assert multiset(c.values.Keys - {oldest}) == multiset(c.values.Keys) - multiset{oldest};
  }

  lemma AppendOk<K, V>(c: CacheState<K, V>, key: K, value: V)
    requires CacheOk(c) && key !in c.values && |c.values| < c.capacity
    ensures CacheOk(c.(values := c.values[key := value], order := c.order + [key]))
  {
    assert c.values[key := value].Keys == c.values.Keys + {key};
    assert multiset(c.values.Keys + {key}) == multiset(c.values.Keys) + multiset{key};
  }

  lemma EvictRemembers<K, V>(c: CacheState<K, V>, history: seq<K>, key: K, value: V)
    requires Remembers(c, history) && key !in c.values && |c.values| == c.capacity
    ensures Remembers(c.(values := (c.values - {c.order[0]})[key := value], order := c.order[1..] + [key]),
        history + [key])
  {
    EvictOk(c);
    assert key !in Evict(c).values;
    AppendOk(Evict(c), key, value);
    ShiftLast(c.order, history, c.capacity, key);
  }

  lemma InsertRemembers<K, V>(c: CacheState<K, V>, history: seq<K>, key: K, value: V)
    requires Remembers(c, history)
    ensures Remembers(InsertInto(c, key, value), if key in c.values then history else history + [key])
    ensures key in InsertInto(c, key, value).values && InsertInto(c, key, value).values[key] == value
  {
    if key in c.values {
      UpdateRemembers(c, history, key, value);
    } else if |c.values| == c.capacity {
      EvictRemembers(c, history, key, value);
    } else {
      AppendRemembers(c, history, key, value);
    }
  }

  /** The same key is never new again within `capacity` later new keys. */
  ghost predicate Spaced<K>(history: seq<K>, capacity: nat) {
    forall i, j | 0 <= i < j < |history| && j - i <= capacity :: history[i] != history[j]
  }

  lemma InsertSpaced<K, V>(c: CacheState<K, V>, history: seq<K>, key: K)
    requires Remembers(c, history) && Spaced(history, c.capacity) && key !in c.values
    ensures Spaced(history + [key], c.capacity)
  {
    QueuedExactlyCached(c);
    forall i | 0 <= i < |history| && |history| - i <= c.capacity
      ensures history[i] != key
    {
      assert c.order[i - (|history| - |c.order|)] == history[i];
    }
  }

  /** A key stays until exactly `capacity` later new keys have been inserted. */
  lemma EvictedAfterCapacityNewKeys<K, V>(c: CacheState<K, V>, history: seq<K>, i: nat)
    requires Remembers(c, history) && i < |history|
    requires forall j | i < j < |history| :: history[j] != history[i]
    ensures history[i] in c.values <==> |history| - (i + 1) < c.capacity
  {
    var dropped := |history| - |c.order|;
    QueuedExactlyCached(c);
    if dropped <= i {
      assert c.order[i - dropped] == history[i];
    }
    if history[i] in c.values {
      var j :| 0 <= j < |c.order| && c.order[j] == history[i];
      assert history[j + dropped] == history[i];
    }
  }

  /** What an object of the class below guarantees: its state, the keys that were new, and the last value of each. */
  ghost predicate Faithful<K, V>(c: CacheState<K, V>, history: seq<K>, latest: map<K, V>) {
    Remembers(c, history) && Agrees(c.values, latest)
  }

  ghost predicate Agrees<K, V>(values: map<K, V>, latest: map<K, V>) {
    forall k | k in values :: k in latest && latest[k] == values[k]
  }

  lemma InsertAgrees<K, V>(c: CacheState<K, V>, latest: map<K, V>, key: K, value: V)
    requires Agrees(c.values, latest) && (|c.values| == c.capacity ==> c.order != [])
    ensures Agrees(InsertInto(c, key, value).values, latest[key := value])
  {
  }

  lemma FullHasOldest<K, V>(c: CacheState<K, V>)
    requires CacheOk(c)
    ensures |c.values| == c.capacity ==> c.order != []
  {
  }

  lemma InsertFaithful<K, V>(c: CacheState<K, V>, history: seq<K>, latest: map<K, V>, key: K, value: V)
    requires Faithful(c, history, latest)
    ensures |c.values| == c.capacity ==> c.order != []
    ensures Faithful(InsertInto(c, key, value), if key in c.values then history
        else history + [key], latest[key := value])
  {
    FullHasOldest(c);
    InsertRemembers(c, history, key, value);
    InsertAgrees(c, latest, key, value);
  }

  ghost predicate IsRecent<K>(history: seq<K>, capacity: nat, key: K) {
    exists i | 0 <= i < |history| :: |history| - i <= capacity && history[i] == key
  }

  /** A key has a value exactly when it is among the last `capacity` new ones, and then its last one. */
  lemma FoundExactlyWhenRecent<K, V>(c: CacheState<K, V>, history: seq<K>, latest: map<K, V>, key: K)
    requires Faithful(c, history, latest)
    ensures key in c.values <==> IsRecent(history, c.capacity, key)
    ensures key in c.values ==> key in latest && c.values[key] == latest[key]
  {
    var dropped := |history| - |c.order|;
    QueuedExactlyCached(c);
    if key in c.values {
      var j :| 0 <= j < |c.order| && c.order[j] == key;
      assert history[dropped + j] == key;
    }
    if IsRecent(history, c.capacity, key) {
      var i :| 0 <= i < |history| && |history| - i <= c.capacity && history[i] == key;
      assert c.order[i - dropped] == key;
    }
  }

  class BoundedCache<K(==), V> {
    const capacity: nat
    var values: map<K, V>
    var insertionOrder: seq<K>
    ghost var history: seq<K>      // every key that was new when it was inserted
    ghost var latest: map<K, V>    // the last value inserted for each key, evicted or not

    ghost function State(): CacheState<K, V>
      reads this
    {
      CacheState(values, insertionOrder, capacity)
    }

    ghost predicate Valid()
      reads this
    {
      Faithful(State(), history, latest)
    }

    constructor (capacity: nat)
      requires capacity > 0
      ensures Valid() && values == map[] && history == [] && latest == map[] && this.capacity == capacity
    {
      this.capacity := capacity;
      values, insertionOrder, history, latest := map[], [], [], map[];
    }

    /** Finds the last value of a key that is among the last `capacity` new ones, and nothing else. */
    method Get(key: K) returns (r: Option<V>)
      requires Valid()
      ensures r.Some? <==> IsRecent(history, capacity, key)
      ensures r.Some? ==> key in latest && r.value == latest[key]
    {
      FoundExactlyWhenRecent(State(), history, latest, key);
      r := if key in values then Some(values[key]) else None;
    }

    method Insert(key: K, value: V)
      requires Valid()
      modifies this
      ensures Valid() && State() == InsertInto(old(State()), key, value)
      ensures history == if key in old(values) then old(history) else old(history) + [key]
      ensures latest == old(latest)[key := value]
    {
      ghost var was, isNew := State(), key !in values;
      InsertFaithful(was, history, latest, key, value);
      Store(key, value);
      history := if isNew then history + [key] else history;
      latest := latest[key := value];
      assert State() == InsertInto(was, key, value);
    }

    /** The insertion itself: an occupied entry keeps its place, a full cache gives up its oldest key. */
    method Store(key: K, value: V)
      requires |values| == capacity ==> insertionOrder != []
      modifies this`values, this`insertionOrder
      ensures State() == InsertInto(old(State()), key, value)
    {
      if key in values {
        values := values[key := value];
        return;
      }
      if |values| == capacity {
        var oldest := insertionOrder[0];
        insertionOrder := insertionOrder[1..];
        values := values - {oldest};
      }
      insertionOrder := insertionOrder + [key];
      values := values[key := value];
    }
  }
}
