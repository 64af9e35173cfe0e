/** The cache: list nodes that move between a recency list and a free list, and an index into them. */
module LocalCaches {
  import opened Collections
  import opened RecencyList

  function Removed(s: seq<nat>, n: nat): seq<nat> {
    Drop(s, IndexOf(s, n))
  }

  ghost predicate NoRepeat(s: seq<nat>) {
    forall i, j | 0 <= i < j < |s| :: s[i] != s[j]
  }

  /** The entries of the nodes in a list. */
  ghost function View<K, V>(cells: seq<Entry<K, V>>, list: seq<nat>): (r: seq<Entry<K, V>>)
    requires InCells(|cells|, list)
    ensures |r| == |list| && forall i | 0 <= i < |list| :: r[i] == cells[list[i]]
  {
    seq(|list|, i requires 0 <= i < |list| => cells[list[i]])
  }

  ghost predicate InCells(m: nat, list: seq<nat>) {
    forall i | 0 <= i < |list| :: list[i] < m
  }

  ghost predicate NodeOk<K, V>(cells: seq<Entry<K, V>>, index: map<K, nat>, n: nat) {
    n < |cells| && cells[n].key in index && index[cells[n].key] == n
  }

  ghost predicate KeyOk<K, V>(cells: seq<Entry<K, V>>, list: seq<nat>, index: map<K, nat>, k: K)
    requires k in index
  {
    index[k] in list && index[k] < |cells| && cells[index[k]].key == k
  }

  /** The index holds exactly the keys of the nodes in the list. */
  ghost predicate Indexed<K, V>(cells: seq<Entry<K, V>>, list: seq<nat>, index: map<K, nat>) {
    && (forall n {:trigger NodeOk(cells, index, n)} | n in list :: NodeOk(cells, index, n))
    && (forall k {:trigger KeyOk(cells, list, index, k)} | k in index :: KeyOk(cells, list, index, k))
  }

  ghost predicate Lists(m: nat, active: seq<nat>, free: seq<nat>, capacity: nat) {
    && InCells(m, active) && InCells(m, free)
    && NoRepeat(active) && NoRepeat(free) && (forall n | n in active :: n !in free)
    && |active| + |free| == m <= capacity
  }

  // ----- Moving nodes -----

  lemma RemovedAt(s: seq<nat>, n: nat)
    requires NoRepeat(s) && n in s
    ensures var r := Removed(s, n);
            |r| == |s| - 1 && NoRepeat(r) && n !in r && (forall x :: x in s <==> x == n || x in r)
  {
  }

  lemma ToFront(m: nat, active: seq<nat>, free: seq<nat>, capacity: nat, n: nat)
    requires Lists(m, active, free, capacity) && n in active
    ensures Lists(m, [n] + Removed(active, n), free, capacity)
  {
  }

  lemma ToFree(m: nat, active: seq<nat>, free: seq<nat>, capacity: nat, n: nat)
    requires Lists(m, active, free, capacity) && n in active
    ensures Lists(m, Removed(active, n), [n] + free, capacity)
  {
  }

  lemma FromFree(m: nat, active: seq<nat>, free: seq<nat>, capacity: nat)
    requires Lists(m, active, free, capacity) && free != []
    ensures Lists(m, [free[0]] + active, free[1..], capacity)
  {
    assert free[0] in free;
    forall x | x in active ensures x !in free[1..] {
    }
  }

  lemma NewNode(m: nat, active: seq<nat>, capacity: nat)
    requires Lists(m, active, [], capacity) && m < capacity
    ensures Lists(m + 1, [m] + active, [], capacity)
  {
  }

  // ----- Places in the list -----

  lemma FindIsIndex<K, V>(cells: seq<Entry<K, V>>, active: seq<nat>, index: map<K, nat>, k: K)
    requires InCells(|cells|, active) && NoRepeat(active) && Indexed(cells, active, index)
    ensures Find(View(cells, active), k) == if k in index then IndexOf(active, index[k]) else -1
    ensures k in index ==> IndexOf(active, index[k]) >= 0 && index[k] < |cells| && cells[index[k]].key == k
  {
    var r := Find(View(cells, active), k);
    if r >= 0 {
      assert NodeOk(cells, index, active[r]);
      SamePlace(active, r);
    }
    assert k in index ==> KeyOk(cells, active, index, k);
  }

  lemma SamePlace(s: seq<nat>, r: nat)
    requires NoRepeat(s) && r < |s|
    ensures IndexOf(s, s[r]) == r
  {
  }

  /** Index and recency list hold the same distinct keys. */
  lemma SameKeys<K, V>(cells: seq<Entry<K, V>>, active: seq<nat>, index: map<K, nat>)
    requires InCells(|cells|, active) && NoRepeat(active) && Indexed(cells, active, index)
    ensures Distinct(View(cells, active)) && forall k :: k in index <==> Find(View(cells, active), k) >= 0
  {
    var s := View(cells, active);
    forall i, j | 0 <= i < j < |s| ensures s[i].key != s[j].key {
      assert NodeOk(cells, index, active[i]) && NodeOk(cells, index, active[j]) && active[i] != active[j];
    }
    forall k ensures k in index <==> Find(s, k) >= 0 {
      FindIsIndex(cells, active, index, k);
    }
  }

  lemma ViewDrop<K, V>(cells: seq<Entry<K, V>>, active: seq<nat>, p: int)
    requires InCells(|cells|, active)
    ensures InCells(|cells|, Drop(active, p)) && View(cells, Drop(active, p)) == Drop(View(cells, active), p)
  {
  }

  lemma ViewOther<K, V>(cells: seq<Entry<K, V>>, list: seq<nat>, n: nat, e: Entry<K, V>)
    requires InCells(|cells|, list) && n < |cells| && n !in list
    ensures View(cells[n := e], list) == View(cells, list)
  {
  }

  lemma IndexedFewer<K, V>(cells: seq<Entry<K, V>>, active: seq<nat>, index: map<K, nat>, n: nat)
    requires NoRepeat(active) && Indexed(cells, active, index) && n in active && n < |cells|
    ensures Indexed(cells, Removed(active, n), index - {cells[n].key})
  {
    var r, index' := Removed(active, n), index - {cells[n].key};
    RemovedAt(active, n);
    assert NodeOk(cells, index, n);
    forall m | m in r ensures NodeOk(cells, index', m) {
      assert NodeOk(cells, index, m);
    }
    forall k | k in index' ensures KeyOk(cells, r, index', k) {
      assert KeyOk(cells, active, index, k);
    }
  }

  lemma IndexedMore<K, V>(cells: seq<Entry<K, V>>, active: seq<nat>, index: map<K, nat>, n: nat)
    requires Indexed(cells, active, index) && n < |cells| && n !in active && cells[n].key !in index
    ensures Indexed(cells, [n] + active, index[cells[n].key := n])
  {
    var r, index' := [n] + active, index[cells[n].key := n];
    forall m | m in r ensures NodeOk(cells, index', m) {
      assert m != n ==> NodeOk(cells, index, m);
    }
    forall k | k in index' ensures KeyOk(cells, r, index', k) {
      assert k in index ==> KeyOk(cells, active, index, k);
      assert n in r;
    }
  }

  lemma IndexedSame<K, V>(cells: seq<Entry<K, V>>, active: seq<nat>, r: seq<nat>, index: map<K, nat>)
    requires Indexed(cells, active, index) && forall x :: x in r <==> x in active
    ensures Indexed(cells, r, index)
  {
    forall k | k in index ensures KeyOk(cells, r, index, k) {
      assert KeyOk(cells, active, index, k);
    }
  }

  lemma IndexedKeys<K, V>(cells: seq<Entry<K, V>>, cells': seq<Entry<K, V>>, active: seq<nat>, index: map<K, nat>)
    requires Indexed(cells, active, index) && |cells'| >= |cells|
    requires forall n | n in active && n < |cells| :: cells'[n].key == cells[n].key
    ensures Indexed(cells', active, index)
  {
    forall n | n in active ensures NodeOk(cells', index, n) {
      assert NodeOk(cells, index, n);
    }
    forall k | k in index ensures KeyOk(cells', active, index, k) {
      assert KeyOk(cells, active, index, k);
    }
  }

  // ----- Whole steps -----

  /** The nodes, the two lists and the index belong together. */
  ghost predicate Good<K, V>(cells: seq<Entry<K, V>>, active: seq<nat>, free: seq<nat>, index: map<K, nat>,
                             capacity: nat)
  {
    Lists(|cells|, active, free, capacity) && Indexed(cells, active, index)
  }

  /** The list with node n moved to its front. */
  function Fronted(s: seq<nat>, n: nat): seq<nat> {
    [n] + Removed(s, n)
  }

  lemma FrontGood<K, V>(cells: seq<Entry<K, V>>, active: seq<nat>, free: seq<nat>, index: map<K, nat>, capacity: nat,
                        n: nat)
    requires Good(cells, active, free, index, capacity) && n in active
    ensures Good(cells, Fronted(active, n), free, index, capacity)
  {
    ToFront(|cells|, active, free, capacity, n);
    assert forall x :: x in Fronted(active, n) <==> x in active by { RemovedAt(active, n); }
    IndexedSame(cells, active, Fronted(active, n), index);
  }

  lemma FrontView<K, V>(cells: seq<Entry<K, V>>, active: seq<nat>, p: nat)
    requires InCells(|cells|, active) && p < |active|
    ensures InCells(|cells|, [active[p]] + Drop(active, p))
    ensures View(cells, [active[p]] + Drop(active, p)) == [View(cells, active)[p]] + Drop(View(cells, active), p)
  {
    ViewDrop(cells, active, p);
  }

  lemma FrontStep<K, V>(cells: seq<Entry<K, V>>, active: seq<nat>, free: seq<nat>, index: map<K, nat>, capacity: nat,
                        k: K)
    requires Good(cells, active, free, index, capacity) && k in index
    ensures index[k] < |cells| && Good(cells, Fronted(active, index[k]), free, index, capacity)
    ensures var s, i := View(cells, active), Find(View(cells, active), k);
            i >= 0 && s[i] == cells[index[k]] && s[i].key == k
              && View(cells, Fronted(active, index[k])) == [s[i]] + Drop(s, i)
  {
    FindIsIndex(cells, active, index, k);
    FrontGood(cells, active, free, index, capacity, index[k]);
    FrontView(cells, active, IndexOf(active, index[k]));
  }

  lemma FreeStep<K, V>(cells: seq<Entry<K, V>>, active: seq<nat>, free: seq<nat>, index: map<K, nat>, capacity: nat,
                       n: nat)
    requires Good(cells, active, free, index, capacity) && n in active
    ensures n < |cells| && Good(cells, Removed(active, n), [n] + free, index - {cells[n].key}, capacity)
    ensures View(cells, Removed(active, n)) == Drop(View(cells, active), IndexOf(active, n))
    ensures |Removed(active, n)| == |active| - 1
  {
    ToFree(|cells|, active, free, capacity, n);
    IndexedFewer(cells, active, index, n);
    ViewDrop(cells, active, IndexOf(active, n));
  }

  lemma EvictStep<K, V>(cells: seq<Entry<K, V>>, active: seq<nat>, free: seq<nat>, index: map<K, nat>, capacity: nat)
    requires Good(cells, active, free, index, capacity) && active != []
    ensures var n := active[|active| - 1];
            && Good(cells, Removed(active, n), [n] + free, index - {cells[n].key}, capacity)
            && |Removed(active, n)| == |active| - 1
            && View(cells, Removed(active, n)) == View(cells, active)[..|active| - 1]
  {
    SamePlace(active, |active| - 1);
    FreeStep(cells, active, free, index, capacity, active[|active| - 1]);
  }

  lemma RewriteStep<K, V>(cells: seq<Entry<K, V>>, active: seq<nat>, free: seq<nat>, index: map<K, nat>, capacity: nat,
                          e: Entry<K, V>)
    requires Good(cells, active, free, index, capacity) && active != [] && e.key == cells[active[0]].key
    ensures var cells' := cells[active[0] := e];
            Good(cells', active, free, index, capacity) && View(cells', active) == [e] + View(cells, active)[1..]
  {
    IndexedKeys(cells, cells[active[0] := e], active, index);
  }

  lemma RefreshStep<K, V>(cells: seq<Entry<K, V>>, active: seq<nat>, free: seq<nat>, index: map<K, nat>, capacity: nat,
                          k: K, e: Entry<K, V>, cells': seq<Entry<K, V>>, active': seq<nat>)
    requires Good(cells, active, free, index, capacity) && k in index && index[k] < |cells| && e.key == k
    requires cells' == cells[index[k] := e] && active' == Fronted(active, index[k])
    ensures Good(cells', active', free, index, capacity) && |active'| == |active|
    ensures var s, i := View(cells, active), Find(View(cells, active), k);
            i >= 0 && View(cells', active') == [e] + Drop(s, i)
  {
    var s, i := View(cells, active), Find(View(cells, active), k);
    FrontStep(cells, active, free, index, capacity, k);
    RewriteStep(cells, active', free, index, capacity, e);
    assert ([s[i]] + Drop(s, i))[1..] == Drop(s, i);
  }

  lemma NewStep<K, V>(cells: seq<Entry<K, V>>, active: seq<nat>, index: map<K, nat>, capacity: nat, e: Entry<K, V>)
    requires Good(cells, active, [], index, capacity) && |cells| < capacity && e.key !in index
    ensures var cells' := cells + [e];
            Good(cells', [|cells|] + active, [], index[e.key := |cells|], capacity)
              && View(cells', [|cells|] + active) == [e] + View(cells, active)
  {
    NewNode(|cells|, active, capacity);
    IndexedKeys(cells, cells + [e], active, index);
    IndexedMore(cells + [e], active, index, |cells|);
  }

  lemma ReuseStep<K, V>(cells: seq<Entry<K, V>>, active: seq<nat>, free: seq<nat>, index: map<K, nat>, capacity: nat,
                        e: Entry<K, V>)
    requires Good(cells, active, free, index, capacity) && free != [] && e.key !in index
    ensures free[0] < |cells|
    ensures var n := free[0];
            var cells' := cells[n := e];
            Good(cells', [n] + active, free[1..], index[e.key := n], capacity)
              && View(cells', [n] + active) == [e] + View(cells, active)
  {
    var n := free[0];
    assert n in free;
    FromFree(|cells|, active, free, capacity);
    ViewOther(cells, active, n, e);
    IndexedKeys(cells, cells[n := e], active, index);
    IndexedMore(cells[n := e], active, index, n);
  }

  class LocalCache<K(==), V> {
    const config: Config
    /** The list nodes made so far. */
    var cells: seq<Entry<K, V>>
    var active: seq<nat>
    var free: seq<nat>
    var index: map<K, nat>
    var size: nat

    ghost predicate Valid()
      reads this
    {
      Good(cells, active, free, index, config.capacity) && size == |active|
    }

    /** The entries, most recently used first. */
    ghost function Contents(): seq<Entry<K, V>>
      requires Valid()
      reads this
    {
      View(cells, active)
    }

    constructor (config: Config)
      ensures Valid() && Contents() == [] && this.config == config
    {
      this.config := config;
      cells, active, free, index, size := [], [], [], map[], 0;
    }

    /** An entry whose time is up goes to the free list. */
    method Expire(k: K)
      requires Valid() && k in index
      modifies this
      ensures Valid() && Find(old(Contents()), k) >= 0 && Contents() == Drop(old(Contents()), Find(old(Contents()), k))
    {
      var n := index[k];
      FindIsIndex(cells, active, index, k);
      FreeStep(cells, active, free, index, config.capacity, n);
      index := index - {cells[n].key};
      active, free := Removed(active, n), [n] + free;
      size := size - 1;
    }

    /** An entry that is found comes first. */
    method Touch(k: K)
      requires Valid() && k in index
      modifies this
      ensures Valid() && var i := Find(old(Contents()), k);
              i >= 0 && Contents() == [old(Contents())[i]] + Drop(old(Contents()), i)
    {
      FindIsIndex(cells, active, index, k);
      FrontStep(cells, active, free, index, config.capacity, k);
      active := Fronted(active, index[k]);
    }

    lemma IndexFinds(k: K)
      requires Valid()
      ensures var i := Find(Contents(), k);
              && (k in index <==> i >= 0) && (k in index ==> index[k] < |cells| && Contents()[i] == cells[index[k]])
      ensures Distinct(Contents())
    {
      SameKeys(cells, active, index);
      FindIsIndex(cells, active, index, k);
      if k in index {
        FrontStep(cells, active, free, index, config.capacity, k);
      }
    }

    method Get(k: K, now: nat) returns (v: Option<V>)
      requires Valid()
      modifies this
      ensures Valid() && v == Answer(old(Contents()), k, now, config)
      ensures Contents() == AfterGet(old(Contents()), k, now, config)
      ensures v.Some? <==> InTime(old(Contents()), k, now, config.expire)
      ensures v.Some? ==> Stores(old(Contents()), k, v.value)
      ensures v == None ==> NoKey(Contents(), k)
    {
      IndexFinds(k);
      AnswerIsExact(Contents(), k, now, config);
      v := None;
      if k in index {
        if Minus(now, cells[index[k]].ts) < config.expire {
          v := Some(cells[index[k]].val);
          Touch(k);
        } else {
          Expire(k);
        }
      }
    }

    /** Moves the least recently used node to the free list. */
    method Evict()
      requires Valid() && size > 0
      modifies this
      ensures Valid() && size == old(size) - 1 && Contents() == old(Contents())[..size] && index.Keys <= old(index).Keys
    {
      EvictStep(cells, active, free, index, config.capacity);
      var n := active[|active| - 1];
      index := index - {cells[n].key};
      active, free := Removed(active, n), [n] + free;
      size := size - 1;
    }

    /** Adds an entry for a new key, in a free node if there is one. */
    method Add(k: K, v: V, now: nat)
      requires Valid() && size < config.capacity && k !in index
      modifies this
      ensures Valid() && Contents() == [Entry(k, v, now)] + old(Contents())
    {
      if free == [] {
        NewStep(cells, active, index, config.capacity, Entry(k, v, now));
        cells, active := cells + [Entry(k, v, now)], [|cells|] + active;
      } else {
        ReuseStep(cells, active, free, index, config.capacity, Entry(k, v, now));
        cells, active, free := cells[free[0] := Entry(k, v, now)], [free[0]] + active, free[1..];
      }
      size := size + 1;
      index := index[k := active[0]];
    }

    /** Evicts until there is room for one more. */
    method MakeRoom()
      requires Valid() && config.capacity > 0
      modifies this
      ensures Valid() && size < config.capacity && index.Keys <= old(index).Keys
      ensures Contents() == Shortened(old(Contents()), config.capacity)
    {
      ghost var s := Contents();
      while size >= config.capacity
        invariant Valid() && index.Keys <= old(index).Keys
                  && Shortened(Contents(), config.capacity) == Shortened(s, config.capacity)
      {
        ShortenedLess(Contents(), config.capacity);
        Evict();
      }
    }

    /** Gives a present key a new value and moves it to the front. */
    method Refresh(k: K, v: V, now: nat)
      requires Valid() && k in index
      modifies this
      ensures Valid() && Find(old(Contents()), k) >= 0
      ensures Contents() == [Entry(k, v, now)] + Drop(old(Contents()), Find(old(Contents()), k))
    {
      var n := index[k];
      FindIsIndex(cells, active, index, k);
      var cells', active' := cells[n := cells[n].(val := v, ts := now)], Fronted(active, n);
      RefreshStep(cells, active, free, index, config.capacity, k, Entry(k, v, now), cells', active');
      cells, active := cells', active';
    }

    method Put(k: K, v: V, now: nat)
      requires Valid() && config.capacity > 0
      modifies this
      ensures Valid() && Contents() == AfterPut(old(Contents()), k, v, now, config)
    {
      FindIsIndex(cells, active, index, k);
      if k !in index {
        MakeRoom();
        Add(k, v, now);
      } else {
        Refresh(k, v, now);
      }
    }
  }

  lemma ShortenedLess<K, V>(s: seq<Entry<K, V>>, capacity: nat)
    requires 0 < capacity <= |s|
    ensures Shortened(s[..|s| - 1], capacity) == Shortened(s, capacity)
  {
  }
}
