/** Runs of insertions: the table is a map, and how many free buckets it takes. */
module QedRuns {
  import opened Collections
  import opened QedTable
  import opened QedRefinement
  import opened QedWord

  function Split(key: nat, count: nat): Key
    requires count > 0
  {
    Key(key / count, key % count)
  }

  lemma SplitInjective(a: nat, b: nat, count: nat)
    requires count > 0 && Split(a, count) == Split(b, count)
    ensures a == b
  {
  }

  datatype Put = Put(key: nat, payload: nat)

  /** What a client knows: the table, and for every key the payload it was last told is stored. */
  datatype Model = Model(table: Table, contents: map<nat, nat>)

  function Step(s: Model, p: Put): (r: Model)
    requires s.table.Count() > 0
    ensures r.table.Count() == s.table.Count()
  {
    match Insert(s.table, Split(p.key, s.table.Count()), p.payload)
    case Rejected => s
    case Placed(t, _) => Model(t, s.contents[p.key := Stored(p.payload)])
  }

  lemma PlacedStores(s: Model, p: Put)
    requires s.table.Count() > 0 && Insert(s.table, Split(p.key, s.table.Count()), p.payload).Placed?
    ensures Step(s, p).contents == s.contents[p.key := Stored(p.payload)]
  {
  }

  function Run(s: Model, puts: seq<Put>): (r: Model)
    requires s.table.Count() > 0
    ensures r.table.Count() == s.table.Count()
    decreases |puts|
  {
    if puts == [] then s else
      Run(Step(s, puts[0]), puts[1..])
  }

  function Start(count: nat): Model {
    Model(Reserved(count), map[])
  }

  // ----- The invariant of a run -----

  /** Every lookup gives what the map says. */
  ghost predicate Agrees(s: Model)
    requires s.table.Count() > 0
  {
    forall key: nat ::
      Find(s.table, Split(key, s.table.Count())) == if key in s.contents then s.contents[key] else NOT_FOUND
  }

  function KeysAt(m: map<nat, nat>, count: nat, h: nat): set<nat>
    requires count > 0
  {
    set k | k in m && Split(k, count).home == h
  }

  function UsedHomes(t: Table): set<nat> {
    set h | 0 <= h < |t.managed| && t.managed[h].size > 0
  }

  ghost predicate RunInv(s: Model, cs: seq<Chain>) {
    var t, m := s.table, s.contents;
    && t.Count() > 0 && Inv(t, cs) && Unmoved(t) && Agrees(s)
    && (forall k | k in m :: m[k] < PAYLOAD_LIMIT)
    && (forall h | 0 <= h < t.Count() :: |KeysAt(m, t.Count(), h)| == |cs[h]|)
    && t.freeCount + |UsedHomes(t)| == |m|
  }

  /** The home bucket has room for the key: it is short of 127 keys or has this one. */
  ghost predicate Fits(s: Model, key: nat)
    requires s.table.Count() > 0
  {
    key in s.contents || |KeysAt(s.contents, s.table.Count(), Split(key, s.table.Count()).home)| < 127
  }

  lemma StartInv(count: nat)
    requires count > 0
    ensures RunInv(Start(count), seq(count, _ => []))
  {
  }

  lemma KeysAtPut(m: map<nat, nat>, count: nat, key: nat, v: nat, h: nat)
    requires count > 0
    ensures KeysAt(m[key := v], count, h)
            == if Split(key, count).home == h then KeysAt(m, count, h) + {key} else KeysAt(m, count, h)
  {
  }

  /** How one successful insertion of payload v under key changes table and chains. */
  ghost predicate Inserting(t: Table, u: Table, cs: seq<Chain>, ds: seq<Chain>, k: Key, v: nat, isNew: bool) {
    && Inv(u, ds) && Unmoved(u) && |cs| == |ds| == u.Count() == t.Count() && k.home < |cs|
    && Puts(t, u, cs, ds, k, v)
    && (forall o | 0 <= o < |cs| && o != k.home :: |ds[o]| == |cs[o]|)
    && |ds[k.home]| == |cs[k.home]| + (if isNew then 1 else 0)
    && u.freeCount == t.freeCount + (if isNew && cs[k.home] != [] then 1 else 0)
  }

  lemma AgreesAfter(t: Table, u: Table, cs: seq<Chain>, ds: seq<Chain>, m: map<nat, nat>, key: nat, v: nat)
    requires t.Count() == u.Count() > 0 && Inv(t, cs) && Inv(u, ds) && Agrees(Model(t, m))
    requires Puts(t, u, cs, ds, Split(key, t.Count()), v)
    ensures Agrees(Model(u, m[key := v]))
  {
    var n := t.Count();
    var k := Split(key, n);
    forall other: nat
      ensures Find(u, Split(other, n)) == if other in m[key := v] then m[key := v][other] else NOT_FOUND
    {
      var o := Split(other, n);
      FindIsSearch(t, cs, o);
      FindIsSearch(u, ds, o);
      assert Find(t, o) == if other in m then m[other] else NOT_FOUND;
      if other != key && o == k {
        SplitInjective(other, key, n);
      }
    }
  }

  lemma SizesAfter(t: Table, u: Table, cs: seq<Chain>, ds: seq<Chain>, k: Key, v: nat, isNew: bool)
    requires Inv(t, cs) && Inserting(t, u, cs, ds, k, v, isNew) && (!isNew ==> cs[k.home] != [])
    ensures UsedHomes(u) == UsedHomes(t) + {k.home}
    ensures k.home in UsedHomes(t) <==> cs[k.home] != []
  {
    forall o | 0 <= o < t.Count() ensures t.managed[o].size == |cs[o]| && u.managed[o].size == |ds[o]| {
      assert ChainOk(t, cs[o], o) && ChainOk(u, ds[o], o);
    }
  }

  lemma KeysAtSize(m: map<nat, nat>, count: nat, key: nat, v: nat, h: nat)
    requires count > 0
    ensures |KeysAt(m[key := v], count, h)|
            == |KeysAt(m, count, h)| + (if key !in m && Split(key, count).home == h then 1 else 0)
  {
    KeysAtPut(m, count, key, v, h);
    if key in m {
      assert Split(key, count).home == h ==> KeysAt(m, count, h) + {key} == KeysAt(m, count, h);
    }
  }

  lemma AccountAfter(t: Table, u: Table, cs: seq<Chain>, ds: seq<Chain>, k: Key, m: map<nat, nat>, key: nat, v: nat)
    requires Inv(t, cs) && Inserting(t, u, cs, ds, k, v, key !in m) && (key in m ==> cs[k.home] != [])
    requires t.freeCount + |UsedHomes(t)| == |m|
    ensures u.freeCount + |UsedHomes(u)| == |m[key := v]|
  {
    SizesAfter(t, u, cs, ds, k, v, key !in m);
    assert k.home in UsedHomes(t) ==> UsedHomes(t) + {k.home} == UsedHomes(t);
    assert m[key := v].Keys == m.Keys + {key};
  }

  lemma PutKeepsRunInv(s: Model, cs: seq<Chain>, ds: seq<Chain>, key: nat, v: nat, u: Table)
    requires RunInv(s, cs) && v < PAYLOAD_LIMIT
    requires Inserting(s.table, u, cs, ds, Split(key, s.table.Count()), v, key !in s.contents)
    requires key in s.contents ==> cs[Split(key, s.table.Count()).home] != []
    ensures RunInv(Model(u, s.contents[key := v]), ds)
  {
    var t, m, n := s.table, s.contents, s.table.Count();
    var k, more := Split(key, n), s.contents[key := v];
    assert Agrees(Model(u, more)) by {
      AgreesAfter(t, u, cs, ds, m, key, v);
    }
    AccountAfter(t, u, cs, ds, k, m, key, v);
    forall h | 0 <= h < n ensures |KeysAt(more, n, h)| == |ds[h]| {
      KeysAtSize(m, n, key, v, h);
      assert |KeysAt(m, n, h)| == |cs[h]|;
    }
  }

  /** The three ways an insertion can go, seen from the chain of the key's home. */
  lemma InsertCases(t: Table, cs: seq<Chain>, k: Key, payload: nat, isNew: bool) returns (ds: seq<Chain>)
    requires Inv(t, cs) && Unmoved(t) && k.home < t.Count()
    requires isNew == Absent(t, cs[k.home], k.hi) && (isNew ==> |cs[k.home]| < 127)
    ensures Insert(t, k, payload).Placed? ==>
              Inserting(t, Insert(t, k, payload).table, cs, ds, k, Stored(payload), isNew)
    ensures Insert(t, k, payload).Rejected? <==> isNew && cs[k.home] != [] && t.freeCount == t.Count()
  {
    if cs[k.home] == [] {
      assert ChainOk(t, cs[k.home], k.home);
      FirstKeeps(t, cs, k, payload);
      ds := cs[k.home := [Managed(k.home)]];
    } else {
      ds := ChainedCases(t, cs, k, payload, isNew);
    }
  }

  lemma ChainedCases(t: Table, cs: seq<Chain>, k: Key, payload: nat, isNew: bool) returns (ds: seq<Chain>)
    requires Inv(t, cs) && Unmoved(t) && k.home < t.Count() && cs[k.home] != []
    requires isNew == Absent(t, cs[k.home], k.hi) && (isNew ==> |cs[k.home]| < 127)
    ensures Insert(t, k, payload).Placed? ==>
              Inserting(t, Insert(t, k, payload).table, cs, ds, k, Stored(payload), isNew)
    ensures Insert(t, k, payload).Rejected? <==> isNew && t.freeCount == t.Count()
  {
    var c := cs[k.home];
    var i := ProbeOfInsert(t, cs, k);
    ds := cs;
    if Slot(t, c[i]).hi == k.hi {
      HitKeeps(t, cs, k, payload, i);
    } else if t.freeCount < t.Count() {
      AppendKeeps(t, cs, k, payload);
      ds := cs[k.home := c + [Free(t.freeCount)]];
    }
  }

  lemma ProbeOfInsert(t: Table, cs: seq<Chain>, k: Key) returns (i: nat)
    requires Inv(t, cs) && Unmoved(t) && k.home < t.Count() && cs[k.home] != []
    ensures var c, root := cs[k.home], Slot(t, Managed(k.home));
            && i < |c| && root.size == |c| && !root.internal
            && ProbeFrom(t, Managed(k.home), root.size, k.hi)
               == (if Slot(t, c[i]).hi == k.hi then Hit(c[i]) else Miss(c[i]))
            && (Slot(t, c[i]).hi != k.hi ==> i == |c| - 1 && Absent(t, c, k.hi))
  {
    var c := cs[k.home];
    assert ChainOk(t, c, k.home);
    RootNotFull(t, c, k.home);
    i := ProbeSearches(t, c, k.hi);
  }

  /**
   An insertion is refused exactly if the size byte of its home is 255, or if the key is not on the chain and there
   is no free bucket for it; the first key of a home never is.
   */
  lemma RefusalIsExact(t: Table, cs: seq<Chain>, k: Key, payload: nat)
    requires Inv(t, cs) && k.home < t.Count()
    ensures Insert(t, k, payload).Rejected? <==>
              && cs[k.home] != []
              && (SizeByte(t.managed[k.home]) == 255 || (Absent(t, cs[k.home], k.hi) && t.freeCount == t.Count()))
  {
    var c := cs[k.home];
    assert ChainOk(t, c, k.home);
    if c != [] {
      var i := ProbeSearches(t, c, k.hi);
    }
  }

  /** As long as no chain was moved, the flag of a root is clear. */
  lemma RootNotFull(t: Table, c: Chain, h: nat)
    requires h < t.Count() && t.Shaped() && Unmoved(t) && ChainOk(t, c, h) && c != []
    ensures !Slot(t, Managed(h)).internal
  {
    if |c| > 1 {
      assert Following(Slot(t, c[0])) == c[1];
      if c[1].Managed? {
        assert RootOf(t, c[1]) == RootAt(h);
      }
    } else {
      assert Following(Slot(t, c[0])) == Free(h);
    }
  }

  /**
   One insertion keeps the invariant. It fails exactly for a new key of a non-empty home bucket when
   all free buckets are taken, and then nothing changes.
   */
  lemma StepKeepsInv(s: Model, cs: seq<Chain>, p: Put) returns (ds: seq<Chain>)
    requires RunInv(s, cs) && Fits(s, p.key)
    ensures RunInv(Step(s, p), ds)
    ensures p.key in Step(s, p).contents <==>
            p.key in s.contents || s.table.freeCount < s.table.Count()
              || s.table.managed[Split(p.key, s.table.Count()).home].size == 0
  {
    var t, n := s.table, s.table.Count();
    var k := Split(p.key, n);
    var c := cs[k.home];
    assert ChainOk(t, c, k.home) && |KeysAt(s.contents, n, k.home)| == |c|;
    PresentOrAbsent(s, cs, p.key);
    ds := InsertCases(t, cs, k, p.payload, p.key !in s.contents);
    if Insert(t, k, p.payload).Placed? {
      PutKeepsRunInv(s, cs, ds, p.key, Stored(p.payload), Insert(t, k, p.payload).table);
    } else {
      ds := cs;
    }
  }

  lemma PresentOrAbsent(s: Model, cs: seq<Chain>, key: nat)
    requires RunInv(s, cs)
    ensures var k := Split(key, s.table.Count());
            && (key in s.contents <==> !Absent(s.table, cs[k.home], k.hi))
            && (key in s.contents ==> cs[k.home] != [])
  {
    var t, k := s.table, Split(key, s.table.Count());
    var c := cs[k.home];
    assert ChainOk(t, c, k.home);
    FindIsSearch(t, cs, k);
    if Absent(t, c, k.hi) {
      SearchMiss(t, c, k.hi);
    } else {
      var i :| 0 <= i < |c| && Slot(t, c[i]).hi == k.hi;
      SearchHit(t, c, k.hi, i);
      assert Find(t, k) == if key in s.contents then s.contents[key] else NOT_FOUND;
      assert InBounds(t, c[i]);
    }
  }

  // ----- Every run -----

  function KeysOf(puts: seq<Put>): set<nat> {
    set p | p in puts :: p.key
  }

  function HomeKeys(keys: set<nat>, count: nat, h: nat): set<nat>
    requires count > 0
  {
    set k | k in keys && Split(k, count).home == h
  }

  /** No home bucket is given more than 127 different keys. */
  ghost predicate FewPerHome(keys: set<nat>, count: nat)
    requires count > 0
  {
    forall h | 0 <= h < count :: |HomeKeys(keys, count, h)| <= 127
  }

  /** The homes of a set of keys. */
  function HomesIn(keys: set<nat>, count: nat): set<nat>
    requires count > 0
  {
    set k | k in keys :: Split(k, count).home
  }

  /** All keys but the first of each home need a free bucket, and there are that many. */
  ghost predicate EnoughFree(keys: set<nat>, count: nat)
    requires count > 0
  {
    |keys| <= count + |HomesIn(keys, count)|
  }

  lemma HomesMore(keys: set<nat>, key: nat, count: nat)
    requires count > 0
    ensures HomesIn(keys + {key}, count) == HomesIn(keys, count) + {Split(key, count).home}
  {
  }

  /** More keys never need fewer free buckets. */
  lemma {:induction false} ExcessGrows(a: set<nat>, b: set<nat>, count: nat)
    requires count > 0 && a <= b
    ensures |a| + |HomesIn(b, count)| <= |b| + |HomesIn(a, count)|
    decreases |b - a|
  {
    if b <= a {
      assert a == b;
    } else {
      var x :| x in b && x !in a;
      assert b - (a + {x}) == (b - a) - {x};
      ExcessGrows(a + {x}, b, count);
      HomesMore(a, x, count);
    }
  }

  lemma FewFits(s: Model, keys: set<nat>, key: nat)
    requires s.table.Count() > 0 && FewPerHome(keys, s.table.Count()) && s.contents.Keys + {key} <= keys
    ensures Fits(s, key)
  {
    var n, h := s.table.Count(), Split(key, s.table.Count()).home;
    if key !in s.contents {
      var at := KeysAt(s.contents, n, h);
      SubsetSize(at + {key}, HomeKeys(keys, n, h));
    }
  }

  lemma FewStep(s: Model, cs: seq<Chain>, p: Put, keys: set<nat>) returns (ds: seq<Chain>)
    requires RunInv(s, cs) && FewPerHome(keys, s.table.Count()) && s.contents.Keys + {p.key} <= keys
    ensures RunInv(Step(s, p), ds) && Step(s, p).contents.Keys <= keys && Step(s, p).table.Count() == s.table.Count()
  {
    FewFits(s, keys, p.key);
    ds := StepKeepsInv(s, cs, p);
  }

  lemma {:induction false} RunKeepsInv(s: Model, cs: seq<Chain>, puts: seq<Put>, keys: set<nat>)
      returns (ds: seq<Chain>)
    requires RunInv(s, cs) && FewPerHome(keys, s.table.Count()) && s.contents.Keys + KeysOf(puts) <= keys
    ensures RunInv(Run(s, puts), ds) && Run(s, puts).contents.Keys <= keys
    decreases |puts|
  {
    if puts == [] {
      ds := cs;
    } else {
      assert puts[0] in puts && puts[0].key in KeysOf(puts);
      var es := FewStep(s, cs, puts[0], keys);
      assert KeysOf(puts[1..]) <= KeysOf(puts);
      ds := RunKeepsInv(Step(s, puts[0]), es, puts[1..], keys);
    }
  }

  /**
   After any run of insertions on a fresh table, a lookup returns the low 56 bits of the payload last
   stored under the key, and finds nothing under any other key. The free buckets in use are the
   distinct keys less the home buckets in use.
   */
  lemma TableIsMap(count: nat, puts: seq<Put>, key: nat)
    requires count > 0 && FewPerHome(KeysOf(puts), count)
    ensures var s := Run(Start(count), puts);
            && Find(s.table, Split(key, count)) == (if key in s.contents then s.contents[key] else NOT_FOUND)
            && s.table.freeCount + |UsedHomes(s.table)| == |s.contents|
  {
    StartInv(count);
    var ds := RunKeepsInv(Start(count), seq(count, _ => []), puts, KeysOf(puts));
    assert Agrees(Run(Start(count), puts));
  }

  /** The payload last given for each key. */
  function Latest(m: map<nat, nat>, puts: seq<Put>): map<nat, nat>
    decreases |puts|
  {
    if puts == [] then m else Latest(m[puts[0].key := Stored(puts[0].payload)], puts[1..])
  }

  lemma {:induction false} NothingLost(s: Model, cs: seq<Chain>, puts: seq<Put>, keys: set<nat>)
    requires RunInv(s, cs) && FewPerHome(keys, s.table.Count()) && s.contents.Keys + KeysOf(puts) <= keys
    requires EnoughFree(keys, s.table.Count())
    ensures Run(s, puts).contents == Latest(s.contents, puts)
    decreases |puts|
  {
    if puts != [] {
      var p := puts[0];
      assert p in puts && p.key in KeysOf(puts);
      FewFits(s, keys, p.key);
      var ds := StepKeepsInv(s, cs, p);
      RoomLeft(s, cs, p.key, keys);
      PlacedStores(s, p);
      assert KeysOf(puts[1..]) <= KeysOf(puts);
      NothingLost(Step(s, p), ds, puts[1..], keys);
    }
  }

  lemma UsedAreHomes(s: Model, cs: seq<Chain>)
    requires RunInv(s, cs)
    ensures UsedHomes(s.table) == HomesIn(s.contents.Keys, s.table.Count())
  {
    var n := s.table.Count();
    forall h | 0 <= h < n ensures h in UsedHomes(s.table) <==> h in HomesIn(s.contents.Keys, n) {
      assert ChainOk(s.table, cs[h], h) && |KeysAt(s.contents, n, h)| == |cs[h]|;
      if cs[h] != [] {
        var k :| k in KeysAt(s.contents, n, h);
        assert k in s.contents.Keys;
      }
      if k :| k in s.contents.Keys && Split(k, n).home == h {
        assert k in KeysAt(s.contents, n, h);
      }
    }
  }

  lemma FreeLeft(s: Model, cs: seq<Chain>, key: nat, keys: set<nat>)
    requires RunInv(s, cs) && s.contents.Keys + {key} <= keys && EnoughFree(keys, s.table.Count())
    requires key !in s.contents && cs[Split(key, s.table.Count()).home] != []
    ensures s.table.freeCount < s.table.Count()
  {
    var t, h := s.table, Split(key, s.table.Count()).home;
    assert ChainOk(t, cs[h], h);
    UsedAreHomes(s, cs);
    HomesMore(s.contents.Keys, key, t.Count());
    assert UsedHomes(t) + {h} == UsedHomes(t);
    ExcessGrows(s.contents.Keys + {key}, keys, t.Count());
  }

  /** As long as the free buckets cover all keys but the first of each home, there is one for a new key. */
  lemma RoomLeft(s: Model, cs: seq<Chain>, key: nat, keys: set<nat>)
    requires RunInv(s, cs) && Fits(s, key) && s.contents.Keys + {key} <= keys && EnoughFree(keys, s.table.Count())
    ensures forall payload :: Insert(s.table, Split(key, s.table.Count()), payload).Placed?
  {
    var t, k := s.table, Split(key, s.table.Count());
    assert |KeysAt(s.contents, t.Count(), k.home)| == |cs[k.home]|;
    PresentOrAbsent(s, cs, key);
    if key !in s.contents && cs[k.home] != [] {
      FreeLeft(s, cs, key, keys);
    }
    forall payload ensures Insert(t, k, payload).Placed? {
      var ds := InsertCases(t, cs, k, payload, key !in s.contents);
    }
  }

  /** After any insertions, the next one is not refused as long as the free buckets cover the keys. */
  lemma NeverRefused(count: nat, puts: seq<Put>, key: nat, payload: nat)
    requires count > 0 && FewPerHome(KeysOf(puts) + {key}, count) && EnoughFree(KeysOf(puts) + {key}, count)
    ensures Insert(Run(Start(count), puts).table, Split(key, count), payload).Placed?
  {
    var keys := KeysOf(puts) + {key};
    StartInv(count);
    var ds := RunKeepsInv(Start(count), seq(count, _ => []), puts, keys);
    FewFits(Run(Start(count), puts), keys, key);
    RoomLeft(Run(Start(count), puts), ds, key, keys);
  }

  /** What the last payloads given for the keys answer. */
  function Given(puts: seq<Put>, key: nat): nat {
    if key in Latest(map[], puts) then Latest(map[], puts)[key] else NOT_FOUND
  }

  /** As long as the free buckets cover the keys, every lookup gives the payload inserted last. */
  lemma CapacitySuffices(count: nat, puts: seq<Put>, key: nat)
    requires count > 0 && FewPerHome(KeysOf(puts), count) && EnoughFree(KeysOf(puts), count)
    ensures Find(Run(Start(count), puts).table, Split(key, count)) == Given(puts, key)
  {
    TableIsMap(count, puts, key);
    StartInv(count);
    NothingLost(Start(count), seq(count, _ => []), puts, KeysOf(puts));
  }

  lemma {:induction false} LatestKeys(m: map<nat, nat>, puts: seq<Put>)
    ensures Latest(m, puts).Keys == m.Keys + KeysOf(puts)
    ensures (forall k | k in m :: m[k] < PAYLOAD_LIMIT) ==>
              forall k | k in Latest(m, puts) :: Latest(m, puts)[k] < PAYLOAD_LIMIT
    decreases |puts|
  {
    if puts != [] {
      var m' := m[puts[0].key := Stored(puts[0].payload)];
      LatestKeys(m', puts[1..]);
      assert puts == [puts[0]] + puts[1..];
      assert m'.Keys == m.Keys + {puts[0].key} && KeysOf(puts) == {puts[0].key} + KeysOf(puts[1..]);
    }
  }

  /** The keys of a table have their buckets. */
  lemma StoredCovers(s: Model, cs: seq<Chain>)
    requires RunInv(s, cs)
    ensures EnoughFree(s.contents.Keys, s.table.Count())
  {
    UsedAreHomes(s, cs);
  }

  /** With more keys than free buckets and homes can take, some key is lost in every order of insertion. */
  lemma SomeKeyLost(count: nat, puts: seq<Put>)
    requires count > 0 && FewPerHome(KeysOf(puts), count) && !EnoughFree(KeysOf(puts), count)
    ensures exists key :: key in KeysOf(puts) && key !in Run(Start(count), puts).contents
  {
    var s := Run(Start(count), puts);
    StartInv(count);
    var ds := RunKeepsInv(Start(count), seq(count, _ => []), puts, KeysOf(puts));
    StoredCovers(s, ds);
    assert s.contents.Keys != KeysOf(puts);
  }

  /** Insertions leave all lookups as they were asked for if and only if the free buckets cover the keys. */
  lemma CapacityIsExact(count: nat, puts: seq<Put>)
    requires count > 0 && FewPerHome(KeysOf(puts), count)
    ensures (forall key :: Find(Run(Start(count), puts).table, Split(key, count)) == Given(puts, key))
            <==> EnoughFree(KeysOf(puts), count)
  {
    if EnoughFree(KeysOf(puts), count) {
      forall key ensures Find(Run(Start(count), puts).table, Split(key, count)) == Given(puts, key) {
        CapacitySuffices(count, puts, key);
      }
    } else {
      SomeKeyLost(count, puts);
      var key :| key in KeysOf(puts) && key !in Run(Start(count), puts).contents;
      TableIsMap(count, puts, key);
      LatestKeys(map[], puts);
      assert Given(puts, key) < PAYLOAD_LIMIT;
    }
  }

  /** A table reserved for n entries, with the bucket type chosen for n, has room for n distinct keys. */
  lemma ReserveSuffices(n: nat, bucketType: nat, puts: seq<Put>, key: nat, payload: nat)
    requires n < Pow2(bucketType) && FewPerHome(KeysOf(puts) + {key}, Pow2(bucketType)) && |KeysOf(puts) + {key}| <= n
    ensures Insert(Run(Start(Pow2(bucketType)), puts).table, Split(key, Pow2(bucketType)), payload).Placed?
  {
    NeverRefused(Pow2(bucketType), puts, key, payload);
  }

  // ----- The limit of 127 keys per home bucket is exact -----

  /** The size byte overflows into the flag: the home bucket reads as empty and all its keys are gone. */
  lemma OverflowLosesHome(s: Model, cs: seq<Chain>, p: Put, key: nat)
    requires RunInv(s, cs) && !Fits(s, p.key) && s.table.freeCount < s.table.Count()
    requires Split(key, s.table.Count()).home == Split(p.key, s.table.Count()).home
    ensures Find(Step(s, p).table, Split(key, s.table.Count())) == NOT_FOUND
  {
    var t, n := s.table, s.table.Count();
    var k := Split(p.key, n);
    var c := cs[k.home];
    assert ChainOk(t, c, k.home) && |KeysAt(s.contents, n, k.home)| == |c|;
    PresentOrAbsent(s, cs, p.key);
    RootNotFull(t, c, k.home);
    var i := ProbeSearches(t, c, k.hi);
    var u := Step(s, p).table;
    assert u == Append(t, k, p.payload, c[i]);
    assert u.managed[k.home].size == 0;
  }

  /** An insertion keeps the table a map if and only if its home has room for the key or it is refused. */
  lemma LimitIsExact(s: Model, cs: seq<Chain>, p: Put)
    requires RunInv(s, cs)
    ensures Agrees(Step(s, p)) <==> Fits(s, p.key) || s.table.freeCount == s.table.Count()
  {
    if Fits(s, p.key) {
      var ds := StepKeepsInv(s, cs, p);
    } else if s.table.freeCount == s.table.Count() {
      RefusedWhenFull(s, cs, p);
    } else {
      OverflowLosesHome(s, cs, p, p.key);
      OverflowPlaces(s, cs, p);
      assert Stored(p.payload) != NOT_FOUND;
      assert !Agrees(Step(s, p));
    }
  }

  lemma RefusedWhenFull(s: Model, cs: seq<Chain>, p: Put)
    requires RunInv(s, cs) && !Fits(s, p.key) && s.table.freeCount == s.table.Count()
    ensures Step(s, p) == s
  {
    FullProbe(s, cs, p);
  }

  lemma OverflowPlaces(s: Model, cs: seq<Chain>, p: Put)
    requires RunInv(s, cs) && !Fits(s, p.key) && s.table.freeCount < s.table.Count()
    ensures Step(s, p).contents == s.contents[p.key := Stored(p.payload)]
  {
    FullProbe(s, cs, p);
  }

  lemma FullProbe(s: Model, cs: seq<Chain>, p: Put)
    requires RunInv(s, cs) && !Fits(s, p.key)
    ensures var k := Split(p.key, s.table.Count());
            var root := Slot(s.table, Managed(k.home));
            && root.size == 127 && !root.internal
            && ProbeFrom(s.table, Managed(k.home), root.size, k.hi).Miss?
  {
    var t, k := s.table, Split(p.key, s.table.Count());
    var c := cs[k.home];
    assert ChainOk(t, c, k.home) && |KeysAt(s.contents, t.Count(), k.home)| == |c|;
    PresentOrAbsent(s, cs, p.key);
    RootNotFull(t, c, k.home);
    var i := ProbeSearches(t, c, k.hi);
    assert t.managed[k.home].size < 128;
  }
}
