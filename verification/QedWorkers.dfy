/** Dividing the keys among workers: any interleaving of their insertions has the same outcome. */
module QedWorkers {
  import opened QedTable
  import opened QedRefinement
  import opened QedRuns
  import opened QedWord
  import opened Division
  import opened QedConcurrent

  // ----- What is stored once everything has finished -----

  /** The payload last given for a key. */
  function LastOf(puts: seq<Put>, key: nat): nat
    decreases |puts|
  {
    if puts == [] then NOT_FOUND
    else if puts[|puts| - 1].key == key then Stored(puts[|puts| - 1].payload)
    else LastOf(puts[..|puts| - 1], key)
  }

  lemma LastOfSnoc(puts: seq<Put>, p: Put, key: nat)
    ensures LastOf(puts + [p], key) == if p.key == key then Stored(p.payload) else LastOf(puts, key)
  {
  }

  lemma {:induction false} LatestSnoc(m: map<nat, nat>, puts: seq<Put>, p: Put)
    ensures Latest(m, puts + [p]) == Latest(m, puts)[p.key := Stored(p.payload)]
    decreases |puts|
  {
    if puts == [] {
      assert (puts + [p])[1..] == [];
    } else {
      assert (puts + [p])[1..] == puts[1..] + [p];
      LatestSnoc(m[puts[0].key := Stored(puts[0].payload)], puts[1..], p);
    }
  }

  lemma {:induction false} LastOfIsLatest(puts: seq<Put>, key: nat)
    ensures LastOf(puts, key) == if key in Latest(map[], puts) then Latest(map[], puts)[key] else NOT_FOUND
    decreases |puts|
  {
    if puts != [] {
      var front, p := puts[..|puts| - 1], puts[|puts| - 1];
      assert puts == front + [p];
      LatestSnoc(map[], front, p);
      LastOfIsLatest(front, key);
    }
  }

  // ----- Free buckets taken so far -----

  function BusyKeys(s: State): set<nat> {
    Reserving(s.pcs)
  }

  function Reserving(pcs: seq<Pc>): set<nat> {
    set h | 0 <= h < |pcs| && pcs[h].Appending? :: pcs[h].put.key
  }

  /** n free buckets are taken: one for every key but the first of each home. */
  ghost predicate Balance(n: nat, homes: set<nat>, stored: set<nat>, reserved: set<nat>) {
    n + |homes| == |stored + reserved|
  }

  ghost predicate Account(s: State) {
    && s.table.Count() > 0
    && Balance(s.table.freeCount, HomesIn(s.contents.Keys, s.table.Count()), s.contents.Keys, BusyKeys(s))
  }

  lemma HomeUsed(s: State, cs: seq<Chain>, h: nat)
    requires MInv(s, cs) && h < |cs|
    ensures h in HomesIn(s.contents.Keys, s.table.Count()) <==> cs[h] != []
  {
    var at := KeysAt(s.contents, |cs|, h);
    assert |at| == |cs[h]|;
    if cs[h] != [] {
      assert at != {};
      var k :| k in at;
      assert k in s.contents && Split(k, s.table.Count()).home == h;
    }
    if h in HomesIn(s.contents.Keys, s.table.Count()) {
      var k :| k in s.contents && Split(k, s.table.Count()).home == h;
      assert k in at;
    }
  }

  lemma HomesAfter(m: map<nat, nat>, count: nat, key: nat, v: nat)
    requires count > 0
    ensures HomesIn(m[key := v].Keys, count) == HomesIn(m.Keys, count) + {Split(key, count).home}
  {
  }

  /** Only the insertion of home h changes; how that shows in the busy keys. */
  lemma BusyAfter(s: State, pcs: seq<Pc>, h: nat)
    requires h < |s.pcs| == |pcs| && forall o | 0 <= o < |pcs| && o != h :: pcs[o] == s.pcs[o]
    requires forall o | 0 <= o < |pcs| && o != h && s.pcs[o].Appending? ::
               (s.pcs[h].Appending? ==> s.pcs[o].put.key != s.pcs[h].put.key)
                 && (pcs[h].Appending? ==> s.pcs[o].put.key != pcs[h].put.key)
    ensures BusyKeys(s.(pcs := pcs))
            == BusyKeys(s) - (if s.pcs[h].Appending? then {s.pcs[h].put.key} else {})
               + (if pcs[h].Appending? then {pcs[h].put.key} else {})
  {
  }

  lemma OtherKeysDiffer(s: State, cs: seq<Chain>, h: nat, o: nat, key: nat)
    requires MInv(s, cs) && h < |cs| && o < |cs| && o != h && s.pcs[o].Appending?
             && Split(key, s.table.Count()).home == h
    ensures s.pcs[o].put.key != key
  {
    assert HomeOk(s.table, cs[o], o, s.pcs[o]);
  }

  /** The key an insertion is about belongs to its home. */
  lemma OwnKey(s: State, cs: seq<Chain>, h: nat)
    requires MInv(s, cs) && h < |cs| && !s.pcs[h].Idle?
    ensures Split(s.pcs[h].put.key, s.table.Count()).home == h
  {
  }

  lemma BusyStep(s: State, cs: seq<Chain>, s': State, h: nat)
    requires MInv(s, cs) && h < |cs| && !s.pcs[h].Idle? && |s'.pcs| == |s.pcs|
    requires forall o | 0 <= o < |s.pcs| && o != h :: s'.pcs[o] == s.pcs[o]
    requires !s'.pcs[h].Idle? ==> s'.pcs[h].put == s.pcs[h].put
    ensures var key := s.pcs[h].put.key;
            && (key in BusyKeys(s) <==> s.pcs[h].Appending?)
            && BusyKeys(s') == BusyKeys(s) - {key} + (if s'.pcs[h].Appending? then {key} else {})
  {
    var key := s.pcs[h].put.key;
    OwnKey(s, cs, h);
    forall o | 0 <= o < |s.pcs| && o != h && s.pcs[o].Appending? ensures s.pcs[o].put.key != key {
      OtherKeysDiffer(s, cs, h, o, key);
    }
    ReservingAfter(s.pcs, s'.pcs, h, key);
  }

  lemma ReservingAfter(pcs: seq<Pc>, pcs': seq<Pc>, h: nat, key: nat)
    requires h < |pcs| == |pcs'| && forall o | 0 <= o < |pcs| && o != h :: pcs'[o] == pcs[o]
    requires forall o | 0 <= o < |pcs| && o != h && pcs[o].Appending? :: pcs[o].put.key != key
    requires (pcs[h].Appending? ==> pcs[h].put.key == key) && (pcs'[h].Appending? ==> pcs'[h].put.key == key)
    ensures key in Reserving(pcs) <==> pcs[h].Appending?
    ensures Reserving(pcs') == Reserving(pcs) - {key} + (if pcs'[h].Appending? then {key} else {})
  {
  }

  lemma BalanceReserve(n: nat, homes: set<nat>, stored: set<nat>, reserved: set<nat>, key: nat)
    requires Balance(n, homes, stored, reserved) && key !in stored && key !in reserved
    ensures Balance(n + 1, homes, stored, reserved + {key})
  {
    assert stored + (reserved + {key}) == (stored + reserved) + {key};
  }

  lemma BalanceStore(n: nat, homes: set<nat>, stored: set<nat>, reserved: set<nat>, h: nat, key: nat)
    requires Balance(n, homes, stored, reserved) && (h in homes <==> key in stored + reserved)
    ensures Balance(n, homes + {h}, stored + {key}, reserved - {key})
  {
    assert (stored + {key}) + (reserved - {key}) == (stored + reserved) + {key};
    if h in homes {
      assert homes + {h} == homes && (stored + reserved) + {key} == stored + reserved;
    }
  }

  lemma MissIsNew(s: State, cs: seq<Chain>, h: nat)
    requires MInv(s, cs) && h < |cs| && s.pcs[h].Probed? && s.pcs[h].probe.Miss?
    ensures s.pcs[h].put.key !in s.contents && s.pcs[h].put.key !in BusyKeys(s)
    ensures Split(s.pcs[h].put.key, s.table.Count()).home == h && h in HomesIn(s.contents.Keys, s.table.Count())
  {
    assert HomeOk(s.table, cs[h], h, s.pcs[h]);
    OwnKey(s, cs, h);
    StoredIffPresent(s, cs, s.pcs[h].put);
    BusyStep(s, cs, s, h);
    HomeUsed(s, cs, h);
  }

  /** Keys with a bucket reserved belong to homes in use. */
  lemma BusyHomes(s: State, cs: seq<Chain>)
    requires MInv(s, cs)
    ensures HomesIn(s.contents.Keys + BusyKeys(s), s.table.Count()) == HomesIn(s.contents.Keys, s.table.Count())
  {
    var n := s.table.Count();
    forall x | x in BusyKeys(s) ensures Split(x, n).home in HomesIn(s.contents.Keys, n) {
      var o :| 0 <= o < |s.pcs| && s.pcs[o].Appending? && s.pcs[o].put.key == x;
      assert HomeOk(s.table, cs[o], o, s.pcs[o]);
      HomeUsed(s, cs, o);
    }
    forall x | x in s.contents.Keys ensures x in s.contents.Keys + BusyKeys(s) {
    }
  }

  lemma BusyWithin(s: State, keys: set<nat>)
    requires Within(s, keys)
    ensures BusyKeys(s) <= keys
  {
    forall x | x in BusyKeys(s) ensures x in keys {
      var o :| 0 <= o < |s.pcs| && s.pcs[o].Appending? && s.pcs[o].put.key == x;
    }
  }

  /** As long as the free buckets cover the keys, a new key finds one. */
  lemma FreeBucketLeft(s: State, cs: seq<Chain>, h: nat, keys: set<nat>)
    requires MInv(s, cs) && Account(s) && Within(s, keys) && EnoughFree(keys, s.table.Count())
    requires h < |cs| && s.pcs[h].Probed? && s.pcs[h].probe.Miss?
    ensures s.table.freeCount < s.table.Count()
  {
    var n, key, held := s.table.Count(), s.pcs[h].put.key, s.contents.Keys + BusyKeys(s);
    MissIsNew(s, cs, h);
    BusyHomes(s, cs);
    HomesMore(held, key, n);
    assert HomesIn(held, n) + {h} == HomesIn(held, n);
    BusyWithin(s, keys);
    ExcessGrows(held + {key}, keys, n);
  }

  // ----- What has been begun is stored or still under way -----

  /** What a lookup will give for the key once the current insertions are through. */
  function Expected(s: State, key: nat): nat
    requires s.table.Count() > 0
  {
    var h := Split(key, s.table.Count()).home;
    if h < |s.pcs| && !s.pcs[h].Idle? && s.pcs[h].put.key == key then Stored(s.pcs[h].put.payload)
    else if key in s.contents then s.contents[key] else NOT_FOUND
  }

  ghost predicate Tracks(s: State) {
    s.table.Count() > 0 && forall key :: LastOf(s.begun, key) == Expected(s, key)
  }

  /** Beginning an insertion in an idle home always puts it under way. */
  lemma BeginStarts(s: State, cs: seq<Chain>, p: Put)
    requires MInv(s, cs) && s.pcs[Split(p.key, s.table.Count()).home].Idle?
    ensures var s', h := Next(s, Begin(p)), Split(p.key, s.table.Count()).home;
            && s' == s.(begun := s.begun + [p], pcs := s.pcs[h := s'.pcs[h]])
            && !s'.pcs[h].Idle? && s'.pcs[h].put == p && !s'.pcs[h].Appending?
  {
    var h := Split(p.key, s.table.Count()).home;
    assert HomeOk(s.table, cs[h], h, Idle);
    if |cs[h]| > 1 {
      assert Following(Slot(s.table, cs[h][0])) == cs[h][1] && cs[h][1].Free?;
    }
  }

  lemma BeginTracks(s: State, cs: seq<Chain>, p: Put)
    requires MInv(s, cs) && Account(s)
    ensures Account(Next(s, Begin(p))) && (Tracks(s) ==> Tracks(Next(s, Begin(p))))
  {
    var s', h := Next(s, Begin(p)), Split(p.key, s.table.Count()).home;
    if s.pcs[h].Idle? {
      BeginStarts(s, cs, p);
      BegunAccounts(s, s', p, h);
      if Tracks(s) {
        BegunTracks(s, s', p, h);
      }
    }
  }

  /** s' is s with the insertion of p under way in its home. */
  ghost predicate Begun(s: State, s': State, p: Put, h: nat) {
    && s.table.Count() > 0 && h < |s.pcs| == |s'.pcs| && s.pcs[h].Idle? && h == Split(p.key, s.table.Count()).home
    && s' == s.(begun := s.begun + [p], pcs := s.pcs[h := s'.pcs[h]])
    && !s'.pcs[h].Idle? && s'.pcs[h].put == p && !s'.pcs[h].Appending?
  }

  lemma BegunTracks(s: State, s': State, p: Put, h: nat)
    requires Tracks(s) && Begun(s, s', p, h)
    ensures Tracks(s')
  {
    forall key ensures LastOf(s'.begun, key) == Expected(s', key) {
      LastOfSnoc(s.begun, p, key);
      assert LastOf(s.begun, key) == Expected(s, key);
    }
  }

  lemma BegunAccounts(s: State, s': State, p: Put, h: nat)
    requires Account(s) && Begun(s, s', p, h)
    ensures Account(s')
  {
    BusyAfter(s, s'.pcs, h);
    assert BusyKeys(s') == BusyKeys(s.(pcs := s'.pcs)) == BusyKeys(s);
  }

  /** Home h takes a step: it leaves the others alone, and either goes on with its insertion or stores it. */
  ghost predicate Works(s: State, s': State, h: nat, stores: bool)
    requires h < |s.pcs| && !s.pcs[h].Idle?
  {
    && |s'.pcs| == |s.pcs| && s'.begun == s.begun && s'.table.Count() == s.table.Count()
    && (forall o | 0 <= o < |s.pcs| && o != h :: s'.pcs[o] == s.pcs[o])
    && if stores then
         && s'.pcs[h].Idle? && s'.contents == s.contents[s.pcs[h].put.key := Stored(s.pcs[h].put.payload)]
         && s'.table.freeCount == s.table.freeCount && !(s.pcs[h].Probed? && s.pcs[h].probe.Miss?)
       else
         && !s'.pcs[h].Idle? && s'.pcs[h].put == s.pcs[h].put && s'.contents == s.contents
         && (s.pcs[h].Appending? ==> s'.pcs[h].Appending?)
         && (Reserves(s, s', h) ==> s.pcs[h].Probed? && s.pcs[h].probe.Miss?)
         && s'.table.freeCount == s.table.freeCount + (if Reserves(s, s', h) then 1 else 0)
  }

  predicate Reserves(s: State, s': State, h: nat)
    requires h < |s.pcs| == |s'.pcs|
  {
    s'.pcs[h].Appending? && !s.pcs[h].Appending?
  }

  lemma WorkWorks(s: State, h: nat)
    requires h < |s.pcs| == s.table.Count() && !s.pcs[h].Idle?
    requires s.pcs[h].Probed? && s.pcs[h].probe.Miss? ==> s.table.freeCount < s.table.Count()
    ensures Works(s, Next(s, Work(h)), h, Next(s, Work(h)).pcs[h].Idle?)
  {
  }

  lemma WorkTracks(s: State, cs: seq<Chain>, h: nat, keys: set<nat>)
    requires MInv(s, cs) && Tracks(s) && Account(s) && Within(s, keys) && EnoughFree(keys, s.table.Count()) && h < |cs|
    ensures Tracks(Next(s, Work(h)))
  {
    if !s.pcs[h].Idle? {
      if s.pcs[h].Probed? && s.pcs[h].probe.Miss? {
        FreeBucketLeft(s, cs, h, keys);
      }
      WorkWorks(s, h);
      OwnKey(s, cs, h);
      TracksAfter(s, Next(s, Work(h)), h, Next(s, Work(h)).pcs[h].Idle?);
    }
  }

  /** Every step keeps the account, also one that is refused a free bucket. */
  lemma WorkAccounts(s: State, cs: seq<Chain>, h: nat)
    requires MInv(s, cs) && Account(s) && h < |cs|
    ensures Account(Next(s, Work(h)))
  {
    if !s.pcs[h].Idle? {
      if s.pcs[h].Probed? && s.pcs[h].probe.Miss? && s.table.freeCount == s.table.Count() {
        RefusalAccounts(s, cs, h);
      } else {
        WorkWorks(s, h);
        WorkedAccounts(s, cs, Next(s, Work(h)), h, Next(s, Work(h)).pcs[h].Idle?);
      }
    }
  }

  lemma RefusalAccounts(s: State, cs: seq<Chain>, h: nat)
    requires MInv(s, cs) && Account(s) && h < |cs| && s.pcs[h].Probed? && s.pcs[h].probe.Miss?
    requires s.table.freeCount == s.table.Count()
    ensures Account(Next(s, Work(h)))
  {
    MissIsNew(s, cs, h);
    BusyStep(s, cs, Next(s, Work(h)), h);
    assert BusyKeys(Next(s, Work(h))) == BusyKeys(s);
  }

  lemma WorkedAccounts(s: State, cs: seq<Chain>, s': State, h: nat, stores: bool)
    requires MInv(s, cs) && Account(s) && h < |cs| && !s.pcs[h].Idle? && Works(s, s', h, stores)
    ensures Account(s')
  {
    BusyStep(s, cs, s', h);
    if stores {
      HomeOfStored(s, cs, h);
    } else if Reserves(s, s', h) {
      MissIsNew(s, cs, h);
    }
    AccountAfter(s, s', h, stores);
  }

  lemma HomeOfStored(s: State, cs: seq<Chain>, h: nat)
    requires MInv(s, cs) && h < |cs| && !s.pcs[h].Idle? && !(s.pcs[h].Probed? && s.pcs[h].probe.Miss?)
    ensures HomeCounts(s, s.pcs[h].put.key)
  {
    StoringIsNew(s, cs, h);
    OwnKey(s, cs, h);
    HomeUsed(s, cs, h);
    BusyStep(s, cs, s, h);
  }

  /** The home of the key is in use exactly if the key is stored or has a bucket reserved. */
  ghost predicate HomeCounts(s: State, key: nat) {
    && s.table.Count() > 0
    && (Split(key, s.table.Count()).home in HomesIn(s.contents.Keys, s.table.Count())
       <==> key in s.contents.Keys + BusyKeys(s))
  }

  lemma AccountStores(s: State, s': State, key: nat, v: nat)
    requires Account(s) && s'.contents == s.contents[key := v] && BusyKeys(s') == BusyKeys(s) - {key}
             && HomeCounts(s, key)
    requires s'.table.Count() == s.table.Count() && s'.table.freeCount == s.table.freeCount
    ensures Account(s')
  {
    var n, h := s.table.Count(), Split(key, s.table.Count()).home;
    BalanceStore(s.table.freeCount, HomesIn(s.contents.Keys, n), s.contents.Keys, BusyKeys(s), h, key);
    assert HomesIn(s'.contents.Keys, n) == HomesIn(s.contents.Keys, n) + {h} by { HomesAfter(s.contents, n, key, v); }
    KeysAfter(s.contents, key, v);
  }

  lemma KeysAfter(m: map<nat, nat>, key: nat, v: nat)
    ensures m[key := v].Keys == m.Keys + {key}
  {
  }

  lemma AccountReserves(s: State, s': State, key: nat)
    requires Account(s) && s'.contents == s.contents && BusyKeys(s') == BusyKeys(s) + {key}
    requires key !in s.contents && key !in BusyKeys(s)
    requires s'.table.Count() == s.table.Count() && s'.table.freeCount == s.table.freeCount + 1
    ensures Account(s')
  {
    BalanceReserve(s.table.freeCount, HomesIn(s.contents.Keys, s.table.Count()), s.contents.Keys, BusyKeys(s), key);
  }

  lemma AccountAfter(s: State, s': State, h: nat, stores: bool)
    requires Account(s) && h < |s.pcs| && !s.pcs[h].Idle? && Works(s, s', h, stores)
    requires s.pcs[h].put.key in BusyKeys(s) <==> s.pcs[h].Appending?
    requires BusyKeys(s')
             == BusyKeys(s) - {s.pcs[h].put.key} + (if s'.pcs[h].Appending? then {s.pcs[h].put.key} else {})
    requires stores ==> HomeCounts(s, s.pcs[h].put.key)
    requires !stores && Reserves(s, s', h) ==> s.pcs[h].put.key !in s.contents
    ensures Account(s')
  {
    var key, busy := s.pcs[h].put.key, BusyKeys(s);
    BusySet(busy, key, s.pcs[h].Appending?, s'.pcs[h].Appending?);
    if stores {
      AccountStores(s, s', key, Stored(s.pcs[h].put.payload));
    } else if Reserves(s, s', h) {
      AccountReserves(s, s', key);
    }
  }

  lemma BusySet(busy: set<nat>, key: nat, was: bool, now: bool)
    requires key in busy <==> was
    ensures busy - {key} + (if now then {key} else {})
            == if !now then busy - {key} else if was then busy else busy + {key}
    ensures !was ==> busy - {key} == busy
  {
  }

  lemma TracksAfter(s: State, s': State, h: nat, stores: bool)
    requires Tracks(s) && h < |s.pcs| && !s.pcs[h].Idle? && Works(s, s', h, stores)
    requires Split(s.pcs[h].put.key, s.table.Count()).home == h
    ensures Tracks(s')
  {
  }

  lemma StoringIsNew(s: State, cs: seq<Chain>, h: nat)
    requires MInv(s, cs) && h < |cs| && !s.pcs[h].Idle? && !(s.pcs[h].Probed? && s.pcs[h].probe.Miss?)
    ensures s.pcs[h].put.key in s.contents <==> s.pcs[h].Probed?
    ensures cs[h] == [] <==> s.pcs[h].First?
  {
    OwnKey(s, cs, h);
    StoredIffPresent(s, cs, s.pcs[h].put);
    assert HomeOk(s.table, cs[h], h, s.pcs[h]);
    if s.pcs[h].Probed? {
      var k := Split(s.pcs[h].put.key, s.table.Count());
      var i :| 0 <= i < |cs[h]| && cs[h][i] == s.pcs[h].probe.at && Slot(s.table, cs[h][i]).hi == k.hi;
      assert !Absent(s.table, cs[h], k.hi);
    }
  }

  // ----- Whole runs -----

  lemma {:induction false} RunTracks(s: State, cs: seq<Chain>, run: seq<Action>, keys: set<nat>)
      returns (ds: seq<Chain>)
    requires MInv(s, cs) && Account(s) && Within(s, keys) && FewPerHome(keys, s.table.Count()) && Inserts(run, keys)
    ensures MInv(RunFrom(s, run), ds) && RunFrom(s, run).table.Count() == s.table.Count() && Account(RunFrom(s, run))
    ensures Tracks(s) && EnoughFree(keys, s.table.Count()) ==> Tracks(RunFrom(s, run))
    decreases |run|
  {
    ds := cs;
    if run != [] {
      assert run[0] in run && forall a | a in run[1..] :: a in run;
      var es := NextInv(s, cs, run[0], keys);
      match run[0] {
        case Begin(p) => BeginTracks(s, cs, p);
        case Work(h) =>
          if h < |cs| {
            WorkAccounts(s, cs, h);
            if Tracks(s) && EnoughFree(keys, s.table.Count()) {
              WorkTracks(s, cs, h, keys);
            }
          }
      }
      ds := RunTracks(Next(s, run[0]), es, run[1..], keys);
    }
  }

  ghost predicate AllIdle(s: State) {
    forall pc | pc in s.pcs :: pc.Idle?
  }

  /** A lookup in an idle home gives what is stored. */
  lemma IdleFind(s: State, cs: seq<Chain>, key: nat)
    requires MInv(s, cs) && AllIdle(s)
    ensures Find(s.table, Split(key, s.table.Count())) == if key in s.contents then s.contents[key] else NOT_FOUND
  {
    var k := Split(key, s.table.Count());
    assert s.pcs[k.home] in s.pcs;
    assert HomeOk(s.table, cs[k.home], k.home, s.pcs[k.home]) && StockedAt(s.table, cs, s.contents, key);
    PublishedFind(s.table, cs[k.home], k);
  }

  lemma InitAccounts(count: nat)
    requires count > 0
    ensures Account(Init(count)) && Tracks(Init(count)) && Within(Init(count), {})
  {
    var s := Init(count);
    assert BusyKeys(s) == {} && HomesIn(s.contents.Keys, count) == {};
  }

  /** Once all insertions are through, every lookup gives the payload begun last for its key. */
  lemma QuiescentLookups(count: nat, run: seq<Action>, keys: set<nat>, key: nat)
    requires count > 0 && FewPerHome(keys, count) && EnoughFree(keys, count) && Inserts(run, keys)
    requires AllIdle(RunFrom(Init(count), run))
    ensures Find(RunFrom(Init(count), run).table, Split(key, count)) == LastOf(RunFrom(Init(count), run).begun, key)
  {
    InitInv(count);
    InitAccounts(count);
    var s := RunFrom(Init(count), run);
    var ds := RunTracks(Init(count), seq(count, _ => []), run, keys);
    IdleFind(s, ds, key);
    assert s.pcs[Split(key, count).home] in s.pcs;
    assert LastOf(s.begun, key) == Expected(s, key);
  }

  // ----- Workers -----

  function WorkerOf(key: nat, workers: nat): nat
    requires workers > 0
  {
    (key / 4) % workers
  }

  lemma RemainderOfMultiple(q: nat, w: nat, z: nat)
    requires w > 0
    ensures (q * w + z) % w == z % w
  {
    var x := q * w + z;
    var d := z / w;
    assert z == d * w + z % w;
    assert x == (q + d) * w + z % w;
    DivisionIsUnique(q + d, z % w, x / w, x % w, w);
  }

  lemma LineDecides(x: nat, y: nat, q: nat, w: nat, r: nat)
    requires w > 0 && y == q * w
    ensures ((x * (4 * y) + r) / 4) % w == (r / 4) % w
  {
    QuarterOf(x, y, r);
    assert x * y == (x * q) * w;
    RemainderOfMultiple(x * q, w, r / 4);
  }

  lemma LineOfKey(key: nat, y: nat, q: nat, w: nat, x: nat, r: nat)
    requires w > 0 && y == q * w && key == x * (4 * y) + r
    ensures (key / 4) % w == (r / 4) % w
  {
    LineDecides(x, y, q, w, r);
  }

  lemma Divided(key: nat, c: nat) returns (x: nat, r: nat)
    requires c > 0
    ensures key == x * c + r && r == key % c
  {
    x, r := key / c, key % c;
  }

  lemma WorkerFromCount(key: nat, c: nat, y: nat, q: nat, w: nat)
    requires w > 0 && c > 0 && c == 4 * y && y == q * w
    ensures (key / 4) % w == ((key % c) / 4) % w
  {
    var x, r := Divided(key, c);
    assert x * c == x * (4 * y);
    LineOfKey(key, y, q, w, x, r);
  }

  /** The worker of a key only depends on the cache line of its home bucket. */
  lemma WorkerFromHome(key: nat, t: nat, w: nat)
    requires w + 2 <= t
    ensures WorkerOf(key, Pow2(w)) == (Split(key, Pow2(t)).home / 4) % Pow2(w)
  {
    Pow2Splits(w, t - 2);
    Pow2Splits(2, t);
    assert Pow2(2) == 2 * Pow2(1) && Pow2(1) == 2 * Pow2(0);
    WorkerFromCount(key, Pow2(t), Pow2(t - 2), Pow2(t - 2 - w), Pow2(w));
  }

  lemma QuarterOf(x: nat, y: nat, r: nat)
    ensures (x * (4 * y) + r) / 4 == x * y + r / 4
  {
  }

  /** Keys that share a home bucket, or the cache line of it, go to the same worker. */
  lemma SharedLineSharedWorker(a: nat, b: nat, t: nat, w: nat)
    requires w + 2 <= t
    requires Split(a, Pow2(t)).home / 4 == Split(b, Pow2(t)).home / 4
    ensures WorkerOf(a, Pow2(w)) == WorkerOf(b, Pow2(w))
  {
    WorkerFromHome(a, t, w);
    WorkerFromHome(b, t, w);
  }

  /** A worker that has finished its previous insertion never finds the home of its next key busy. */
  lemma WorkerNeverBlocked(s: State, cs: seq<Chain>, t: nat, w: nat, p: Put)
    requires MInv(s, cs) && s.table.Count() == Pow2(t) && w + 2 <= t
    requires forall h | 0 <= h < |s.pcs| && !s.pcs[h].Idle? ::
               WorkerOf(s.pcs[h].put.key, Pow2(w)) != WorkerOf(p.key, Pow2(w))
    ensures s.pcs[Split(p.key, s.table.Count()).home].Idle?
  {
    var h := Split(p.key, s.table.Count()).home;
    if !s.pcs[h].Idle? {
      OwnKey(s, cs, h);
      SharedLineSharedWorker(s.pcs[h].put.key, p.key, t, w);
    }
  }

  /** The insertions of one worker, in order. */
  function Share(puts: seq<Put>, workers: nat, i: nat): seq<Put>
    requires workers > 0
    decreases |puts|
  {
    if puts == [] then []
    else
      var front, p := Share(puts[..|puts| - 1], workers, i), puts[|puts| - 1];
      if WorkerOf(p.key, workers) == i then front + [p] else front
  }

  /** The outcome for a key only depends on what its own worker inserts. */
  lemma {:induction false} ShareDecides(puts: seq<Put>, workers: nat, key: nat)
    requires workers > 0
    ensures LastOf(Share(puts, workers, WorkerOf(key, workers)), key) == LastOf(puts, key)
    decreases |puts|
  {
    if puts != [] {
      var front, p := puts[..|puts| - 1], puts[|puts| - 1];
      ShareDecides(front, workers, key);
      LastOfSnoc(Share(front, workers, WorkerOf(key, workers)), p, key);
    }
  }

  /**
   Let workers, a power of two of them and at most a quarter of the buckets, interleave their
   insertions write by write in any way, each inserting its own keys in its own order. Afterwards
   every lookup is what it is when the same insertions are made one after another by one thread.
   */
  lemma WorkersActLikeOne(t: nat, w: nat, run: seq<Action>, puts: seq<Put>, key: nat)
    requires w + 2 <= t
    requires FewPerHome(KeysOf(puts), Pow2(t)) && EnoughFree(KeysOf(puts), Pow2(t)) && Inserts(run, KeysOf(puts))
    requires var s := RunFrom(Init(Pow2(t)), run);
             && AllIdle(s)
             && (forall i | 0 <= i < Pow2(w) :: Share(s.begun, Pow2(w), i) == Share(puts, Pow2(w), i))
    ensures Find(RunFrom(Init(Pow2(t)), run).table, Split(key, Pow2(t)))
            == Find(Run(Start(Pow2(t)), puts).table, Split(key, Pow2(t)))
  {
    var begun, i := RunFrom(Init(Pow2(t)), run).begun, WorkerOf(key, Pow2(w));
    QuiescentLookups(Pow2(t), run, KeysOf(puts), key);
    assert Share(begun, Pow2(w), i) == Share(puts, Pow2(w), i);
    ShareDecides(begun, Pow2(w), key);
    ShareDecides(puts, Pow2(w), key);
    CapacitySuffices(Pow2(t), puts, key);
    LastOfIsLatest(puts, key);
  }
}
