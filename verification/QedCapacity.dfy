/** What happens when the free buckets do not suffice: every run loses a key, and which one depends on the order. */
module QedCapacity {
  import opened Collections
  import opened QedTable
  import opened QedRuns
  import opened QedConcurrent
  import opened QedWorkers
  import opened QedLimits
  import opened QedWord

  lemma {:induction false} LastOfKey(puts: seq<Put>, key: nat)
    ensures key in KeysOf(puts) ==> LastOf(puts, key) < PAYLOAD_LIMIT
    ensures key !in KeysOf(puts) ==> LastOf(puts, key) == NOT_FOUND
    decreases |puts|
  {
    if puts != [] {
      var front, p := puts[..|puts| - 1], puts[|puts| - 1];
      LastOfKey(front, key);
      assert puts == front + [p];
      assert KeysOf(puts) == KeysOf(front) + {p.key};
    }
  }

  /** If everything begun has a bucket, the free buckets cover it. */
  lemma StoredFits(s: State, cs: seq<Chain>)
    requires MInv(s, cs) && Account(s)
    ensures EnoughFree(s.contents.Keys + BusyKeys(s), s.table.Count())
  {
    BusyHomes(s, cs);
  }

  /** With more keys than free buckets and homes can take, every complete run of the workers loses one. */
  lemma EveryRunLoses(count: nat, run: seq<Action>, keys: set<nat>)
    requires count > 0 && FewPerHome(keys, count) && Inserts(run, keys) && !EnoughFree(keys, count)
    requires AllIdle(RunFrom(Init(count), run))
    ensures exists key :: key in keys && Find(RunFrom(Init(count), run).table, Split(key, count)) == NOT_FOUND
  {
    var s := RunFrom(Init(count), run);
    InitInv(count);
    InitAccounts(count);
    var ds := RunTracks(Init(count), seq(count, _ => []), run, keys);
    StoredFits(s, ds);
    assert BusyKeys(s) == {} by {
      forall h | 0 <= h < |s.pcs| ensures !s.pcs[h].Appending? {
        assert s.pcs[h] in s.pcs;
      }
    }
    assert s.contents.Keys + BusyKeys(s) == s.contents.Keys;
    if keys <= s.contents.Keys {
      ExcessGrows(keys, s.contents.Keys, count);
    } else {
      var key :| key in keys && key !in s.contents.Keys;
      IdleFind(s, ds, key);
    }
  }

  /**
   A complete run gives every key the payload begun last for it if and only if the free buckets cover the keys begun.
   */
  lemma CoverageIsExact(count: nat, run: seq<Action>, keys: set<nat>)
    requires count > 0 && FewPerHome(keys, count) && Inserts(run, keys)
    requires AllIdle(RunFrom(Init(count), run)) && KeysOf(RunFrom(Init(count), run).begun) == keys
    ensures (forall key ::
              Find(RunFrom(Init(count), run).table, Split(key, count)) == LastOf(RunFrom(Init(count), run).begun, key))
            <==> EnoughFree(keys, count)
  {
    var s := RunFrom(Init(count), run);
    if EnoughFree(keys, count) {
      forall key ensures Find(s.table, Split(key, count)) == LastOf(s.begun, key) {
        QuiescentLookups(count, run, keys, key);
      }
    } else {
      EveryRunLoses(count, run, keys);
      var key :| key in keys && Find(s.table, Split(key, count)) == NOT_FOUND;
      LastOfKey(s.begun, key);
    }
  }

  // ----- One insertion after another -----

  /** How many writes an insertion has left at most. */
  function Left(pc: Pc): nat {
    match pc
    case Idle => 0
    case First(_, stage) =>
      (match stage case ClaimSize => 5 case SetRoot => 4 case SetPayload => 3 case SetKey => 2 case SetSize => 1)
    case Probed(_, _) => 8
    case Appending(_, stage, _, _) =>
      (match stage
       case FillPayload => 7
       case FillKey => 6
       case FillFlag => 5
       case FillRoot => 4
       case LinkLast => 3
       case ClearFlag => 2
       case BumpSize => 1)
  }

  function Works(h: nat, n: nat): seq<Action> {
    seq(n, _ => Work(h))
  }

  /** All writes of one insertion. */
  function Whole(p: Put, count: nat): seq<Action>
    requires count > 0
  {
    [Begin(p)] + Works(Split(p.key, count).home, 8)
  }

  /** One insertion after another. */
  function Serial(puts: seq<Put>, count: nat): seq<Action>
    requires count > 0
  {
    if puts == [] then [] else Serial(puts[..|puts| - 1], count) + Whole(puts[|puts| - 1], count)
  }

  lemma {:induction false} RunFromAppend(s: State, a: seq<Action>, b: seq<Action>)
    ensures RunFrom(s, a + b) == RunFrom(RunFrom(s, a), b)
    decreases |a|
  {
    if a == [] {
      assert a + b == b;
    } else {
      assert (a + b)[0] == a[0] && (a + b)[1..] == a[1..] + b;
      RunFromAppend(Next(s, a[0]), a[1..], b);
    }
  }

  /** Only home h is not idle. */
  ghost predicate OnlyBusy(s: State, h: nat) {
    h < |s.pcs| == s.table.Count() && forall o | 0 <= o < |s.pcs| && o != h :: s.pcs[o].Idle?
  }

  lemma WorkAdvances(s: State, h: nat)
    requires OnlyBusy(s, h)
    ensures var s' := Next(s, Work(h));
            && OnlyBusy(s', h) && s'.begun == s.begun && s.contents.Keys <= s'.contents.Keys
            && Left(s'.pcs[h]) <= (if Left(s.pcs[h]) == 0 then 0 else Left(s.pcs[h]) - 1)
  {
  }

  lemma {:induction false} WorksFinish(s: State, h: nat, n: nat)
    requires OnlyBusy(s, h) && Left(s.pcs[h]) <= n
    ensures var s' := RunFrom(s, Works(h, n));
            AllIdle(s') && |s'.pcs| == s'.table.Count() == |s.pcs| && s'.begun == s.begun
              && s.contents.Keys <= s'.contents.Keys
    decreases n
  {
    if n > 0 {
      assert Works(h, n)[1..] == Works(h, n - 1);
      WorkAdvances(s, h);
      WorksFinish(Next(s, Work(h)), h, n - 1);
    } else {
      forall pc | pc in s.pcs ensures pc.Idle? {
        var o :| 0 <= o < |s.pcs| && s.pcs[o] == pc;
      }
    }
  }

  lemma WholeFinishes(s: State, p: Put)
    requires AllIdle(s) && |s.pcs| == s.table.Count() > 0
    ensures var s' := RunFrom(s, Whole(p, s.table.Count()));
            && AllIdle(s') && |s'.pcs| == s'.table.Count() == |s.pcs| && s'.begun == s.begun + [p]
            && s.contents.Keys <= s'.contents.Keys
  {
    var h := Split(p.key, s.table.Count()).home;
    assert s.pcs[h] in s.pcs;
    var s1 := Next(s, Begin(p));
    forall o | 0 <= o < |s.pcs| && o != h ensures s1.pcs[o].Idle? {
      assert s.pcs[o] in s.pcs;
    }
    assert Whole(p, s.table.Count())[1..] == Works(h, 8);
    WorksFinish(s1, h, 8);
  }

  /** The state after one insertion after another. */
  function After(puts: seq<Put>, count: nat): State
    requires count > 0
  {
    RunFrom(Init(count), Serial(puts, count))
  }

  lemma SerialSnoc(puts: seq<Put>, p: Put, count: nat)
    requires count > 0
    ensures After(puts + [p], count) == RunFrom(After(puts, count), Whole(p, count))
  {
    assert (puts + [p])[..|puts|] == puts;
    RunFromAppend(Init(count), Serial(puts, count), Whole(p, count));
  }

  /** A run without overlap finishes everything it begins. */
  lemma {:induction false} SerialFinishes(count: nat, puts: seq<Put>)
    requires count > 0
    ensures var s := After(puts, count); AllIdle(s) && |s.pcs| == s.table.Count() == count && s.begun == puts
    decreases |puts|
  {
    if puts != [] {
      var front, p := puts[..|puts| - 1], puts[|puts| - 1];
      assert puts == front + [p];
      SerialFinishes(count, front);
      SerialSnoc(front, p, count);
      WholeFinishes(After(front, count), p);
    }
  }

  /** Stored keys stay stored. */
  lemma {:induction false} SerialKeeps(count: nat, a: seq<Put>, b: seq<Put>)
    requires count > 0
    ensures After(a, count).contents.Keys <= After(a + b, count).contents.Keys
    decreases |b|
  {
    if b == [] {
      assert a + b == a;
    } else {
      var front, p := b[..|b| - 1], b[|b| - 1];
      assert a + b == (a + front) + [p];
      SerialKeeps(count, a, front);
      SerialFinishes(count, a + front);
      SerialSnoc(a + front, p, count);
      WholeFinishes(After(a + front, count), p);
    }
  }

  lemma {:induction false} SerialInserts(puts: seq<Put>, count: nat, keys: set<nat>)
    requires count > 0 && KeysOf(puts) <= keys
    ensures Inserts(Serial(puts, count), keys)
    decreases |puts|
  {
    if puts != [] {
      var front, p := puts[..|puts| - 1], puts[|puts| - 1];
      assert p in puts && p.key in KeysOf(puts);
      assert KeysOf(front) <= KeysOf(puts);
      SerialInserts(front, count, keys);
    }
  }

  // ----- Which key is lost depends on the order -----

  /** What is inserted first, and fits, is found for ever. */
  lemma FirstIsStored(count: nat, a: seq<Put>, b: seq<Put>, key: nat)
    requires count > 0 && FewPerHome(KeysOf(a + b), count) && EnoughFree(KeysOf(a), count) && key in KeysOf(a)
    ensures Find(After(a + b, count).table, Split(key, count)) != NOT_FOUND
  {
    SerialFinishes(count, a + b);
    SerialKeeps(count, a, b);
    SerialInserts(a + b, count, KeysOf(a + b));
    FirstStored(count, a, b, key);
    InitInv(count);
    var ds := QedConcurrent.RunKeepsInv(Init(count), seq(count, _ => []), Serial(a + b, count), KeysOf(a + b));
    IdleFind(After(a + b, count), ds, key);
  }

  lemma FirstStored(count: nat, a: seq<Put>, b: seq<Put>, key: nat)
    requires count > 0 && FewPerHome(KeysOf(a + b), count) && EnoughFree(KeysOf(a), count) && key in KeysOf(a)
    ensures key in After(a, count).contents
  {
    var s := After(a, count);
    FewerPerHome(KeysOf(a), KeysOf(a + b), count);
    SerialInserts(a, count, KeysOf(a));
    SerialFinishes(count, a);
    QuiescentLookups(count, Serial(a, count), KeysOf(a), key);
    LastOfKey(a, key);
    InitInv(count);
    var ds := QedConcurrent.RunKeepsInv(Init(count), seq(count, _ => []), Serial(a, count), KeysOf(a));
    IdleFind(s, ds, key);
  }

  lemma FewerPerHome(a: set<nat>, b: set<nat>, count: nat)
    requires count > 0 && a <= b && FewPerHome(b, count)
    ensures FewPerHome(a, count)
  {
    forall h | 0 <= h < count ensures |HomeKeys(a, count, h)| <= 127 {
      SubsetSize(HomeKeys(a, count, h), HomeKeys(b, count, h));
    }
  }

  lemma {:induction false} ShareAppend(a: seq<Put>, b: seq<Put>, workers: nat, i: nat)
    requires workers > 0
    ensures Share(a + b, workers, i) == Share(a, workers, i) + Share(b, workers, i)
    decreases |b|
  {
    if b == [] {
      assert a + b == a;
    } else {
      assert (a + b)[..|a + b| - 1] == a + b[..|b| - 1];
      ShareAppend(a, b[..|b| - 1], workers, i);
    }
  }

  lemma {:induction false} ShareOfOther(puts: seq<Put>, workers: nat, x: nat, i: nat)
    requires workers > 0 && i != x && forall p | p in puts :: WorkerOf(p.key, workers) == x
    ensures Share(puts, workers, i) == []
    decreases |puts|
  {
    if puts != [] {
      assert puts[|puts| - 1] in puts;
      ShareOfOther(puts[..|puts| - 1], workers, x, i);
    }
  }

  /** Two complete runs in which every worker inserts the same, with different lookups at the end. */
  ghost predicate OrderShows(a: seq<Put>, b: seq<Put>, count: nat, workers: nat)
    requires count > 0 && workers > 0
  {
    var s, u := After(a + b, count), After(b + a, count);
    && AllIdle(s) && AllIdle(u)
    && (forall i | 0 <= i < workers :: Share(s.begun, workers, i) == Share(u.begun, workers, i))
    && exists key :: Find(s.table, Split(key, count)) != Find(u.table, Split(key, count))
  }

  /** Two workers that each find room alone but not together: who comes first decides what is lost. */
  lemma OrderMatters(count: nat, workers: nat, x: nat, y: nat, a: seq<Put>, b: seq<Put>)
    requires count > 0 && workers > 0 && x != y
    requires (forall p | p in a :: WorkerOf(p.key, workers) == x)
             && (forall p | p in b :: WorkerOf(p.key, workers) == y)
    requires FewPerHome(KeysOf(a) + KeysOf(b), count) && EnoughFree(KeysOf(a), count) && EnoughFree(KeysOf(b), count)
    requires !EnoughFree(KeysOf(a) + KeysOf(b), count)
    ensures OrderShows(a, b, count, workers)
  {
    var keys := KeysOf(a) + KeysOf(b);
    assert KeysOf(a + b) == keys && KeysOf(b + a) == keys;
    SerialFinishes(count, a + b);
    SerialFinishes(count, b + a);
    forall i | 0 <= i < workers ensures Share(a + b, workers, i) == Share(b + a, workers, i) {
      SameShares(a, b, workers, x, y, i);
    }
    SerialInserts(a + b, count, keys);
    EveryRunLoses(count, Serial(a + b, count), keys);
    var s := After(a + b, count);
    var key :| key in keys && Find(s.table, Split(key, count)) == NOT_FOUND;
    if key in KeysOf(a) {
      FirstIsStored(count, a, b, key);
    } else {
      FirstIsStored(count, b, a, key);
    }
  }

  lemma SameShares(a: seq<Put>, b: seq<Put>, workers: nat, x: nat, y: nat, i: nat)
    requires workers > 0 && x != y
    requires (forall p | p in a :: WorkerOf(p.key, workers) == x)
             && (forall p | p in b :: WorkerOf(p.key, workers) == y)
    ensures Share(a + b, workers, i) == Share(b + a, workers, i)
  {
    ShareAppend(a, b, workers, i);
    ShareAppend(b, a, workers, i);
    if i != x {
      ShareOfOther(a, workers, x, i);
    }
    if i != y {
      ShareOfOther(b, workers, y, i);
    }
  }

  lemma TwoFamilies(count: nat, g: nat, h: nat, n: nat)
    requires g < count && h < count && g != h && n > 0
    ensures var keys := KeysOf(Family(count, g, n)) + KeysOf(Family(count, h, n));
            |keys| == 2 * n && HomesIn(keys, count) == {g, h}
  {
    var a, b := KeysOf(Family(count, g, n)), KeysOf(Family(count, h, n));
    FamilySize(count, g, n);
    FamilySize(count, h, n);
    forall k | k in a ensures k !in b {
      FamilyAt(count, g, n, k);
      FamilyAt(count, h, n, k);
    }
    assert a !! b;
    FamilyHomes(count, g, n);
    FamilyHomes(count, h, n);
    assert HomesIn(a + b, count) == HomesIn(a, count) + HomesIn(b, count);
  }

  lemma TwoFamiliesFit(count: nat, g: nat, h: nat, n: nat)
    requires g < count && h < count && n <= 127
    ensures FewPerHome(KeysOf(Family(count, g, n)) + KeysOf(Family(count, h, n)), count)
  {
    var keys := KeysOf(Family(count, g, n)) + KeysOf(Family(count, h, n));
    forall x | 0 <= x < count ensures |HomeKeys(keys, count, x)| <= 127 {
      forall k | k in HomeKeys(keys, count, x) ensures k in KeysOf(Family(count, x, n)) {
        FamilyAt(count, g, n, k);
        FamilyAt(count, h, n, k);
        FamilyAt(count, x, n, k);
      }
      FamilySize(count, x, n);
      SubsetSize(HomeKeys(keys, count, x), KeysOf(Family(count, x, n)));
    }
  }

  lemma FamilyWorker(t: nat, w: nat, h: nat, n: nat, p: Put)
    requires w + 2 <= t && h < Pow2(t) && p in Family(Pow2(t), h, n)
    ensures WorkerOf(p.key, Pow2(w)) == WorkerOf(h, Pow2(w))
  {
    assert p.key in KeysOf(Family(Pow2(t), h, n));
    FamilyAt(Pow2(t), h, n, p.key);
    WorkerFromHome(p.key, t, w);
  }

  /**
   Two homes of different workers, with n keys each: if the free buckets cover one family but not both, the order
   of the workers shows. Eight buckets, two workers, the homes 0 and 4 and six keys each are such a case.
   */
  lemma TwoHomesClash(t: nat, w: nat, g: nat, h: nat, n: nat)
    requires w + 2 <= t && g < Pow2(t) && h < Pow2(t) && WorkerOf(g, Pow2(w)) != WorkerOf(h, Pow2(w))
    requires n <= 127 && n - 1 <= Pow2(t) < 2 * (n - 1)
    ensures OrderShows(Family(Pow2(t), g, n), Family(Pow2(t), h, n), Pow2(t), Pow2(w))
  {
    var count := Pow2(t);
    var a, b := Family(count, g, n), Family(count, h, n);
    TwoFamilies(count, g, h, n);
    TwoFamiliesFit(count, g, h, n);
    FamilySize(count, g, n);
    FamilySize(count, h, n);
    FamilyHomes(count, g, n);
    FamilyHomes(count, h, n);
    forall p | p in a ensures WorkerOf(p.key, Pow2(w)) == WorkerOf(g, Pow2(w)) { FamilyWorker(t, w, g, n, p); }
    forall p | p in b ensures WorkerOf(p.key, Pow2(w)) == WorkerOf(h, Pow2(w)) { FamilyWorker(t, w, h, n, p); }
    OrderMatters(count, Pow2(w), WorkerOf(g, Pow2(w)), WorkerOf(h, Pow2(w)), a, b);
  }

  lemma EightBucketsTwoWorkers(t: nat, w: nat)
    requires t == 3 && w == 1
    ensures Pow2(t) == 8 && Pow2(w) == 2 && exists a, b :: |a| == |b| == 6 && OrderShows(a, b, Pow2(t), Pow2(w))
  {
    assert Pow2(t) == 8 && Pow2(w) == 2;
    var h, n := 4, 6;
    TwoHomesClash(t, w, 0, h, n);
    assert |Family(Pow2(t), 0, n)| == |Family(Pow2(t), h, n)| == 6;
  }
}
