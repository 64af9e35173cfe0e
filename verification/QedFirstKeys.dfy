/**
 Lookups on a home that has no key yet. Its first insertion sets the size before the key, so for a while the home
 shows one bucket whose high bits are still 0. That misleads exactly the lookups of keys below the number of
 buckets.
 */
module QedFirstKeys {
  import opened Division
  import opened QedTable
  import opened QedRuns
  import opened QedConcurrent
  import opened QedReader

  /** Home h shows no key yet; its bucket is as far as the insertion at work says. */
  ghost predicate Dark(s: State, h: nat) {
    && h < |s.pcs| && h < s.table.Count()
    && var b, pc := s.table.managed[h], s.pcs[h];
       && (pc.Idle? || pc.First?) && b.hi == 0 && b.payload < PAYLOAD_LIMIT
       && (if pc.First? && pc.first != ClaimSize then pc.first != SetSize && b.size == 1 else b.size == 0)
  }

  /** Home h shows its first key, which is not finished. */
  ghost predicate Dawning(s: State, h: nat) {
    && h < |s.pcs| && h < s.table.Count()
    && var b, pc := s.table.managed[h], s.pcs[h];
       && pc.First? && pc.first == SetSize && b.size == 1 && b.payload == Stored(pc.put.payload)
       && Split(pc.put.key, s.table.Count()) == Key(b.hi, h)
  }

  // ----- What a step does to a home -----

  lemma AppendKeepsRoot(s: State, o: nat, h: nat)
    requires o < |s.pcs| == s.table.Count() && h < |s.pcs| && o != h && s.pcs[o].Appending?
    requires s.pcs[o].last != Managed(h)
    ensures var s' := WorkAt(s, o);
            s'.table.Count() == |s'.pcs| == |s.pcs| && s'.pcs[h] == s.pcs[h]
              && s'.table.managed[h] == s.table.managed[h]
  {
  }

  lemma WorkKeepsRoot(s: State, o: nat, h: nat)
    requires o < |s.pcs| == s.table.Count() && h < |s.pcs| && o != h
    requires s.pcs[o].Probed? && s.pcs[o].probe.Hit? ==> s.pcs[o].probe.at != Managed(h)
    requires s.pcs[o].Appending? ==> s.pcs[o].last != Managed(h)
    ensures var s' := WorkAt(s, o);
            s'.table.Count() == |s'.pcs| == |s.pcs| && s'.pcs[h] == s.pcs[h]
              && s'.table.managed[h] == s.table.managed[h]
  {
    if s.pcs[o].Appending? {
      AppendKeepsRoot(s, o, h);
    }
  }

  /** A chain has only its own root bucket among the managed ones. */
  lemma OwnRootOnly(t: Table, c: Chain, o: nat, l: Loc, h: nat)
    requires o < t.Count() && Published(t, c, o) && l in c && o != h
    ensures l != Managed(h)
  {
    var i :| 0 <= i < |c| && c[i] == l;
  }

  lemma OthersKeepRoot(s: State, cs: seq<Chain>, o: nat, h: nat)
    requires MInv(s, cs) && o < |cs| && h < |cs| && o != h
    ensures var s' := WorkAt(s, o);
            s'.table.Count() == |s'.pcs| == |s.pcs| && s'.pcs[h] == s.pcs[h]
              && s'.table.managed[h] == s.table.managed[h]
  {
    var t, c, pc := s.table, cs[o], s.pcs[o];
    assert HomeOk(t, c, o, pc);
    if pc.Probed? && pc.probe.Hit? {
      OwnRootOnly(t, c, o, pc.probe.at, h);
    }
    if pc.Appending? {
      OwnRootOnly(t, c, o, pc.last, h);
    }
    WorkKeepsRoot(s, o, h);
  }

  lemma DarkBegin(s: State, p: Put, h: nat)
    requires |s.pcs| == s.table.Count() && Dark(s, h)
    ensures Dark(Next(s, Begin(p)), h)
  {
  }

  lemma DarkWork(s: State, h: nat)
    requires |s.pcs| == s.table.Count() && Dark(s, h)
    requires s.pcs[h].First? ==> Split(s.pcs[h].put.key, s.table.Count()).home == h
    requires s.pcs[h].First? && s.pcs[h].first == SetKey ==> s.table.managed[h].payload == Stored(s.pcs[h].put.payload)
    ensures Dark(WorkAt(s, h), h) || Dawning(WorkAt(s, h), h)
  {
  }

  lemma DarkNext(s: State, cs: seq<Chain>, a: Action, h: nat)
    requires MInv(s, cs) && Dark(s, h)
    ensures Dark(Next(s, a), h) || Dawning(Next(s, a), h)
  {
    match a
    case Begin(p) => DarkBegin(s, p, h);
    case Work(o) =>
      if o == h {
        assert HomeOk(s.table, cs[h], h, s.pcs[h]);
        DarkWork(s, h);
      } else if o < |cs| {
        OthersKeepRoot(s, cs, o, h);
      }
  }

  /** The unfinished first key stays as it is until it is finished. */
  ghost predicate Brightens(s: State, s': State, h: nat) {
    && h < s.table.Count() == s'.table.Count() == |s'.pcs| && s'.table.managed[h].hi == s.table.managed[h].hi
    && (Dawning(s', h) || (s'.pcs[h].Idle? && s'.table.managed[h].size == 1))
  }

  lemma DawningBegin(s: State, p: Put, h: nat)
    requires |s.pcs| == s.table.Count() && Dawning(s, h)
    ensures Brightens(s, Next(s, Begin(p)), h)
  {
  }

  lemma DawningNext(s: State, cs: seq<Chain>, a: Action, h: nat)
    requires MInv(s, cs) && Dawning(s, h)
    ensures Brightens(s, Next(s, a), h)
  {
    match a
    case Begin(p) => DawningBegin(s, p, h);
    case Work(o) =>
      if o != h && o < |cs| {
        OthersKeepRoot(s, cs, o, h);
      }
  }

  // ----- What the map answers -----

  lemma DarkAnswer(s: State, cs: seq<Chain>, key: nat)
    requires MInv(s, cs) && Dark(s, Split(key, s.table.Count()).home)
    ensures Answer(s, key) == NOT_FOUND && cs[Split(key, s.table.Count()).home] == []
  {
    var h := Split(key, s.table.Count()).home;
    assert HomeOk(s.table, cs[h], h, s.pcs[h]);
    StoredIffPresent(s, cs, Put(key, 0));
  }

  lemma DawningAnswer(s: State, cs: seq<Chain>, key: nat)
    requires MInv(s, cs) && Dawning(s, Split(key, s.table.Count()).home)
    ensures var k := Split(key, s.table.Count());
            var b := s.table.managed[k.home];
            Answer(s, key) == if k.hi == b.hi then b.payload else NOT_FOUND
  {
    var h := Split(key, s.table.Count()).home;
    assert HomeOk(s.table, cs[h], h, s.pcs[h]);
    StoredIffPresent(s, cs, Put(key, 0));
    if Split(key, s.table.Count()) == Split(s.pcs[h].put.key, s.table.Count()) {
      SplitInjective(key, s.pcs[h].put.key, s.table.Count());
    }
  }

  // ----- What the reader knows -----

  /** The reader has seen a home of one bucket with another key, at a time when the map had none. */
  ghost predicate Passing(x: Session, h: nat) {
    NOT_FOUND in x.seen
      && (x.reader == ReadFlag(0, Managed(h), 1) || exists f :: x.reader == ReadNext(0, Managed(h), 1, f))
  }

  ghost predicate InDark(x: Session, h: nat) {
    || x.reader == ReadSize || Passing(x, h) || (x.reader == ReadKey(0, Managed(h), 1) && NOT_FOUND in x.seen)
    || (x.reader.Found? && x.reader.result in x.seen)
  }

  ghost predicate InLight(x: Session, c: Chain, k: Key) {
    c != [] && (Knows(x, c, k.hi) || Passing(x, k.home))
  }

  ghost predicate HomeView(x: Session, cs: seq<Chain>, k: Key)
    requires k.home < |cs|
  {
    || (Dark(x.state, k.home) && k.hi != 0 && InDark(x, k.home))
    || (Dawning(x.state, k.home) && InLight(x, [Managed(k.home)], k))
    || InLight(x, cs[k.home], k)
  }

  ghost predicate EInv(x: Session, cs: seq<Chain>, keys: set<nat>) {
    && MInv(x.state, cs) && Within(x.state, keys) && FewPerHome(keys, x.state.table.Count())
    && Answer(x.state, x.key) in x.seen && HomeView(x, cs, Split(x.key, x.state.table.Count()))
  }

  lemma DarkRead(x: Session, k: Key)
    requires x.state.table.Count() > 0 && k == Split(x.key, x.state.table.Count())
    requires Dark(x.state, k.home) && k.hi != 0 && InDark(x, k.home) && NOT_FOUND in x.seen
    ensures InDark(Read(x), k.home)
  {
  }

  lemma LightRead(x: Session, c: Chain, k: Key)
    requires x.state.table.Count() > 0 && k == Split(x.key, x.state.table.Count()) && InLight(x, c, k)
    requires Published(x.state.table, c, k.home) && Answer(x.state, x.key) in x.seen
    requires NotAmong(x.state.table, c, |c|, k.hi) ==> Answer(x.state, x.key) == NOT_FOUND
    requires forall i | 0 <= i < |c| && Slot(x.state.table, c[i]).hi == k.hi ::
               Slot(x.state.table, c[i]).payload == Answer(x.state, x.key)
    ensures InLight(Read(x), c, k)
  {
    if Knows(x, c, k.hi) {
      KnowsAfterRead(x, c, k);
    }
  }

  lemma ReadInDark(x: Session, cs: seq<Chain>, k: Key)
    requires MInv(x.state, cs) && k == Split(x.key, x.state.table.Count()) && Answer(x.state, x.key) in x.seen
    requires Dark(x.state, k.home) && HomeView(x, cs, k)
    ensures HomeView(Read(x), cs, k)
  {
    DarkAnswer(x.state, cs, x.key);
    DarkRead(x, k);
  }

  lemma ReadAtDawn(x: Session, cs: seq<Chain>, k: Key)
    requires MInv(x.state, cs) && k == Split(x.key, x.state.table.Count()) && Answer(x.state, x.key) in x.seen
    requires Dawning(x.state, k.home) && HomeView(x, cs, k)
    ensures HomeView(Read(x), cs, k)
  {
    assert HomeOk(x.state.table, cs[k.home], k.home, x.state.pcs[k.home]);
    DawningAnswer(x.state, cs, x.key);
    LightRead(x, [Managed(k.home)], k);
  }

  lemma ReadInLight(x: Session, cs: seq<Chain>, k: Key)
    requires MInv(x.state, cs) && k == Split(x.key, x.state.table.Count()) && Answer(x.state, x.key) in x.seen
    requires InLight(x, cs[k.home], k)
    ensures InLight(Read(x), cs[k.home], k)
  {
    var t, c := x.state.table, cs[k.home];
    assert HomeOk(t, c, k.home, x.state.pcs[k.home]);
    AbsenceIsAnswer(x, cs);
    forall i | 0 <= i < |c| && Slot(t, c[i]).hi == k.hi ensures Slot(t, c[i]).payload == Answer(x.state, x.key) {
      PayloadIsAnswer(x, cs, i);
    }
    LightRead(x, c, k);
  }

  lemma ReadOnlyReads(x: Session)
    requires x.state.table.Count() > 0
    ensures Read(x) == x.(reader := Read(x).reader)
  {
  }

  lemma ReadKeepsView(x: Session, cs: seq<Chain>, keys: set<nat>)
    requires EInv(x, cs, keys)
    ensures EInv(Read(x), cs, keys)
  {
    var k := Split(x.key, x.state.table.Count());
    ReadOnlyReads(x);
    if Dark(x.state, k.home) {
      ReadInDark(x, cs, k);
    } else if Dawning(x.state, k.home) {
      ReadAtDawn(x, cs, k);
    } else {
      ReadInLight(x, cs, k);
    }
  }

  lemma KnowsFollows(x: Session, y: Session, c: Chain, d: Chain, k: Key)
    requires InLight(x, c, k) && Grows(x.state.table, y.state.table, c, d) && x.seen <= y.seen && x.reader == y.reader
    ensures InLight(y, d, k)
  {
    if Knows(x, c, k.hi) {
      KnowsGrows(x, y, c, d, k.hi);
    }
  }

  lemma DarkFollows(x: Session, y: Session, k: Key)
    requires InDark(x, k.home) && x.seen <= y.seen && x.reader == y.reader
    ensures InDark(y, k.home) && InLight(y, [Managed(k.home)], k)
  {
  }

  lemma DarkAfterWrite(x: Session, y: Session, cs: seq<Chain>, ds: seq<Chain>, a: Action, k: Key)
    requires MInv(x.state, cs) && k.home < |cs| == |ds| && y.state == Next(x.state, a)
    requires Dark(x.state, k.home) && k.hi != 0 && InDark(x, k.home) && x.seen <= y.seen && x.reader == y.reader
    ensures HomeView(y, ds, k)
  {
    DarkFollows(x, y, k);
    DarkNext(x.state, cs, a, k.home);
  }

  lemma DawnAfterWrite(x: Session, y: Session, cs: seq<Chain>, ds: seq<Chain>, a: Action, k: Key)
    requires MInv(x.state, cs) && MInv(y.state, ds) && k.home < |cs| == |ds| && y.state == Next(x.state, a)
    requires Dawning(x.state, k.home) && InLight(x, [Managed(k.home)], k) && x.seen <= y.seen && x.reader == y.reader
    ensures HomeView(y, ds, k)
  {
    var h := k.home;
    assert HomeOk(y.state.table, ds[h], h, y.state.pcs[h]);
    DawningNext(x.state, cs, a, h);
    assert Dawning(y.state, h) || ds[h] == [Managed(h)];
    KnowsFollows(x, y, [Managed(h)], [Managed(h)], k);
  }

  /** A step turns the dark into dawn at most, and the dawn into a chain of one bucket. */
  lemma ViewAfterWrite(x: Session, y: Session, cs: seq<Chain>, ds: seq<Chain>, a: Action, k: Key)
    requires MInv(x.state, cs) && MInv(y.state, ds) && k.home < |cs| && y.state == Next(x.state, a)
             && HomeView(x, cs, k)
    requires AllGrow(x.state.table, y.state.table, cs, ds) && x.seen <= y.seen && x.reader == y.reader
    ensures HomeView(y, ds, k)
  {
    if Dark(x.state, k.home) && k.hi != 0 && InDark(x, k.home) {
      DarkAfterWrite(x, y, cs, ds, a, k);
    } else if Dawning(x.state, k.home) && InLight(x, [Managed(k.home)], k) {
      DawnAfterWrite(x, y, cs, ds, a, k);
    } else {
      assert Grows(x.state.table, y.state.table, cs[k.home], ds[k.home]);
      KnowsFollows(x, y, cs[k.home], ds[k.home], k);
    }
  }

  lemma EventKeepsView(x: Session, cs: seq<Chain>, e: Event, keys: set<nat>) returns (ds: seq<Chain>)
    requires EInv(x, cs, keys) && (e.Write? && e.action.Begin? ==> e.action.put.key in keys)
    ensures EInv(Happens(x, e), ds, keys)
  {
    match e
    case ReadOnce =>
      ReadKeepsView(x, cs, keys);
      ds := cs;
    case Write(a) =>
      ds := NextInv(x.state, cs, a, keys);
      ViewAfterWrite(x, Happens(x, e), cs, ds, a, Split(x.key, x.state.table.Count()));
  }

  lemma {:induction false} PlayKeepsView(x: Session, cs: seq<Chain>, events: seq<Event>, keys: set<nat>)
    requires EInv(x, cs, keys) && WritesWithin(events, keys)
    ensures Play(x, events).reader.Found? ==> Play(x, events).reader.result in Play(x, events).seen
    decreases |events|
  {
    if events != [] {
      assert events[0] in events && forall e | e in events[1..] :: e in events;
      var ds := EventKeepsView(x, cs, events[0], keys);
      PlayKeepsView(Happens(x, events[0]), ds, events[1..], keys);
    }
  }

  // ----- Every home is dark, dawning or has a chain -----

  ghost predicate AllShown(s: State, cs: seq<Chain>) {
    forall h | 0 <= h < |cs| :: cs[h] != [] || Dark(s, h) || Dawning(s, h)
  }

  lemma ShownNext(s: State, cs: seq<Chain>, a: Action, ds: seq<Chain>)
    requires MInv(s, cs) && AllShown(s, cs) && MInv(Next(s, a), ds) && AllGrow(s.table, Next(s, a).table, cs, ds)
    ensures AllShown(Next(s, a), ds)
  {
    forall h | 0 <= h < |ds| ensures ds[h] != [] || Dark(Next(s, a), h) || Dawning(Next(s, a), h) {
      assert HomeOk(Next(s, a).table, ds[h], h, Next(s, a).pcs[h]);
      assert Grows(s.table, Next(s, a).table, cs[h], ds[h]);
      if Dark(s, h) {
        DarkNext(s, cs, a, h);
      } else if Dawning(s, h) {
        DawningNext(s, cs, a, h);
      }
    }
  }

  lemma {:induction false} RunShown(s: State, cs: seq<Chain>, run: seq<Action>, keys: set<nat>) returns (ds: seq<Chain>)
    requires MInv(s, cs) && Within(s, keys) && FewPerHome(keys, s.table.Count()) && Inserts(run, keys)
             && AllShown(s, cs)
    ensures MInv(RunFrom(s, run), ds) && Within(RunFrom(s, run), keys) && AllShown(RunFrom(s, run), ds)
            && RunFrom(s, run).table.Count() == s.table.Count()
    decreases |run|
  {
    ds := cs;
    if run != [] {
      assert run[0] in run && forall a | a in run[1..] :: a in run;
      var es := NextInv(s, cs, run[0], keys);
      ShownNext(s, cs, run[0], es);
      ds := RunShown(Next(s, run[0]), es, run[1..], keys);
    }
  }

  lemma Reached(count: nat, before: seq<Action>, keys: set<nat>) returns (cs: seq<Chain>)
    requires count > 0 && FewPerHome(keys, count) && Inserts(before, keys)
    ensures var s := RunFrom(Init(count), before);
            MInv(s, cs) && Within(s, keys) && AllShown(s, cs) && s.table.Count() == count
  {
    InitInv(count);
    cs := RunShown(Init(count), seq(count, _ => []), before, keys);
  }

  // ----- Which lookups are right -----

  /** Some key of home h is in the map. */
  ghost predicate Shows(s: State, h: nat) {
    s.table.Count() > 0 && exists other :: Answer(s, other) != NOT_FOUND && Split(other, s.table.Count()).home == h
  }

  /** What the lookup returns, if it does, was the map's answer at some moment since its start. */
  ghost predicate Right(s: State, key: nat, careful: bool, events: seq<Event>) {
    var y := Play(Open(s, key, careful), events);
    y.reader.Found? ==> y.reader.result in y.seen
  }

  ghost predicate AlwaysRight(s: State, key: nat, careful: bool, keys: set<nat>) {
    forall events | WritesWithin(events, keys) :: Right(s, key, careful, events)
  }

  lemma HighBits(key: nat, count: nat)
    requires count > 0
    ensures Split(key, count).home < count && if key < count then Split(key, count) == Key(0, key)
            else Split(key, count).hi != 0
  {
    if key < count {
      QuotientIsUnique(0, key, count);
    }
  }

  /** A chain holds a stored key. */
  lemma SomeKey(s: State, cs: seq<Chain>, h: nat) returns (other: nat)
    requires MInv(s, cs) && h < |cs| && cs[h] != []
    ensures Answer(s, other) != NOT_FOUND && Split(other, s.table.Count()).home == h
  {
    assert HomeOk(s.table, cs[h], h, s.pcs[h]);
    assert |KeysAt(s.contents, |cs|, h)| == |cs[h]|;
    other :| other in KeysAt(s.contents, |cs|, h);
  }

  lemma ShownHome(s: State, cs: seq<Chain>, h: nat)
    requires MInv(s, cs) && AllShown(s, cs) && h < |cs|
    ensures Shows(s, h) <==> !Dark(s, h)
  {
    assert HomeOk(s.table, cs[h], h, s.pcs[h]);
    if Dark(s, h) {
      forall other | Split(other, s.table.Count()).home == h ensures Answer(s, other) == NOT_FOUND {
        DarkAnswer(s, cs, other);
      }
    } else if Dawning(s, h) {
      DawningAnswer(s, cs, s.pcs[h].put.key);
    } else {
      var other := SomeKey(s, cs, h);
    }
  }

  lemma RightFrom(s: State, cs: seq<Chain>, key: nat, careful: bool, keys: set<nat>)
    requires MInv(s, cs) && Within(s, keys) && FewPerHome(keys, s.table.Count()) && AllShown(s, cs)
    requires var k := Split(key, s.table.Count()); k.hi != 0 || !Dark(s, k.home)
    ensures AlwaysRight(s, key, careful, keys)
  {
    assert EInv(Open(s, key, careful), cs, keys);
    forall events | WritesWithin(events, keys) ensures Right(s, key, careful, events) {
      PlayKeepsView(Open(s, key, careful), cs, events, keys);
    }
  }

  lemma ReadsMore(x: Session, y: Session, n: nat)
    requires x.state.table.Count() > 0 && y == Read(x)
    ensures Play(x, Reads(n + 1)) == Play(y, Reads(n))
  {
    assert Reads(n + 1)[0] == ReadOnce && Reads(n + 1)[1..] == Reads(n);
  }

  /** A home with a size and no key leads a lookup of a key below the number of buckets to its payload. */
  lemma MisledToPayload(x: Session, h: nat, n: nat)
    requires Dark(x.state, h) && x.state.table.managed[h].size == 1 && x.reader == ReadSize
    requires Split(x.key, x.state.table.Count()) == Key(0, h)
    ensures Play(x, Reads(n + 2)) == Play(x.(reader := ReadPayload(0, Managed(h))), Reads(n))
  {
    var y := x.(reader := ReadKey(0, Managed(h), 1));
    ReadsMore(x, y, n + 1);
    ReadsMore(y, x.(reader := ReadPayload(0, Managed(h))), n);
  }

  lemma MisledByPayload(x: Session, h: nat, p: nat, n: nat)
    requires Dark(x.state, h) && x.state.table.managed[h].size == 1 && x.state.table.managed[h].payload == p
    requires x.reader == ReadPayload(0, Managed(h))
    ensures Play(x, Reads(n + 3)) == Play(x.(reader := Found(p)), Reads(n))
  {
    var y := x.(reader := if x.careful then RecheckSize(0, Managed(h), p) else Found(p));
    var z := x.(reader := if x.careful then RecheckPayload(0, Managed(h), p) else Found(p));
    ReadsMore(x, y, n + 2);
    ReadsMore(y, z, n + 1);
    ReadsMore(z, x.(reader := Found(p)), n);
  }

  lemma Misled(x: Session, h: nat)
    requires Dark(x.state, h) && x.state.table.managed[h].size == 1 && x.reader == ReadSize
    requires Split(x.key, x.state.table.Count()) == Key(0, h)
    ensures Play(x, Reads(5)) == x.(reader := Found(x.state.table.managed[h].payload))
  {
    MisledToPayload(x, h, 3);
    MisledByPayload(x.(reader := ReadPayload(0, Managed(h))), h, x.state.table.managed[h].payload, 0);
    assert Reads(0) == [];
  }

  /** The first insertion has got as far as setting the size. */
  ghost function Claimed(s: State, h: nat, other: nat): State {
    Next(Next(s, Begin(Put(other, 0))), Work(h))
  }

  lemma ClaimedIsDark(s: State, h: nat, other: nat)
    requires |s.pcs| == s.table.Count() && Dark(s, h) && s.table.managed[h].size == 0
    requires Split(other, s.table.Count()).home == h
    ensures var s' := Claimed(s, h, other);
            s'.table.Count() == s.table.Count() && Dark(s', h) && s'.table.managed[h].size == 1
  {
  }

  lemma ClaimedAnswers(s: State, cs: seq<Chain>, key: nat, h: nat, other: nat, keys: set<nat>)
    requires MInv(s, cs) && Within(s, keys) && FewPerHome(keys, s.table.Count()) && other in keys
    requires Dark(s, h) && s.table.managed[h].size == 0
    requires Split(key, s.table.Count()).home == Split(other, s.table.Count()).home == h
    ensures Answer(Next(s, Begin(Put(other, 0))), key) == Answer(Claimed(s, h, other), key) == NOT_FOUND
  {
    var s1 := Next(s, Begin(Put(other, 0)));
    var ds := NextInv(s, cs, Begin(Put(other, 0)), keys);
    var es := NextInv(s1, ds, Work(h), keys);
    DarkBegin(s, Put(other, 0), h);
    DarkAnswer(s1, ds, key);
    ClaimedIsDark(s, h, other);
    DarkAnswer(Claimed(s, h, other), es, key);
  }

  lemma PlayTwo(x: Session, a: Action, b: Action, rest: seq<Event>)
    ensures Play(x, [Write(a), Write(b)] + rest) == Play(Happens(Happens(x, Write(a)), Write(b)), rest)
  {
    var events := [Write(a), Write(b)] + rest;
    assert events[1..] == [Write(b)] + rest && events[1..][1..] == rest;
  }

  lemma WrongWhenClaimed(s: State, key: nat, careful: bool, h: nat)
    requires Dark(s, h) && s.table.managed[h].size == 1 && Split(key, s.table.Count()) == Key(0, h)
    requires Answer(s, key) == NOT_FOUND
    ensures !Right(s, key, careful, Reads(5))
  {
    Misled(Open(s, key, careful), h);
  }

  lemma WrongAfterClaim(s: State, cs: seq<Chain>, key: nat, careful: bool, h: nat, other: nat, keys: set<nat>)
    requires MInv(s, cs) && Within(s, keys) && FewPerHome(keys, s.table.Count()) && other in keys
    requires Dark(s, h) && s.table.managed[h].size == 0 && Answer(s, key) == NOT_FOUND
    requires Split(key, s.table.Count()) == Key(0, h) && Split(other, s.table.Count()).home == h
    ensures !Right(s, key, careful, [Write(Begin(Put(other, 0))), Write(Work(h))] + Reads(5))
  {
    var x, s2 := Open(s, key, careful), Claimed(s, h, other);
    ClaimedIsDark(s, h, other);
    ClaimedAnswers(s, cs, key, h, other, keys);
    PlayTwo(x, Begin(Put(other, 0)), Work(h), Reads(5));
    assert x.seen + {NOT_FOUND} + {NOT_FOUND} == x.seen == {NOT_FOUND};
    Misled(x.(state := s2), h);
  }

  /** A lookup that starts too early can be wrong. */
  lemma WrongFrom(s: State, cs: seq<Chain>, key: nat, careful: bool, other: nat, keys: set<nat>)
    requires MInv(s, cs) && Within(s, keys) && FewPerHome(keys, s.table.Count()) && other in keys
    requires var k := Split(key, s.table.Count());
             k.hi == 0 && Dark(s, k.home) && Split(other, s.table.Count()).home == k.home
    ensures !AlwaysRight(s, key, careful, keys)
  {
    var h := Split(key, s.table.Count()).home;
    DarkAnswer(s, cs, key);
    if s.table.managed[h].size == 0 {
      WrongAfterClaim(s, cs, key, careful, h, other, keys);
      assert WritesWithin([Write(Begin(Put(other, 0))), Write(Work(h))] + Reads(5), keys);
    } else {
      WrongWhenClaimed(s, key, careful, h);
      assert WritesWithin(Reads(5), keys);
    }
  }

  /**
   Let some key of the lookup's home be among those that may be inserted. The lookup is right in all interleavings
   if and only if its key is not below the number of buckets, or its home shows a key when the lookup starts.
   */
  lemma LookupIsExact(count: nat, before: seq<Action>, key: nat, careful: bool, keys: set<nat>, other: nat)
    requires count > 0 && FewPerHome(keys, count) && Inserts(before, keys)
    requires other in keys && Split(other, count).home == Split(key, count).home
    ensures var s := RunFrom(Init(count), before);
            AlwaysRight(s, key, careful, keys) <==> key >= count || Shows(s, Split(key, count).home)
  {
    var s := RunFrom(Init(count), before);
    var cs := Reached(count, before, keys);
    HighBits(key, count);
    ShownHome(s, cs, Split(key, count).home);
    if key >= count || Shows(s, Split(key, count).home) {
      RightFrom(s, cs, key, careful, keys);
    } else {
      WrongFrom(s, cs, key, careful, other, keys);
    }
  }
}
