/** A lookup that runs while buckets are being appended gives the map's answer at some moment in between. */
module QedReader {
  import opened QedTable
  import opened QedRefinement
  import opened QedRuns
  import opened QedConcurrent

  /** The next read of a lookup. */
  datatype Reader =
    | ReadSize
    | ReadKey(i: nat, l: Loc, n: nat)
    | ReadFlag(i: nat, l: Loc, n: nat)
    | ReadNext(i: nat, l: Loc, n: nat, internal: bool)
    | ReadPayload(i: nat, l: Loc)
    | RecheckSize(i: nat, l: Loc, payload: nat)
    | RecheckPayload(i: nat, l: Loc, payload: nat)
    | Found(result: nat)

  /**
   A lookup of a key among writers. `seen` collects what the map would have answered at each moment
   since the lookup began.
   */
  datatype Session = Session(state: State, key: nat, careful: bool, reader: Reader, seen: set<nat>)

  /** The first key of its home, written but not finished. */
  predicate Appearing(s: State, key: nat) {
    s.table.Count() > 0 && var h := Split(key, s.table.Count()).home;
    h < |s.pcs| && s.pcs[h].First? && s.pcs[h].first == SetSize && s.pcs[h].put.key == key
  }

  /** What the map answers. The first key of a home counts from the moment it is written. */
  function Answer(s: State, key: nat): nat {
    if Appearing(s, key) then Stored(s.pcs[Split(key, s.table.Count()).home].put.payload)
    else if key in s.contents then s.contents[key]
    else NOT_FOUND
  }

  function Open(s: State, key: nat, careful: bool): Session {
    Session(s, key, careful, ReadSize, {Answer(s, key)})
  }

  /** One atomic read. */
  function Read(x: Session): Session
    requires x.state.table.Count() > 0
  {
    var t, k := x.state.table, Split(x.key, x.state.table.Count());
    match x.reader
    case ReadSize =>
      var n := Slot(t, Managed(k.home)).size;
      x.(reader := if n == 0 then Found(NOT_FOUND) else ReadKey(0, Managed(k.home), n))
    case ReadKey(i, l, n) => x.(reader := if Slot(t, l).hi == k.hi then ReadPayload(i, l) else ReadFlag(i, l, n))
    case ReadFlag(i, l, n) => x.(reader := ReadNext(i, l, n, Slot(t, l).internal))
    case ReadNext(i, l, n, internal) =>
      var next := if internal then Managed(Slot(t, l).next) else Free(Slot(t, l).next);
      x.(reader := if i + 1 < n then ReadKey(i + 1, next, n) else Found(NOT_FOUND))
    case ReadPayload(i, l) =>
      x.(reader := if x.careful then RecheckSize(i, l, Slot(t, l).payload) else Found(Slot(t, l).payload))
    case RecheckSize(i, l, p) =>
      x.(reader := if (Slot(t, l).size == 0) == (i == 0) then ReadSize else RecheckPayload(i, l, p))
    case RecheckPayload(i, l, p) => x.(reader := if Slot(t, l).payload == p then Found(p) else ReadSize)
    case Found(_) => x
  }

  datatype Event = Write(action: Action) | ReadOnce

  function Happens(x: Session, e: Event): Session {
    match e
    case Write(a) => x.(state := Next(x.state, a), seen := x.seen + {Answer(Next(x.state, a), x.key)})
    case ReadOnce => if x.state.table.Count() > 0 then Read(x) else x
  }

  function Play(x: Session, events: seq<Event>): Session
    decreases |events|
  {
    if events == [] then x else Play(Happens(x, events[0]), events[1..])
  }

  // ----- What the reader knows -----

  /** None of the first m buckets has the key. */
  ghost predicate NotAmong(t: Table, c: Chain, m: nat, hi: nat) {
    m <= |c| && forall j | 0 <= j < m :: Slot(t, c[j]).hi != hi
  }

  ghost predicate Knows(x: Session, c: Chain, hi: nat) {
    var t := x.state.table;
    match x.reader
    case ReadSize => true
    case ReadKey(i, l, n) =>
      i < n <= |c| && l == c[i] && NotAmong(t, c, i, hi) && (NotAmong(t, c, n, hi) ==> NOT_FOUND in x.seen)
    case ReadFlag(i, l, n) =>
      i < n <= |c| && l == c[i] && NotAmong(t, c, i + 1, hi) && (NotAmong(t, c, n, hi) ==> NOT_FOUND in x.seen)
    case ReadNext(i, l, n, internal) =>
      && i < n <= |c| && l == c[i] && NotAmong(t, c, i + 1, hi) && (NotAmong(t, c, n, hi) ==> NOT_FOUND in x.seen)
      && (i + 1 < n ==> !internal)
    case ReadPayload(i, l) => i < |c| && l == c[i] && Slot(t, l).hi == hi
    case RecheckSize(i, l, p) => i < |c| && l == c[i] && p in x.seen
    case RecheckPayload(i, l, p) => i < |c| && l == c[i] && p in x.seen
    case Found(r) => r in x.seen
  }

  ghost predicate SInv(x: Session, cs: seq<Chain>, keys: set<nat>) {
    && MInv(x.state, cs) && Within(x.state, keys) && FewPerHome(keys, x.state.table.Count())
    && Answer(x.state, x.key) in x.seen
    && var k := Split(x.key, x.state.table.Count());
       cs[k.home] != [] && Knows(x, cs[k.home], k.hi)
  }

  lemma KnowsGrows(x: Session, y: Session, c: Chain, d: Chain, hi: nat)
    requires Knows(x, c, hi) && Grows(x.state.table, y.state.table, c, d) && x.seen <= y.seen && x.reader == y.reader
    ensures Knows(y, d, hi)
  {
  }

  /** The payload under a matching key is the current answer. */
  lemma PayloadIsAnswer(x: Session, cs: seq<Chain>, i: nat)
    requires MInv(x.state, cs)
    requires var k := Split(x.key, x.state.table.Count());
             i < |cs[k.home]| && Slot(x.state.table, cs[k.home][i]).hi == k.hi
    ensures Slot(x.state.table, cs[Split(x.key, x.state.table.Count()).home][i]).payload == Answer(x.state, x.key)
  {
    var t, k := x.state.table, Split(x.key, x.state.table.Count());
    assert HomeOk(t, cs[k.home], k.home, x.state.pcs[k.home]) && StockedAt(t, cs, x.state.contents, x.key);
    SearchHit(t, cs[k.home], k.hi, i);
  }

  /** If the key is on no bucket of the chain, the current answer is that there is none. */
  lemma AbsenceIsAnswer(x: Session, cs: seq<Chain>)
    requires MInv(x.state, cs) && cs[Split(x.key, x.state.table.Count()).home] != []
    ensures var k := Split(x.key, x.state.table.Count());
            NotAmong(x.state.table, cs[k.home], |cs[k.home]|, k.hi) ==> Answer(x.state, x.key) == NOT_FOUND
  {
    var t, k := x.state.table, Split(x.key, x.state.table.Count());
    assert HomeOk(t, cs[k.home], k.home, x.state.pcs[k.home]) && StockedAt(t, cs, x.state.contents, x.key);
    if NotAmong(t, cs[k.home], |cs[k.home]|, k.hi) {
      SearchMiss(t, cs[k.home], k.hi);
    }
  }

  lemma ReadKeepsInv(x: Session, cs: seq<Chain>, keys: set<nat>)
    requires SInv(x, cs, keys)
    ensures SInv(Read(x), cs, keys)
  {
    var t, k := x.state.table, Split(x.key, x.state.table.Count());
    var c := cs[k.home];
    assert HomeOk(t, c, k.home, x.state.pcs[k.home]);
    assert Published(t, c, k.home);
    AbsenceIsAnswer(x, cs);
    if x.reader.ReadPayload? {
      PayloadIsAnswer(x, cs, x.reader.i);
    }
    KnowsAfterRead(x, c, k);
  }

  lemma KnowsAfterRead(x: Session, c: Chain, k: Key)
    requires x.state.table.Count() > 0 && k == Split(x.key, x.state.table.Count()) && c != []
    requires Published(x.state.table, c, k.home) && Knows(x, c, k.hi) && Answer(x.state, x.key) in x.seen
    requires NotAmong(x.state.table, c, |c|, k.hi) ==> Answer(x.state, x.key) == NOT_FOUND
    requires x.reader.ReadPayload? ==> Slot(x.state.table, x.reader.l).payload == Answer(x.state, x.key)
    ensures Knows(Read(x), c, k.hi)
  {
    var t := x.state.table;
    if x.reader.ReadFlag? || x.reader.ReadNext? {
      var i := x.reader.i;
      if i + 1 < x.reader.n {
        assert Following(Slot(t, c[i])) == c[i + 1] && c[i + 1].Free?;
      }
    }
  }

  lemma EventKeepsInv(x: Session, cs: seq<Chain>, e: Event, keys: set<nat>) returns (ds: seq<Chain>)
    requires SInv(x, cs, keys) && (e.Write? && e.action.Begin? ==> e.action.put.key in keys)
    ensures SInv(Happens(x, e), ds, keys)
  {
    match e
    case ReadOnce =>
      ReadKeepsInv(x, cs, keys);
      ds := cs;
    case Write(a) =>
      ds := NextInv(x.state, cs, a, keys);
      var k := Split(x.key, x.state.table.Count());
      assert Grows(x.state.table, Next(x.state, a).table, cs[k.home], ds[k.home]);
      KnowsGrows(x, Happens(x, e), cs[k.home], ds[k.home], k.hi);
  }

  ghost predicate WritesWithin(events: seq<Event>, keys: set<nat>) {
    forall e | e in events && e.Write? && e.action.Begin? :: e.action.put.key in keys
  }

  lemma {:induction false} PlayKeepsInv(x: Session, cs: seq<Chain>, events: seq<Event>, keys: set<nat>)
      returns (ds: seq<Chain>)
    requires SInv(x, cs, keys) && WritesWithin(events, keys)
    ensures SInv(Play(x, events), ds, keys)
    decreases |events|
  {
    ds := cs;
    if events != [] {
      assert events[0] in events && forall e | e in events[1..] :: e in events;
      var es := EventKeepsInv(x, cs, events[0], keys);
      ds := PlayKeepsInv(Happens(x, events[0]), es, events[1..], keys);
    }
  }

  lemma OpenInv(s: State, cs: seq<Chain>, key: nat, careful: bool, other: nat, keys: set<nat>)
    requires MInv(s, cs) && Within(s, keys) && FewPerHome(keys, s.table.Count())
    requires other in s.contents && Split(other, s.table.Count()).home == Split(key, s.table.Count()).home
    ensures SInv(Open(s, key, careful), cs, keys)
  {
    StoredIffPresent(s, cs, Put(other, 0));
  }

  /**
   Let any writers have run, and let a lookup start on a home bucket that holds a key. Whatever the
   writers do meanwhile, if the lookup returns, it returns what the map answered at some moment
   between its start and its end. This holds with and without the rechecks of a volatile lookup.
   */
  lemma LookupIsLinearizable(count: nat, before: seq<Action>, key: nat, careful: bool, events: seq<Event>,
                             keys: set<nat>)
    requires count > 0 && FewPerHome(keys, count) && Inserts(before, keys) && WritesWithin(events, keys)
    requires var s := RunFrom(Init(count), before);
             exists other | other in s.contents :: Split(other, count).home == Split(key, count).home
    ensures var y := Play(Open(RunFrom(Init(count), before), key, careful), events);
            y.reader.Found? ==> y.reader.result in y.seen
  {
    var s := RunFrom(Init(count), before);
    var cs := Prepared(count, before, keys);
    var other :| other in s.contents && Split(other, count).home == Split(key, count).home;
    OpenInv(s, cs, key, careful, other, keys);
    FoundWasSeen(Open(s, key, careful), cs, events, keys);
  }

  lemma Prepared(count: nat, before: seq<Action>, keys: set<nat>) returns (cs: seq<Chain>)
    requires count > 0 && FewPerHome(keys, count) && Inserts(before, keys)
    ensures var s := RunFrom(Init(count), before); MInv(s, cs) && Within(s, keys) && s.table.Count() == count
  {
    InitInv(count);
    cs := QedConcurrent.RunKeepsInv(Init(count), seq(count, _ => []), before, keys);
  }

  lemma FoundWasSeen(x: Session, cs: seq<Chain>, events: seq<Event>, keys: set<nat>)
    requires SInv(x, cs, keys) && WritesWithin(events, keys)
    ensures Play(x, events).reader.Found? ==> Play(x, events).reader.result in Play(x, events).seen
  {
    var ds := PlayKeepsInv(x, cs, events, keys);
  }

  // ----- Lookups return -----

  /** How many reads a lookup that is left alone still needs. */
  ghost function ReadsLeft(x: Session, c: Chain): int {
    match x.reader
    case ReadSize => 3 * |c| + 4
    case ReadKey(i, _, n) => 3 * (n - i) + 3
    case ReadFlag(i, _, n) => 3 * (n - i) + 2
    case ReadNext(i, _, n, _) => 3 * (n - i) + 1
    case ReadPayload(_, _) => 3
    case RecheckSize(_, l, p) => if Slot(x.state.table, l).payload == p then 2 else 3 * |c| + 6
    case RecheckPayload(_, l, p) => if Slot(x.state.table, l).payload == p then 1 else 3 * |c| + 5
    case Found(_) => 0
  }

  lemma ReadAdvances(x: Session, c: Chain, k: Key)
    requires x.state.table.Count() > 0 && k == Split(x.key, x.state.table.Count()) && !x.reader.Found?
    requires c != [] && Published(x.state.table, c, k.home) && Knows(x, c, k.hi)
    ensures 0 <= ReadsLeft(Read(x), c) < ReadsLeft(x, c)
  {
  }

  lemma OneRead(x: Session, cs: seq<Chain>, keys: set<nat>)
    requires SInv(x, cs, keys)
    ensures SInv(Read(x), cs, keys) && Read(x) == x.(reader := Read(x).reader)
    ensures var c := cs[Split(x.key, x.state.table.Count()).home];
            x.reader.Found? || 0 <= ReadsLeft(Read(x), c) < ReadsLeft(x, c)
  {
    var k := Split(x.key, x.state.table.Count());
    assert HomeOk(x.state.table, cs[k.home], k.home, x.state.pcs[k.home]);
    assert Published(x.state.table, cs[k.home], k.home);
    ReadKeepsInv(x, cs, keys);
    if !x.reader.Found? {
      ReadAdvances(x, cs[k.home], k);
    }
  }

  ghost function Reads(n: nat): seq<Event> {
    seq(n, _ => ReadOnce)
  }

  lemma {:induction false} ReadsReturn(x: Session, cs: seq<Chain>, keys: set<nat>, n: nat)
    requires SInv(x, cs, keys) && n >= ReadsLeft(x, cs[Split(x.key, x.state.table.Count()).home])
    ensures var y := Play(x, Reads(n)); y.reader.Found? && y.reader.result in x.seen
    decreases n
  {
    OneRead(x, cs, keys);
    if n == 0 {
      assert Reads(0) == [];
    } else {
      assert Reads(n)[0] == ReadOnce && Reads(n)[1..] == Reads(n - 1);
      ReadsReturn(Read(x), cs, keys, n - 1);
    }
  }

  /** Whatever has happened to a lookup so far, left alone it returns within 388 reads. */
  lemma LookupReturns(x: Session, cs: seq<Chain>, keys: set<nat>, events: seq<Event>, n: nat)
    requires SInv(x, cs, keys) && WritesWithin(events, keys) && n >= 388
    ensures Play(Play(x, events), Reads(n)).reader.Found?
  {
    var ds := PlayKeepsInv(x, cs, events, keys);
    var y := Play(x, events);
    var k := Split(y.key, y.state.table.Count());
    assert HomeOk(y.state.table, ds[k.home], k.home, y.state.pcs[k.home]);
    assert Published(y.state.table, ds[k.home], k.home);
    ReadsReturn(y, ds, keys, n);
  }

  /** A lookup that meets no write at all returns what the map answers. */
  lemma QuietLookup(count: nat, before: seq<Action>, key: nat, careful: bool, keys: set<nat>, n: nat)
    requires count > 0 && FewPerHome(keys, count) && Inserts(before, keys) && n >= 388
    requires var s := RunFrom(Init(count), before);
             exists other | other in s.contents :: Split(other, count).home == Split(key, count).home
    ensures var s := RunFrom(Init(count), before);
            Play(Open(s, key, careful), Reads(n)).reader
              == Found(if key in s.contents then s.contents[key] else NOT_FOUND)
  {
    var s := RunFrom(Init(count), before);
    var cs := Prepared(count, before, keys);
    var other :| other in s.contents && Split(other, count).home == Split(key, count).home;
    OpenInv(s, cs, key, careful, other, keys);
    var k := Split(key, count);
    assert HomeOk(s.table, cs[k.home], k.home, s.pcs[k.home]);
    assert Published(s.table, cs[k.home], k.home);
    ReadsReturn(Open(s, key, careful), cs, keys, n);
  }

  /**
   The rechecks of a careful lookup: it returns the payload exactly if the bucket is still used as it was, a first
   one with a size and any other without, and still has that payload; otherwise it starts over.
   */
  lemma RechecksAreExact(x: Session)
    requires x.state.table.Count() > 0 && x.reader.RecheckSize?
    ensures var b, i, p := Slot(x.state.table, x.reader.l), x.reader.i, x.reader.payload;
            if (i == 0 && b.size == 0) || (i != 0 && b.size != 0) || b.payload != p
            then Read(x).reader == ReadSize || Read(Read(x)).reader == ReadSize
            else Read(Read(x)).reader == Found(p)
  {
  }
}
