/**
 Insertions and lookups that overlap. An insertion is cut into its individual writes; insertions into
 different home buckets interleave freely, and every home bucket has one writer at a time.
 */
module QedConcurrent {
  import opened QedTable
  import opened QedRefinement
  import opened QedRuns

  datatype FirstStage = ClaimSize | SetRoot | SetPayload | SetKey | SetSize

  datatype Stage = FillPayload | FillKey | FillFlag | FillRoot | LinkLast | ClearFlag | BumpSize

  /** The next write of the insertion at work in a home bucket. */
  datatype Pc =
    | Idle
    | First(put: Put, first: FirstStage)
    | Probed(put: Put, probe: Probe)
    | Appending(put: Put, stage: Stage, last: Loc, slot: nat)

  /** The shared table, the insertion at work in each home, what is stored, and what was begun so far. */
  datatype State = State(table: Table, pcs: seq<Pc>, contents: map<nat, nat>, begun: seq<Put>)

  datatype Action = Begin(put: Put) | Work(home: nat)

  function Init(count: nat): State {
    State(Reserved(count), seq(count, _ => Idle), map[], [])
  }

  function Next(s: State, a: Action): State {
    match a
    case Begin(p) => if s.table.Count() == 0 then s else BeginAt(s, p, Split(p.key, s.table.Count()))
    case Work(h) => if h < |s.pcs| && h < s.table.Count() then WorkAt(s, h) else s
  }

  /** Looks at the home bucket and along its chain; writes nothing. */
  function BeginAt(s: State, p: Put, k: Key): State {
    if k.home >= |s.pcs| || !s.pcs[k.home].Idle? then s
    else
      var root := Slot(s.table, Managed(k.home));
      var s' := s.(begun := s.begun + [p]);
      if root.size == 0 then s'.(pcs := s.pcs[k.home := First(p, ClaimSize)])
      else if root.size == 127 && root.internal then s'
      else s'.(pcs := s.pcs[k.home := Probed(p, ProbeFrom(s.table, Managed(k.home), root.size, k.hi))])
  }

  function Store(s: State, h: nat, t: Table, p: Put): State
    requires h < |s.pcs|
  {
    s.(table := t, pcs := s.pcs[h := Idle], contents := s.contents[p.key := Stored(p.payload)])
  }

  function WorkAt(s: State, h: nat): State
    requires h < |s.pcs| && s.table.Count() > 0
  {
    match s.pcs[h]
    case Idle => s
    case First(p, stage) => FirstWrite(s, h, p, stage)
    case Probed(p, Hit(l)) => Store(s, h, SetSlot(s.table, l, Slot(s.table, l).(payload := Stored(p.payload))), p)
    case Probed(p, Miss(last)) =>
      if s.table.freeCount + 1 > s.table.Count() then s.(pcs := s.pcs[h := Idle])
      else s.(table := s.table.(freeCount := s.table.freeCount + 1),
              pcs := s.pcs[h := Appending(p, FillPayload, last, s.table.freeCount)])
    case Appending(p, stage, last, slot) => AppendWrite(s, h, p, stage, last, slot)
  }

  function FirstWrite(s: State, h: nat, p: Put, stage: FirstStage): State
    requires h < |s.pcs| && s.table.Count() > 0
  {
    var t, k := s.table, Split(p.key, s.table.Count());
    var home := Managed(h);
    match stage
    case ClaimSize =>
      s.(table := SetSlot(t, home, Slot(t, home).(size := 1, internal := false)), pcs := s.pcs[h := First(p, SetRoot)])
    case SetRoot =>
      s.(table := if h < |t.managedRoots| then t.(managedRoots := t.managedRoots[h := RootAt(h)]) else t,
         pcs := s.pcs[h := First(p, SetPayload)])
    case SetPayload =>
      s.(table := SetSlot(t, home, Slot(t, home).(payload := Stored(p.payload))), pcs := s.pcs[h := First(p, SetKey)])
    case SetKey =>
      s.(table := SetSlot(t, home, Slot(t, home).(hi := k.hi, next := k.home)), pcs := s.pcs[h := First(p, SetSize)])
    case SetSize => Store(s, h, SetSlot(t, home, Slot(t, home).(size := 1, internal := false)), p)
  }

  function AppendWrite(s: State, h: nat, p: Put, stage: Stage, last: Loc, slot: nat): State
    requires h < |s.pcs| && s.table.Count() > 0
  {
    var t, k, l := s.table, Split(p.key, s.table.Count()), Free(slot);
    match stage
    case FillPayload =>
      s.(table := SetSlot(t, l, Slot(t, l).(payload := Stored(p.payload))),
         pcs := s.pcs[h := Appending(p, FillKey, last, slot)])
    case FillKey =>
      s.(table := SetSlot(t, l, Slot(t, l).(hi := k.hi, next := k.home)),
         pcs := s.pcs[h := Appending(p, FillFlag, last, slot)])
    case FillFlag =>
      s.(table := SetSlot(t, l, Slot(t, l).(size := 0, internal := true)),
         pcs := s.pcs[h := Appending(p, FillRoot, last, slot)])
    case FillRoot =>
      s.(table := if slot < |t.freeRoots| then t.(freeRoots := t.freeRoots[slot := RootAt(h)]) else t,
         pcs := s.pcs[h := Appending(p, LinkLast, last, slot)])
    case LinkLast =>
      s.(table := SetSlot(t, last, Slot(t, last).(next := slot)),
         pcs := s.pcs[h := Appending(p, ClearFlag, last, slot)])
    case ClearFlag =>
      s.(table := SetSlot(t, last, Slot(t, last).(internal := false)),
         pcs := s.pcs[h := Appending(p, BumpSize, last, slot)])
    case BumpSize => Store(s, h, SetSlot(t, Managed(h), Bumped(Slot(t, Managed(h)))), p)
  }

  // ----- What holds in every home, whatever its writer is doing -----

  /** c lists the published buckets of home h. */
  ghost predicate Published(t: Table, c: Chain, h: nat)
    requires h < t.Count()
  {
    && |c| == t.managed[h].size < 128
    && (c != [] ==> c[0] == Managed(h))
    && (forall i | 0 < i < |c| :: c[i].Free? && c[i].id < t.freeCount && Slot(t, c[i]).size == 0)
    && (forall i | 0 <= i < |c| - 1 :: Following(Slot(t, c[i])) == c[i + 1])
    && (forall i | 0 <= i < |c| :: Slot(t, c[i]).payload < PAYLOAD_LIMIT)
    && DistinctKeys(t, c)
    && forall i, j | 0 <= i < j < |c| :: c[i] != c[j]
  }

  /** The new bucket is filled in as far as the stage says. */
  ghost predicate Filled(b: Bucket, k: Key, payload: nat, stage: Stage) {
    && (stage != FillPayload ==> b.payload == Stored(payload))
    && (stage != FillPayload && stage != FillKey ==> b.hi == k.hi)
    && (stage == FillRoot || stage == LinkLast || stage == ClearFlag || stage == BumpSize ==> b.size == 0)
  }

  ghost predicate AppendOk(t: Table, c: Chain, h: nat, p: Put, stage: Stage, last: Loc, slot: nat)
    requires t.Count() > 0
  {
    var k := Split(p.key, t.Count());
    && k.home == h && c != [] && |c| < 127 && Absent(t, c, k.hi)
    && last == c[|c| - 1] && slot < t.freeCount && Free(slot) !in c
    && Filled(Slot(t, Free(slot)), k, p.payload, stage)
    && (stage == ClearFlag || stage == BumpSize ==> Slot(t, last).next == slot)
    && (stage == BumpSize ==> !Slot(t, last).internal)
  }

  ghost predicate HomeOk(t: Table, c: Chain, h: nat, pc: Pc)
    requires h < t.Count()
  {
    match pc
    case Idle => Published(t, c, h)
    case First(p, stage) =>
      var b := t.managed[h];
      && c == [] && Split(p.key, t.Count()).home == h
      && (stage == SetKey || stage == SetSize ==> b.payload == Stored(p.payload))
      && (stage == SetSize ==> b.hi == Split(p.key, t.Count()).hi)
    case Probed(p, probe) =>
      var k := Split(p.key, t.Count());
      && Published(t, c, h) && c != [] && k.home == h
      && (match probe
          case Hit(l) => exists i :: 0 <= i < |c| && c[i] == l && Slot(t, l).hi == k.hi
          case Miss(last) => last == c[|c| - 1] && Absent(t, c, k.hi))
    case Appending(p, stage, last, slot) => Published(t, c, h) && AppendOk(t, c, h, p, stage, last, slot)
  }

  /** The buckets home h has to itself. */
  ghost function Own(c: Chain, h: nat, pc: Pc): set<Loc> {
    (set l | l in c) + {Managed(h)} + (if pc.Appending? then {Free(pc.slot)} else {})
  }

  ghost predicate Apart(cs: seq<Chain>, pcs: seq<Pc>) {
    |cs| == |pcs| && forall h, o | 0 <= h < |cs| && 0 <= o < |cs| && h != o ::
      Own(cs[h], h, pcs[h]) !! Own(cs[o], o, pcs[o])
  }

  ghost predicate Sized(t: Table) {
    |t.free| == |t.managedRoots| == |t.freeRoots| == t.Count() > 0 && t.freeCount <= t.Count()
  }

  ghost predicate Stocks(t: Table, cs: seq<Chain>, m: map<nat, nat>)
    requires t.Count() > 0 && |cs| == t.Count()
  {
    forall key :: StockedAt(t, cs, m, key)
  }

  /** Searching the key's chain gives what the map says. */
  ghost predicate StockedAt(t: Table, cs: seq<Chain>, m: map<nat, nat>, key: nat)
    requires t.Count() > 0 && |cs| == t.Count()
  {
    var k := Split(key, t.Count());
    Search(t, cs[k.home], k.hi) == if key in m then m[key] else NOT_FOUND
  }

  ghost predicate MInv(s: State, cs: seq<Chain>) {
    && Sized(s.table) && |cs| == s.table.Count() && Apart(cs, s.pcs)
    && (forall h | 0 <= h < s.table.Count() :: HomeOk(s.table, cs[h], h, s.pcs[h]))
    && (forall h, l | 0 <= h < s.table.Count() && l in Own(cs[h], h, s.pcs[h]) && l.Free? :: l.id < s.table.freeCount)
    && Stocks(s.table, cs, s.contents)
    && Bounded(s.contents) && Counted(s.contents, cs)
  }

  ghost predicate Bounded(m: map<nat, nat>) {
    forall k | k in m :: m[k] < PAYLOAD_LIMIT
  }

  /** Every home has as many buckets as keys. */
  ghost predicate Counted(m: map<nat, nat>, cs: seq<Chain>) {
    |cs| > 0 && forall h | 0 <= h < |cs| :: |KeysAt(m, |cs|, h)| == |cs[h]|
  }

  /** Only keys from a given set are stored or being inserted. */
  ghost predicate Within(s: State, keys: set<nat>) {
    s.contents.Keys <= keys && forall h | 0 <= h < |s.pcs| && !s.pcs[h].Idle? :: s.pcs[h].put.key in keys
  }

  lemma InitInv(count: nat)
    requires count > 0
    ensures MInv(Init(count), seq(count, _ => []))
  {
  }

  // ----- Frames -----

  /** u agrees with t outside the given buckets. */
  ghost predicate Agree(t: Table, u: Table, except: set<Loc>) {
    && u.Count() == t.Count() && t.freeCount <= u.freeCount
    && forall l | l !in except :: Slot(u, l) == Slot(t, l)
  }

  lemma HomeFrame(t: Table, u: Table, c: Chain, h: nat, pc: Pc, except: set<Loc>)
    requires h < t.Count() && HomeOk(t, c, h, pc) && Agree(t, u, except) && Own(c, h, pc) !! except
    ensures HomeOk(u, c, h, pc)
    ensures forall hi :: Search(u, c, hi) == Search(t, c, hi)
  {
    assert Managed(h) in Own(c, h, pc);
    assert u.managed[h] == Slot(u, Managed(h)) == Slot(t, Managed(h)) == t.managed[h];
    forall i | 0 <= i < |c| ensures Slot(u, c[i]) == Slot(t, c[i]) {
      assert c[i] in Own(c, h, pc);
    }
    if pc.Appending? {
      assert Free(pc.slot) in Own(c, h, pc);
      assert Slot(u, Free(pc.slot)) == Slot(t, Free(pc.slot));
    }
    if !pc.First? {
      assert Published(t, c, h);
      PublishedFrame(t, u, c, h);
    }
    forall hi ensures Search(u, c, hi) == Search(t, c, hi) { SearchFrame(t, u, c, hi); }
  }

  lemma PublishedFrame(t: Table, u: Table, c: Chain, h: nat)
    requires h < t.Count() == u.Count() && Published(t, c, h) && t.freeCount <= u.freeCount
             && u.managed[h].size == t.managed[h].size
    requires forall i | 0 <= i < |c| :: Slot(u, c[i]) == Slot(t, c[i])
    ensures Published(u, c, h)
  {
  }

  /** Home h, as its writer sees it. */
  ghost predicate Self(s: State, c: Chain, h: nat) {
    && Sized(s.table) && h < s.table.Count() == |s.pcs| && HomeOk(s.table, c, h, s.pcs[h])
    && forall l | l in Own(c, h, s.pcs[h]) && l.Free? :: l.id < s.table.freeCount
  }

  /** Home h moves inside its own buckets and ends up with chain d; the other homes do nothing. */
  ghost predicate HomeMoves(s: State, s': State, c: Chain, h: nat, d: Chain, mine: set<Loc>)
    requires h < |s.pcs|
  {
    && Sized(s'.table) && |s'.pcs| == |s.pcs| && Agree(s.table, s'.table, mine)
    && mine <= Own(c, h, s.pcs[h])
    && (forall o | 0 <= o < |s.pcs| && o != h :: s'.pcs[o] == s.pcs[o])
    && (forall l | l in Own(d, h, s'.pcs[h]) ::
          && (l in Own(c, h, s.pcs[h]) || (l.Free? && l.id >= s.table.freeCount))
          && (l.Free? ==> l.id < s'.table.freeCount))
    && h < s'.table.Count() && HomeOk(s'.table, d, h, s'.pcs[h])
    && Grows(s.table, s'.table, c, d)
  }

  /** Published buckets stay where they are and keep their keys. */
  ghost predicate Grows(t: Table, u: Table, c: Chain, d: Chain) {
    c <= d && forall i | 0 <= i < |c| :: Slot(u, c[i]).hi == Slot(t, c[i]).hi
  }

  ghost predicate AllGrow(t: Table, u: Table, cs: seq<Chain>, ds: seq<Chain>) {
    |cs| == |ds| && forall o | 0 <= o < |cs| :: Grows(t, u, cs[o], ds[o])
  }

  ghost predicate SameSearch(t: Table, u: Table, c: Chain) {
    forall hi :: Search(u, c, hi) == Search(t, c, hi)
  }

  ghost predicate PutSearch(t: Table, u: Table, c: Chain, d: Chain, hi: nat, v: nat) {
    forall x :: Search(u, d, x) == if x == hi then v else Search(t, c, x)
  }

  lemma OtherHome(s: State, s': State, cs: seq<Chain>, h: nat, d: Chain, mine: set<Loc>, o: nat)
    requires MInv(s, cs) && h < |cs| && HomeMoves(s, s', cs[h], h, d, mine) && o < |cs| && o != h
    ensures HomeOk(s'.table, cs[o], o, s'.pcs[o]) && SameSearch(s.table, s'.table, cs[o])
            && Grows(s.table, s'.table, cs[o], cs[o])
  {
    assert Own(cs[h], h, s.pcs[h]) !! Own(cs[o], o, s.pcs[o]);
    HomeFrame(s.table, s'.table, cs[o], o, s.pcs[o], mine);
    forall i | 0 <= i < |cs[o]| ensures Slot(s'.table, cs[o][i]).hi == Slot(s.table, cs[o][i]).hi {
      assert cs[o][i] in Own(cs[o], o, s.pcs[o]);
    }
  }

  lemma ApartAfter(s: State, s': State, cs: seq<Chain>, h: nat, d: Chain, mine: set<Loc>)
    requires MInv(s, cs) && h < |cs| && HomeMoves(s, s', cs[h], h, d, mine)
    ensures Apart(cs[h := d], s'.pcs)
  {
  }

  /** One home takes a step; nobody else notices. */
  lemma StepInvHome(s: State, s': State, cs: seq<Chain>, h: nat, d: Chain, mine: set<Loc>)
    requires MInv(s, cs) && h < |cs| && HomeMoves(s, s', cs[h], h, d, mine)
    requires Stocks(s'.table, cs[h := d], s'.contents) && Bounded(s'.contents) && Counted(s'.contents, cs[h := d])
    ensures MInv(s', cs[h := d]) && AllGrow(s.table, s'.table, cs, cs[h := d])
  {
    forall o | 0 <= o < |cs| && o != h
      ensures HomeOk(s'.table, cs[o], o, s'.pcs[o]) && Grows(s.table, s'.table, cs[o], cs[o])
    {
      OtherHome(s, s', cs, h, d, mine, o);
    }
    ApartAfter(s, s', cs, h, d, mine);
  }

  /** A step that publishes nothing. */
  lemma SilentStep(s: State, s': State, cs: seq<Chain>, h: nat, mine: set<Loc>)
    requires MInv(s, cs) && h < |cs| && HomeMoves(s, s', cs[h], h, cs[h], mine)
    requires s'.contents == s.contents && SameSearch(s.table, s'.table, cs[h])
    ensures MInv(s', cs) && AllGrow(s.table, s'.table, cs, cs)
  {
    assert cs[h := cs[h]] == cs;
    forall o | 0 <= o < |cs| ensures SameSearch(s.table, s'.table, cs[o]) {
      if o != h { OtherHome(s, s', cs, h, cs[h], mine, o); }
    }
    forall key ensures StockedAt(s'.table, cs, s.contents, key) {
      assert StockedAt(s.table, cs, s.contents, key);
    }
    StepInvHome(s, s', cs, h, cs[h], mine);
  }

  lemma StocksAfter(t: Table, u: Table, cs: seq<Chain>, h: nat, d: Chain, m: map<nat, nat>, p: Put)
    requires u.Count() == t.Count() > 0 && |cs| == t.Count() && Stocks(t, cs, m) && Split(p.key, t.Count()).home == h
    requires PutSearch(t, u, cs[h], d, Split(p.key, t.Count()).hi, Stored(p.payload))
    requires forall o | 0 <= o < |cs| && o != h :: SameSearch(t, u, cs[o])
    ensures Stocks(u, cs[h := d], m[p.key := Stored(p.payload)])
  {
    var n, ds, m' := t.Count(), cs[h := d], m[p.key := Stored(p.payload)];
    forall key ensures StockedAt(u, ds, m', key) {
      var k := Split(key, n);
      assert StockedAt(t, cs, m, key);
      if key != p.key && k == Split(p.key, n) {
        SplitInjective(key, p.key, n);
      }
    }
  }

  lemma CountedAfter(m: map<nat, nat>, cs: seq<Chain>, h: nat, d: Chain, p: Put)
    requires |cs| > 0 && Counted(m, cs) && Split(p.key, |cs|).home == h
    requires |d| == |cs[h]| + if p.key in m then 0 else 1
    ensures Counted(m[p.key := Stored(p.payload)], cs[h := d])
  {
    var m', ds := m[p.key := Stored(p.payload)], cs[h := d];
    forall o | 0 <= o < |ds| ensures |KeysAt(m', |ds|, o)| == |ds[o]| {
      KeysAtSize(m, |cs|, p.key, Stored(p.payload), o);
    }
  }

  /** A step that publishes a payload. */
  lemma StoreStep(s: State, s': State, cs: seq<Chain>, h: nat, d: Chain, mine: set<Loc>, p: Put)
    requires MInv(s, cs) && h < |cs| && HomeMoves(s, s', cs[h], h, d, mine)
    requires s'.contents == s.contents[p.key := Stored(p.payload)] && Split(p.key, s.table.Count()).home == h
    requires |d| == |cs[h]| + if p.key in s.contents then 0 else 1
    requires PutSearch(s.table, s'.table, cs[h], d, Split(p.key, s.table.Count()).hi, Stored(p.payload))
    ensures MInv(s', cs[h := d]) && AllGrow(s.table, s'.table, cs, cs[h := d])
  {
    forall o | 0 <= o < |cs| && o != h ensures SameSearch(s.table, s'.table, cs[o]) {
      OtherHome(s, s', cs, h, d, mine, o);
    }
    StocksAfter(s.table, s'.table, cs, h, d, s.contents, p);
    CountedAfter(s.contents, cs, h, d, p);
    StepInvHome(s, s', cs, h, d, mine);
  }

  // ----- The steps, one by one, as the writer of home h sees them -----

  lemma BeginMoves(s: State, c: Chain, p: Put, h: nat)
    requires Self(s, c, h) && Split(p.key, s.table.Count()).home == h && s.pcs[h].Idle?
    ensures var s' := Next(s, Begin(p));
            HomeMoves(s, s', c, h, c, {}) && s'.contents == s.contents && s'.table == s.table
  {
    var s' := Next(s, Begin(p));
    if c != [] {
      var i := ProbeSearches(s.table, c, Split(p.key, s.table.Count()).hi);
    }
    assert Own(c, h, s'.pcs[h]) == Own(c, h, s.pcs[h]);
  }

  lemma FirstMoves(s: State, c: Chain, h: nat)
    requires Self(s, c, h) && s.pcs[h].First? && s.pcs[h].first != SetSize
    ensures var s' := Next(s, Work(h)); HomeMoves(s, s', c, h, c, {Managed(h)}) && s'.contents == s.contents && c == []
  {
    var s' := Next(s, Work(h));
    assert Own([], h, s'.pcs[h]) == Own([], h, s.pcs[h]);
  }

  lemma FirstStores(s: State, c: Chain, h: nat)
    requires Self(s, c, h) && s.pcs[h].First? && s.pcs[h].first == SetSize
    ensures var s', p, d := Next(s, Work(h)), s.pcs[h].put, [Managed(h)];
            && HomeMoves(s, s', c, h, d, {Managed(h)}) && c == []
            && PutSearch(s.table, s'.table, c, d, Split(p.key, s.table.Count()).hi, Stored(p.payload))
  {
    var s', d := Next(s, Work(h)), [Managed(h)];
    assert DistinctKeys(s'.table, d) && Published(s'.table, d, h);
    assert d[1..] == [];
    assert Own(d, h, Idle) == Own([], h, s.pcs[h]);
  }

  lemma HitStores(s: State, c: Chain, h: nat)
    requires Self(s, c, h) && s.pcs[h].Probed? && s.pcs[h].probe.Hit?
    ensures var s', p := Next(s, Work(h)), s.pcs[h].put;
            && HomeMoves(s, s', c, h, c, {s.pcs[h].probe.at}) && !Absent(s.table, c, Split(p.key, s.table.Count()).hi)
            && PutSearch(s.table, s'.table, c, c, Split(p.key, s.table.Count()).hi, Stored(p.payload))
  {
    var s', p, l := Next(s, Work(h)), s.pcs[h].put, s.pcs[h].probe.at;
    var k := Split(p.key, s.table.Count());
    var i :| 0 <= i < |c| && c[i] == l && Slot(s.table, l).hi == k.hi;
    assert s'.table == SetSlot(s.table, l, Slot(s.table, l).(payload := Stored(p.payload)));
    assert l in Own(c, h, s.pcs[h]);
    HitEffect(s.table, s'.table, c, h, i, p.payload);
    HitPublished(s.table, s'.table, c, h, i, p.payload);
    HitSearches(s.table, s'.table, c, i, p.payload);
    assert Own(c, h, Idle) == Own(c, h, s.pcs[h]);
  }

  lemma HitEffect(t: Table, u: Table, c: Chain, h: nat, i: nat, payload: nat)
    requires h < t.Count() && Sized(t) && Published(t, c, h) && i < |c|
    requires u == SetSlot(t, c[i], Slot(t, c[i]).(payload := Stored(payload)))
    ensures Sized(u) && Agree(t, u, {c[i]}) && PayloadSet(t, u, c, i, payload) && Grows(t, u, c, c)
  {
  }

  lemma HitSearches(t: Table, u: Table, c: Chain, i: nat, payload: nat)
    requires i < |c| && DistinctKeys(t, c) && PayloadSet(t, u, c, i, payload)
    ensures PutSearch(t, u, c, c, Slot(t, c[i]).hi, Stored(payload))
  {
    forall x ensures Search(u, c, x) == if x == Slot(t, c[i]).hi then Stored(payload) else Search(t, c, x) {
      HitSearch(t, u, c, x, i, payload);
    }
  }

  lemma HitPublished(t: Table, u: Table, c: Chain, h: nat, i: nat, payload: nat)
    requires h < t.Count() == u.Count() && Published(t, c, h) && c != [] && PayloadSet(t, u, c, i, payload)
             && u.freeCount == t.freeCount
    ensures Published(u, c, h)
  {
  }

  lemma TakeMoves(s: State, c: Chain, h: nat)
    requires Self(s, c, h) && s.pcs[h].Probed? && s.pcs[h].probe.Miss? && |c| < 127
    ensures var s' := Next(s, Work(h));
            HomeMoves(s, s', c, h, c, {}) && s'.contents == s.contents && SameSearch(s.table, s'.table, c)
  {
    var s' := Next(s, Work(h));
    if s.table.freeCount < s.table.Count() {
      forall i | 0 <= i < |c| ensures c[i] != Free(s.table.freeCount) {
        assert c[i] in Own(c, h, s.pcs[h]);
      }
      assert Own(c, h, s'.pcs[h]) == Own(c, h, s.pcs[h]) + {Free(s.table.freeCount)};
      PublishedFrame(s.table, s'.table, c, h);
    } else {
      assert Own(c, h, Idle) == Own(c, h, s.pcs[h]);
    }
    forall hi ensures Search(s'.table, c, hi) == Search(s.table, c, hi) { SearchFrame(s.table, s'.table, c, hi); }
  }

  predicate Filling(stage: Stage) {
    stage.FillPayload? || stage.FillKey? || stage.FillFlag? || stage.FillRoot?
  }

  lemma FillMoves(s: State, c: Chain, h: nat)
    requires Self(s, c, h) && s.pcs[h].Appending? && Filling(s.pcs[h].stage)
    ensures var s' := Next(s, Work(h));
            HomeMoves(s, s', c, h, c, {Free(s.pcs[h].slot)}) && s'.contents == s.contents
              && SameSearch(s.table, s'.table, c)
  {
    var s', l := Next(s, Work(h)), Free(s.pcs[h].slot);
    assert l in Own(c, h, s.pcs[h]);
    assert Own(c, h, s'.pcs[h]) == Own(c, h, s.pcs[h]);
    assert Agree(s.table, s'.table, {l});
    forall i | 0 <= i < |c| ensures Slot(s'.table, c[i]) == Slot(s.table, c[i]) {
      assert c[i] != l;
    }
    PublishedFrame(s.table, s'.table, c, h);
    forall hi ensures Search(s'.table, c, hi) == Search(s.table, c, hi) { SearchFrame(s.table, s'.table, c, hi); }
  }

  /** The last bucket gets a new pointer; no key, payload or size changes. */
  ghost predicate Relinked(t: Table, u: Table, c: Chain) {
    forall i | 0 <= i < |c| ::
      && Slot(u, c[i]).hi == Slot(t, c[i]).hi && Slot(u, c[i]).payload == Slot(t, c[i]).payload
      && Slot(u, c[i]).size == Slot(t, c[i]).size
      && (i < |c| - 1 ==> Slot(u, c[i]) == Slot(t, c[i]))
  }

  lemma RelinkedPublished(t: Table, u: Table, c: Chain, h: nat)
    requires h < t.Count() == u.Count() && Published(t, c, h) && c != [] && Relinked(t, u, c)
             && u.freeCount == t.freeCount
    ensures Published(u, c, h) && SameSearch(t, u, c)
  {
    assert Slot(u, c[0]).size == Slot(t, c[0]).size;
    assert DistinctKeys(u, c);
    forall hi ensures Search(u, c, hi) == Search(t, c, hi) { SearchFrame(t, u, c, hi); }
  }

  lemma LinkMoves(s: State, c: Chain, h: nat)
    requires Self(s, c, h) && s.pcs[h].Appending? && (s.pcs[h].stage.LinkLast? || s.pcs[h].stage.ClearFlag?)
    ensures var s' := Next(s, Work(h));
            HomeMoves(s, s', c, h, c, {s.pcs[h].last}) && s'.contents == s.contents && SameSearch(s.table, s'.table, c)
  {
    var s', last := Next(s, Work(h)), s.pcs[h].last;
    assert last == c[|c| - 1] && last in Own(c, h, s.pcs[h]);
    assert Own(c, h, s'.pcs[h]) == Own(c, h, s.pcs[h]);
    assert Agree(s.table, s'.table, {last});
    assert Relinked(s.table, s'.table, c) by {
      forall i | 0 <= i < |c| - 1 ensures Slot(s'.table, c[i]) == Slot(s.table, c[i]) { assert c[i] != c[|c| - 1]; }
    }
    RelinkedPublished(s.table, s'.table, c, h);
  }

  /** Lengthening the chain leaves every bucket but for the root's size as it was. */
  ghost predicate Lengthened(t: Table, u: Table, c: Chain, l: Loc) {
    && Slot(u, l) == Slot(t, l)
    && forall i | 0 <= i < |c| :: Slot(u, c[i]) == if i == 0 then Slot(t, c[i]).(size := |c| + 1) else Slot(t, c[i])
  }

  lemma BumpStores(s: State, c: Chain, h: nat)
    requires Self(s, c, h) && s.pcs[h].Appending? && s.pcs[h].stage.BumpSize?
    ensures var s', p, d := Next(s, Work(h)), s.pcs[h].put, c + [Free(s.pcs[h].slot)];
            && HomeMoves(s, s', c, h, d, {Managed(h)}) && Absent(s.table, c, Split(p.key, s.table.Count()).hi)
            && PutSearch(s.table, s'.table, c, d, Split(p.key, s.table.Count()).hi, Stored(p.payload))
  {
    var s', p, l := Next(s, Work(h)), s.pcs[h].put, Free(s.pcs[h].slot);
    var d, k := c + [l], Split(s.pcs[h].put.key, s.table.Count());
    assert c[0] == Managed(h) && c[0] in Own(c, h, s.pcs[h]) && l in Own(c, h, s.pcs[h]);
    assert Own(d, h, Idle) == Own(c, h, s.pcs[h]);
    assert Agree(s.table, s'.table, {Managed(h)});
    assert Lengthened(s.table, s'.table, c, l) by {
      forall i | 0 < i < |c| ensures Slot(s'.table, c[i]) == Slot(s.table, c[i]) { assert c[i] != c[0]; }
    }
    BumpPublished(s.table, s'.table, c, h, l, k.hi, Stored(p.payload));
    forall x ensures Search(s'.table, d, x) == if x == k.hi then Stored(p.payload) else Search(s.table, c, x) {
      BumpSearch(s.table, s'.table, c, l, k.hi, Stored(p.payload), x);
    }
  }

  lemma BumpPublished(t: Table, u: Table, c: Chain, h: nat, l: Loc, hi: nat, payload: nat)
    requires h < t.Count() == u.Count() && u.freeCount == t.freeCount && Published(t, c, h) && 0 < |c| < 127
    requires l.Free? && l.id < t.freeCount && l !in c && Lengthened(t, u, c, l)
    requires Absent(t, c, hi) && Slot(t, l).hi == hi && Slot(t, l).payload == payload < PAYLOAD_LIMIT
             && Slot(t, l).size == 0
    requires Following(Slot(t, c[|c| - 1])) == l
    ensures Published(u, c + [l], h)
  {
    var d := c + [l];
    assert forall i | 0 <= i < |c| :: d[i] == c[i] && Following(Slot(u, d[i])) == Following(Slot(t, c[i]));
    assert Slot(u, d[0]).size == |d|;
    assert forall i | 0 <= i < |d| :: Slot(u, d[i]).hi == Slot(t, d[i]).hi;
    assert DistinctKeys(u, d);
  }

  lemma BumpSearch(t: Table, u: Table, c: Chain, l: Loc, hi: nat, payload: nat, x: nat)
    requires Absent(t, c, hi) && DistinctKeys(t, c) && Slot(t, l).hi == hi && Slot(t, l).payload == payload
             && Lengthened(t, u, c, l)
    ensures Search(u, c + [l], x) == if x == hi then payload else Search(t, c, x)
  {
    var d := c + [l];
    assert forall i | 0 <= i < |d| ::
      Slot(u, d[i]).hi == Slot(t, d[i]).hi && Slot(u, d[i]).payload == Slot(t, d[i]).payload;
    assert forall i | 0 <= i < |c| :: d[i] == c[i];
    assert DistinctKeys(u, d);
    if x == hi {
      SearchHit(u, d, x, |c|);
    } else if j :| 0 <= j < |c| && Slot(t, c[j]).hi == x {
      SearchHit(t, c, x, j);
      SearchHit(u, d, x, j);
    } else {
      SearchMiss(t, c, x);
      SearchMiss(u, d, x);
    }
  }

  // ----- Every step keeps the invariant -----

  lemma StoredIffPresent(s: State, cs: seq<Chain>, p: Put)
    requires MInv(s, cs)
    ensures var k := Split(p.key, s.table.Count());
            !s.pcs[k.home].First? ==> (p.key in s.contents <==> !Absent(s.table, cs[k.home], k.hi))
    ensures cs[Split(p.key, s.table.Count()).home] == [] ==> p.key !in s.contents
  {
    var k := Split(p.key, s.table.Count());
    var c := cs[k.home];
    assert HomeOk(s.table, c, k.home, s.pcs[k.home]);
    assert StockedAt(s.table, cs, s.contents, p.key);
    if Absent(s.table, c, k.hi) {
      SearchMiss(s.table, c, k.hi);
    } else {
      var i :| 0 <= i < |c| && Slot(s.table, c[i]).hi == k.hi;
      SearchHit(s.table, c, k.hi, i);
    }
  }

  lemma BeginInv(s: State, cs: seq<Chain>, p: Put)
    requires MInv(s, cs)
    ensures MInv(Next(s, Begin(p)), cs) && AllGrow(s.table, Next(s, Begin(p)).table, cs, cs)
  {
    var h := Split(p.key, s.table.Count()).home;
    if s.pcs[h].Idle? {
      BeginMoves(s, cs[h], p, h);
      SilentStep(s, Next(s, Begin(p)), cs, h, {});
    }
  }

  lemma RoomInHome(s: State, cs: seq<Chain>, p: Put, keys: set<nat>)
    requires MInv(s, cs) && Within(s, keys) && FewPerHome(keys, s.table.Count()) && p.key in keys
             && p.key !in s.contents
    ensures |cs[Split(p.key, s.table.Count()).home]| < 127
  {
    FewFits(Model(s.table, s.contents), keys, p.key);
  }

  lemma FirstInv(s: State, cs: seq<Chain>, h: nat) returns (ds: seq<Chain>)
    requires MInv(s, cs) && h < s.table.Count() && s.pcs[h].First?
    ensures MInv(Next(s, Work(h)), ds) && AllGrow(s.table, Next(s, Work(h)).table, cs, ds)
  {
    assert Self(s, cs[h], h);
    StoredIffPresent(s, cs, s.pcs[h].put);
    if s.pcs[h].first == SetSize {
      FirstStores(s, cs[h], h);
      ds := cs[h := [Managed(h)]];
      StoreStep(s, Next(s, Work(h)), cs, h, [Managed(h)], {Managed(h)}, s.pcs[h].put);
    } else {
      ds := cs;
      FirstMoves(s, cs[h], h);
      SilentStep(s, Next(s, Work(h)), cs, h, {Managed(h)});
    }
  }

  lemma ProbedInv(s: State, cs: seq<Chain>, h: nat, keys: set<nat>)
    requires MInv(s, cs) && h < s.table.Count() && Within(s, keys) && FewPerHome(keys, s.table.Count())
             && s.pcs[h].Probed?
    ensures MInv(Next(s, Work(h)), cs) && AllGrow(s.table, Next(s, Work(h)).table, cs, cs)
  {
    assert Self(s, cs[h], h);
    StoredIffPresent(s, cs, s.pcs[h].put);
    if s.pcs[h].probe.Hit? {
      HitStores(s, cs[h], h);
      assert cs[h := cs[h]] == cs;
      StoreStep(s, Next(s, Work(h)), cs, h, cs[h], {s.pcs[h].probe.at}, s.pcs[h].put);
    } else {
      RoomInHome(s, cs, s.pcs[h].put, keys);
      TakeMoves(s, cs[h], h);
      SilentStep(s, Next(s, Work(h)), cs, h, {});
    }
  }

  lemma WorkInv(s: State, cs: seq<Chain>, h: nat, keys: set<nat>) returns (ds: seq<Chain>)
    requires MInv(s, cs) && h < s.table.Count() && Within(s, keys) && FewPerHome(keys, s.table.Count())
    ensures MInv(Next(s, Work(h)), ds) && AllGrow(s.table, Next(s, Work(h)).table, cs, ds)
  {
    ds := cs;
    if s.pcs[h].First? {
      ds := FirstInv(s, cs, h);
    } else if s.pcs[h].Probed? {
      ProbedInv(s, cs, h, keys);
    } else if s.pcs[h].Appending? {
      ds := AppendingInv(s, cs, h);
    }
  }

  lemma AppendingInv(s: State, cs: seq<Chain>, h: nat) returns (ds: seq<Chain>)
    requires MInv(s, cs) && h < s.table.Count() && s.pcs[h].Appending?
    ensures MInv(Next(s, Work(h)), ds) && AllGrow(s.table, Next(s, Work(h)).table, cs, ds)
  {
    var s', c, pc := Next(s, Work(h)), cs[h], s.pcs[h];
    assert Self(s, c, h);
    ds := cs;
    if pc.stage == BumpSize {
      StoredIffPresent(s, cs, pc.put);
      BumpStores(s, c, h);
      ds := cs[h := c + [Free(pc.slot)]];
      StoreStep(s, s', cs, h, c + [Free(pc.slot)], {Managed(h)}, pc.put);
    } else if Filling(pc.stage) {
      FillMoves(s, c, h);
      SilentStep(s, s', cs, h, {Free(pc.slot)});
    } else {
      LinkMoves(s, c, h);
      SilentStep(s, s', cs, h, {pc.last});
    }
  }

  lemma NextInv(s: State, cs: seq<Chain>, a: Action, keys: set<nat>) returns (ds: seq<Chain>)
    requires MInv(s, cs) && Within(s, keys) && FewPerHome(keys, s.table.Count()) && (a.Begin? ==> a.put.key in keys)
    ensures MInv(Next(s, a), ds) && AllGrow(s.table, Next(s, a).table, cs, ds) && Within(Next(s, a), keys)
    ensures Next(s, a).table.Count() == s.table.Count()
  {
    ds := cs;
    NextWithin(s, a, keys);
    match a
    case Begin(p) => BeginInv(s, cs, p);
    case Work(h) => if h < s.table.Count() { ds := WorkInv(s, cs, h, keys); }
  }

  lemma NextWithin(s: State, a: Action, keys: set<nat>)
    requires Within(s, keys) && (a.Begin? ==> a.put.key in keys)
    ensures Within(Next(s, a), keys) && Next(s, a).table.Count() == s.table.Count()
  {
  }

  // ----- Runs -----

  function RunFrom(s: State, run: seq<Action>): State
    decreases |run|
  {
    if run == [] then s else RunFrom(Next(s, run[0]), run[1..])
  }

  /** All keys inserted by the run come from the given set. */
  ghost predicate Inserts(run: seq<Action>, keys: set<nat>) {
    forall a | a in run && a.Begin? :: a.put.key in keys
  }

  lemma {:induction false} RunKeepsInv(s: State, cs: seq<Chain>, run: seq<Action>, keys: set<nat>)
      returns (ds: seq<Chain>)
    requires MInv(s, cs) && Within(s, keys) && FewPerHome(keys, s.table.Count()) && Inserts(run, keys)
    ensures MInv(RunFrom(s, run), ds) && Within(RunFrom(s, run), keys)
            && RunFrom(s, run).table.Count() == s.table.Count()
    decreases |run|
  {
    ds := cs;
    if run != [] {
      assert run[0] in run && forall a | a in run[1..] :: a in run;
      var es := NextInv(s, cs, run[0], keys);
      ds := RunKeepsInv(Next(s, run[0]), es, run[1..], keys);
    }
  }

  lemma PublishedFind(t: Table, c: Chain, k: Key)
    requires k.home < t.Count() && Published(t, c, k.home)
    ensures Find(t, k) == Search(t, c, k.hi)
  {
    if c != [] {
      FindFromIsSearch(t, c, k.hi);
    }
  }

  /** In every state of every interleaving, a home that is not being set up gives the answers of the map. */
  lemma LookupsWhileWriting(count: nat, run: seq<Action>, keys: set<nat>, key: nat)
    requires count > 0 && FewPerHome(keys, count) && Inserts(run, keys)
    ensures var s := RunFrom(Init(count), run);
            && |s.pcs| == s.table.Count() == count
            && (!s.pcs[Split(key, count).home].First? ==>
                  Find(s.table, Split(key, count)) == if key in s.contents then s.contents[key] else NOT_FOUND)
  {
    InitInv(count);
    var ds := RunKeepsInv(Init(count), seq(count, _ => []), run, keys);
    var s, k := RunFrom(Init(count), run), Split(key, count);
    assert HomeOk(s.table, ds[k.home], k.home, s.pcs[k.home]) && StockedAt(s.table, ds, s.contents, key);
    if !s.pcs[k.home].First? {
      PublishedFind(s.table, ds[k.home], k);
    }
  }
}
