/** Lookup and insertion on buckets as they are stored: a byte, a word and a payload. */
module QedPacked {
  import opened QedTable
  import opened QedRuns
  import opened QedWord

  /** The stored bucket: size and flag, key bits and next id, payload. */
  datatype Raw = Raw(byte: nat, word: nat, payload: nat)

  datatype RawTable = RawTable(managed: seq<Raw>, free: seq<Raw>, managedRoots: seq<Root>, freeRoots: seq<Root>,
                               freeCount: nat)

  const BLANK := Raw(0, 0, 0)

  function Pack(b: Bucket, count: nat): Raw {
    Raw(SizeByte(b), KeyWord(b, count), b.payload)
  }

  function PackAll(bs: seq<Bucket>, count: nat): (r: seq<Raw>)
    ensures |r| == |bs| && forall i | 0 <= i < |bs| :: r[i] == Pack(bs[i], count)
  {
    seq(|bs|, i requires 0 <= i < |bs| => Pack(bs[i], count))
  }

  function PackTable(t: Table): RawTable {
    RawTable(PackAll(t.managed, t.Count()), PackAll(t.free, t.Count()), t.managedRoots, t.freeRoots, t.freeCount)
  }

  /** Every field of every bucket fits its place. */
  ghost predicate Fitting(t: Table) {
    forall l :: Packable(Slot(t, l), t.Count())
  }

  // ----- Operations on stored buckets -----

  function RawSlot(t: RawTable, l: Loc): Raw {
    match l
    case Managed(i) => if i < |t.managed| then t.managed[i] else BLANK
    case Free(i) => if i < |t.free| then t.free[i] else BLANK
  }

  function RawSetSlot(t: RawTable, l: Loc, r: Raw): RawTable {
    match l
    case Managed(i) => if i < |t.managed| then t.(managed := t.managed[i := r]) else t
    case Free(i) => if i < |t.free| then t.(free := t.free[i := r]) else t
  }

  function RawSize(r: Raw): nat {
    r.byte % 128
  }

  function RawFollowing(r: Raw, count: nat): Loc
    requires count > 0
  {
    if r.byte / 128 == 1 then Managed(LowBits(r.word, count)) else Free(LowBits(r.word, count))
  }

  predicate RawMatches(r: Raw, key: nat, count: nat)
    requires count > 0
  {
    HighBits(r.word, count) == HighBits(key, count)
  }

  function RawFindFrom(t: RawTable, l: Loc, n: nat, key: nat, count: nat): nat
    requires count > 0
    decreases n
  {
    if n == 0 then NOT_FOUND
    else if RawMatches(RawSlot(t, l), key, count) then RawSlot(t, l).payload
    else RawFindFrom(t, RawFollowing(RawSlot(t, l), count), n - 1, key, count)
  }

  function RawFind(t: RawTable, key: nat): nat
    requires |t.managed| > 0
  {
    var home := Managed(LowBits(key, |t.managed|));
    RawFindFrom(t, home, RawSize(RawSlot(t, home)), key, |t.managed|)
  }

  function RawProbeFrom(t: RawTable, l: Loc, n: nat, key: nat, count: nat): Probe
    requires n > 0 && count > 0
    decreases n
  {
    if RawMatches(RawSlot(t, l), key, count) then Hit(l)
    else if n == 1 then Miss(l)
    else RawProbeFrom(t, RawFollowing(RawSlot(t, l), count), n - 1, key, count)
  }

  datatype RawInserted = RawPlaced(table: RawTable, at: Loc) | RawRejected

  function RawInsert(t: RawTable, key: nat, payload: nat): RawInserted
    requires |t.managed| > 0
  {
    var count := |t.managed|;
    var h := LowBits(key, count);
    var home := Managed(h);
    var root := RawSlot(t, home);
    if RawSize(root) == 0 then RawPlaced(RawFirst(t, h, key, payload), home)
    else if root.byte == 255 then RawRejected
    else
      match RawProbeFrom(t, home, RawSize(root), key, count)
      case Hit(l) => RawPlaced(RawSetSlot(t, l, RawSlot(t, l).(payload := Stored(payload))), l)
      case Miss(last) =>
        if t.freeCount + 1 > count then RawRejected
        else RawPlaced(RawAppend(t, h, key, payload, last, count), Free(t.freeCount))
  }

  function RawFirst(t: RawTable, h: nat, key: nat, payload: nat): RawTable {
    if h < |t.managed| && h < |t.managedRoots| then
      t.(managed := t.managed[h := Raw(1, key, Stored(payload))], managedRoots := t.managedRoots[h := RootAt(h)])
    else t
  }

  function RawAppend(t: RawTable, h: nat, key: nat, payload: nat, last: Loc, count: nat): RawTable
    requires count > 0
  {
    var slot := t.freeCount;
    var t1 := t.(freeCount := slot + 1);
    var t2 := RawSetSlot(t1, Free(slot), Raw(128, key, Stored(payload)));
    var t3 := if slot < |t2.freeRoots| then t2.(freeRoots := t2.freeRoots[slot := RootAt(h)]) else t2;
    var b := RawSlot(t3, last);
    var t4 := RawSetSlot(t3, last, b.(byte := WithFlag(b.byte, false), word := SetNext(b.word, slot, count)));
    var root := RawSlot(t4, Managed(h));
    RawSetSlot(t4, Managed(h), root.(byte := OneMore(root.byte)))
  }

  // ----- They are the operations on fields -----

  lemma PackSlot(t: Table, l: Loc)
    ensures RawSlot(PackTable(t), l) == Pack(Slot(t, l), t.Count())
  {
  }

  lemma PackSetSlot(t: Table, l: Loc, b: Bucket)
    ensures PackTable(SetSlot(t, l, b)) == RawSetSlot(PackTable(t), l, Pack(b, t.Count()))
  {
    var u := SetSlot(t, l, b);
    assert PackAll(u.managed, t.Count()) == RawSetSlot(PackTable(t), l, Pack(b, t.Count())).managed;
    assert PackAll(u.free, t.Count()) == RawSetSlot(PackTable(t), l, Pack(b, t.Count())).free;
  }

  /** What one stored bucket says about a key. */
  lemma PackReads(b: Bucket, count: nat, key: nat)
    requires count > 0 && Packable(b, count)
    ensures RawSize(Pack(b, count)) == b.size && RawFollowing(Pack(b, count), count) == Following(b)
    ensures RawMatches(Pack(b, count), key, count) <==> b.hi == Split(key, count).hi
    ensures Pack(b, count).byte == 255 <==> b.size == 127 && b.internal
  {
    UnpackPacked(b, count, key);
  }

  lemma {:induction false} PackFindFrom(t: Table, l: Loc, n: nat, key: nat)
    requires t.Count() > 0 && Fitting(t)
    ensures RawFindFrom(PackTable(t), l, n, key, t.Count()) == FindFrom(t, l, n, Split(key, t.Count()).hi)
    decreases n
  {
    if n > 0 {
      PackSlot(t, l);
      PackReads(Slot(t, l), t.Count(), key);
      PackFindFrom(t, Following(Slot(t, l)), n - 1, key);
    }
  }

  lemma {:induction false} PackProbeFrom(t: Table, l: Loc, n: nat, key: nat)
    requires t.Count() > 0 && Fitting(t) && n > 0
    ensures RawProbeFrom(PackTable(t), l, n, key, t.Count()) == ProbeFrom(t, l, n, Split(key, t.Count()).hi)
    decreases n
  {
    PackSlot(t, l);
    PackReads(Slot(t, l), t.Count(), key);
    if n > 1 {
      PackProbeFrom(t, Following(Slot(t, l)), n - 1, key);
    }
  }

  /** A lookup in the stored table is the lookup in the table of fields. */
  lemma PackedFind(t: Table, key: nat)
    requires t.Count() > 0 && Fitting(t)
    ensures RawFind(PackTable(t), key) == Find(t, Split(key, t.Count()))
  {
    var home := Managed(Split(key, t.Count()).home);
    PackSlot(t, home);
    PackReads(Slot(t, home), t.Count(), key);
    PackFindFrom(t, home, Slot(t, home).size, key);
  }

  lemma PackFirst(t: Table, key: nat, payload: nat)
    requires t.Count() > 0
    ensures PackTable(FirstInHome(t, Split(key, t.Count()), payload))
            == RawFirst(PackTable(t), Split(key, t.Count()).home, key, payload)
  {
    var k, u := Split(key, t.Count()), FirstInHome(t, Split(key, t.Count()), payload);
    StoredKeyIsKey(key, t.Count(), Stored(payload));
    assert PackAll(u.managed, t.Count()) == RawFirst(PackTable(t), k.home, key, payload).managed;
  }

  // The three parts of an append, on fields: fill a free slot, link the last bucket, count at the root.

  function Fill(t: Table, k: Key, payload: nat): Table {
    var t2 := SetSlot(t.(freeCount := t.freeCount + 1), Free(t.freeCount),
                      Bucket(k.hi, k.home, 0, true, Stored(payload)));
    if t.freeCount < |t2.freeRoots| then t2.(freeRoots := t2.freeRoots[t.freeCount := RootAt(k.home)]) else t2
  }

  function Link(t: Table, last: Loc, slot: nat): Table {
    SetSlot(t, last, Slot(t, last).(next := slot, internal := false))
  }

  function Lengthen(t: Table, h: nat): Table {
    SetSlot(t, Managed(h), Bumped(Slot(t, Managed(h))))
  }

  lemma PackFill(t: Table, key: nat, payload: nat)
    requires t.Count() > 0
    ensures var k, slot, raw := Split(key, t.Count()), t.freeCount, PackTable(t);
            var t2 := RawSetSlot(raw.(freeCount := slot + 1), Free(slot), Raw(128, key, Stored(payload)));
            PackTable(Fill(t, k, payload))
            == if slot < |t2.freeRoots| then t2.(freeRoots := t2.freeRoots[slot := RootAt(k.home)]) else t2
  {
    var k, slot := Split(key, t.Count()), t.freeCount;
    NewBucket(key, t.Count(), payload);
    PackSetSlot(t.(freeCount := slot + 1), Free(slot), Bucket(k.hi, k.home, 0, true, Stored(payload)));
  }

  lemma PackLink(t: Table, last: Loc, slot: nat)
    requires slot < t.Count() && Fitting(t)
    ensures var b := RawSlot(PackTable(t), last);
            PackTable(Link(t, last, slot))
            == RawSetSlot(PackTable(t), last,
                          b.(byte := WithFlag(b.byte, false), word := SetNext(b.word, slot, t.Count())))
  {
    var b, count := Slot(t, last), t.Count();
    PackSlot(t, last);
    assert Packable(b, count);
    PackLinked(b, count, slot);
    PackSetSlot(t, last, b.(next := slot, internal := false));
  }

  lemma PackBumped(b: Bucket, count: nat)
    requires Packable(b, count)
    ensures Pack(Bumped(b), count) == Pack(b, count).(byte := OneMore(SizeByte(b)))
  {
    WriteByte(b, count, 0, false);
    assert KeyWord(Bumped(b), count) == KeyWord(b, count);
  }

  lemma PackLinked(b: Bucket, count: nat, slot: nat)
    requires slot < count && Packable(b, count)
    ensures Pack(b.(next := slot, internal := false), count)
            == Pack(b, count).(byte := WithFlag(SizeByte(b), false), word := SetNext(KeyWord(b, count), slot, count))
  {
    WriteWord(b, count, slot, 0);
    WriteByte(b, count, 0, false);
  }

  lemma PackLengthen(t: Table, h: nat)
    requires t.Count() > 0 && Fitting(t)
    ensures var root := RawSlot(PackTable(t), Managed(h));
            PackTable(Lengthen(t, h)) == RawSetSlot(PackTable(t), Managed(h), root.(byte := OneMore(root.byte)))
  {
    var root := Slot(t, Managed(h));
    PackSlot(t, Managed(h));
    assert Packable(root, t.Count());
    PackBumped(root, t.Count());
    PackSetSlot(t, Managed(h), Bumped(root));
  }

  lemma SetSlotFits(t: Table, l: Loc, b: Bucket)
    requires Fitting(t) && Packable(b, t.Count())
    ensures Fitting(SetSlot(t, l, b))
  {
    forall at ensures Packable(Slot(SetSlot(t, l, b), at), t.Count()) {
      assert Packable(Slot(t, at), t.Count());
      assert Slot(SetSlot(t, l, b), at) == Slot(t, at) || Slot(SetSlot(t, l, b), at) == b;
    }
  }

  lemma SameSlotsFit(t: Table, u: Table)
    requires Fitting(t) && u.managed == t.managed && u.free == t.free
    ensures Fitting(u)
  {
    forall at ensures Packable(Slot(u, at), u.Count()) {
      assert Packable(Slot(t, at), t.Count()) && Slot(u, at) == Slot(t, at);
    }
  }

  lemma FillFits(t: Table, k: Key, payload: nat)
    requires Fitting(t) && k.home < t.Count()
    ensures Fitting(Fill(t, k, payload))
  {
    var t1, filled := t.(freeCount := t.freeCount + 1), Bucket(k.hi, k.home, 0, true, Stored(payload));
    SameSlotsFit(t, t1);
    SetSlotFits(t1, Free(t.freeCount), filled);
    SameSlotsFit(SetSlot(t1, Free(t.freeCount), filled), Fill(t, k, payload));
  }

  lemma LinkFits(t: Table, last: Loc, slot: nat)
    requires Fitting(t) && slot < t.Count()
    ensures Fitting(Link(t, last, slot))
  {
    assert Packable(Slot(t, last), t.Count());
    SetSlotFits(t, last, Slot(t, last).(next := slot, internal := false));
  }

  lemma LengthenFits(t: Table, h: nat)
    requires Fitting(t)
    ensures Fitting(Lengthen(t, h))
  {
    assert Packable(Slot(t, Managed(h)), t.Count());
    SetSlotFits(t, Managed(h), Bumped(Slot(t, Managed(h))));
  }

  lemma PackAppend(t: Table, key: nat, payload: nat, last: Loc)
    requires t.Count() > 0 && Fitting(t) && t.freeCount < t.Count()
    ensures var u := Append(t, Split(key, t.Count()), payload, last);
            PackTable(u) == RawAppend(PackTable(t), Split(key, t.Count()).home, key, payload, last, t.Count())
              && Fitting(u)
  {
    var k, slot := Split(key, t.Count()), t.freeCount;
    var t3 := Fill(t, k, payload);
    PackFill(t, key, payload);
    FillFits(t, k, payload);
    PackLink(t3, last, slot);
    LinkFits(t3, last, slot);
    PackLengthen(Link(t3, last, slot), k.home);
    LengthenFits(Link(t3, last, slot), k.home);
    assert Append(t, k, payload, last) == Lengthen(Link(t3, last, slot), k.home);
  }

  lemma NewBucket(key: nat, count: nat, payload: nat)
    requires count > 0
    ensures Pack(Bucket(key / count, key % count, 0, true, Stored(payload)), count) == Raw(128, key, Stored(payload))
  {
    StoredKeyIsKey(key, count, Stored(payload));
  }

  /** An insertion into the stored table is the insertion into the table of fields. */
  lemma PackedInsert(t: Table, key: nat, payload: nat)
    requires t.Count() > 0 && Fitting(t)
    ensures match Insert(t, Split(key, t.Count()), payload)
            case Rejected => RawInsert(PackTable(t), key, payload) == RawRejected
            case Placed(u, l) => RawInsert(PackTable(t), key, payload) == RawPlaced(PackTable(u), l)
  {
    var k := Split(key, t.Count());
    var home := Managed(k.home);
    PackSlot(t, home);
    PackReads(Slot(t, home), t.Count(), key);
    if Slot(t, home).size == 0 {
      PackFirst(t, key, payload);
    } else {
      PackProbeFrom(t, home, Slot(t, home).size, key);
      match ProbeFrom(t, home, Slot(t, home).size, k.hi)
      case Hit(l) =>
        PackSlot(t, l);
        PackSetSlot(t, l, Slot(t, l).(payload := Stored(payload)));
      case Miss(last) =>
        if t.freeCount < t.Count() {
          PackAppend(t, key, payload, last);
        }
    }
  }

  // ----- Every table that insertions make fits -----

  lemma FreshFits(count: nat)
    requires count > 0
    ensures Fitting(Reserved(count))
  {
  }

  lemma InsertFits(t: Table, key: nat, payload: nat)
    requires t.Count() > 0 && Fitting(t) && Insert(t, Split(key, t.Count()), payload).Placed?
    ensures Fitting(Insert(t, Split(key, t.Count()), payload).table)
  {
    var k := Split(key, t.Count());
    var home := Managed(k.home);
    if Slot(t, home).size == 0 {
      var first := Bucket(k.hi, k.home, 1, false, Stored(payload));
      SetSlotFits(t, home, first);
      if k.home < |t.managedRoots| {
        SameSlotsFit(SetSlot(t, home, first), FirstInHome(t, k, payload));
      }
    } else {
      match ProbeFrom(t, home, Slot(t, home).size, k.hi)
      case Hit(l) =>
        assert Packable(Slot(t, l), t.Count());
        SetSlotFits(t, l, Slot(t, l).(payload := Stored(payload)));
      case Miss(last) => PackAppend(t, key, payload, last);
    }
  }

  /** The stored table after a run of insertions. */
  function RawRun(t: RawTable, puts: seq<Put>): RawTable
    requires |t.managed| > 0
    decreases |puts|
  {
    if puts == [] then t
    else
      match RawInsert(t, puts[0].key, puts[0].payload)
      case RawRejected => RawRun(t, puts[1..])
      case RawPlaced(u, _) => if |u.managed| > 0 then RawRun(u, puts[1..]) else u
  }

  lemma {:induction false} PackedRun(s: Model, puts: seq<Put>)
    requires s.table.Count() > 0 && Fitting(s.table)
    ensures RawRun(PackTable(s.table), puts) == PackTable(Run(s, puts).table) && Fitting(Run(s, puts).table)
    decreases |puts|
  {
    if puts != [] {
      var p := puts[0];
      PackedInsert(s.table, p.key, p.payload);
      if Insert(s.table, Split(p.key, s.table.Count()), p.payload).Placed? {
        InsertFits(s.table, p.key, p.payload);
      }
      PackedRun(Step(s, p), puts[1..]);
    }
  }

  /** After any insertions, a lookup on bytes and words gives what the map says. */
  lemma PackedTableIsMap(count: nat, puts: seq<Put>, key: nat)
    requires count > 0 && FewPerHome(KeysOf(puts), count)
    ensures var s, raw := Run(Start(count), puts), RawRun(PackTable(Reserved(count)), puts);
            |raw.managed| > 0 && RawFind(raw, key) == if key in s.contents then s.contents[key] else NOT_FOUND
  {
    FreshFits(count);
    PackedRun(Start(count), puts);
    PackedFind(Run(Start(count), puts).table, key);
    TableIsMap(count, puts, key);
  }
}
