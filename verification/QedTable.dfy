/** The QED hash table: chains of buckets threaded through a managed and a free area. */
module QedTable {

  const NOT_FOUND: nat := 0xFFFF_FFFF_FFFF_FFFF
  const PAYLOAD_LIMIT: nat := 0x100_0000_0000_0000

  /** A key split by the bucket count: the home bucket and the bits above it. */
  datatype Key = Key(hi: nat, home: nat)

  /**
   A bucket, field by field: the key's high bits share a word with the position of the next bucket,
   the chain length shares a byte with the flag that says which area the next bucket is in.
   */
  datatype Bucket = Bucket(hi: nat, next: nat, size: nat, internal: bool, payload: nat)

  const EMPTY := Bucket(0, 0, 0, false, 0)

  datatype Loc = Managed(id: nat) | Free(id: nat)

  datatype Root = NoRoot | RootAt(id: nat)

  datatype Table = Table(
    managed: seq<Bucket>,
    free: seq<Bucket>,
    managedRoots: seq<Root>,
    freeRoots: seq<Root>,
    freeCount: nat)
  {
    function Count(): nat { |managed| }

    ghost predicate Shaped() {
      && |free| == |managedRoots| == |freeRoots| == Count() && freeCount <= Count()
      && (forall i | 0 <= i < Count() :: managed[i].size < 128 && managed[i].payload < PAYLOAD_LIMIT)
      && (forall i | 0 <= i < Count() :: free[i].payload < PAYLOAD_LIMIT)
    }
  }

  function Slot(t: Table, l: Loc): Bucket {
    match l
    case Managed(i) => if i < |t.managed| then t.managed[i] else EMPTY
    case Free(i) => if i < |t.free| then t.free[i] else EMPTY
  }

  function RootOf(t: Table, l: Loc): Root {
    match l
    case Managed(i) => if i < |t.managedRoots| then t.managedRoots[i] else NoRoot
    case Free(i) => if i < t.freeCount && i < |t.freeRoots| then t.freeRoots[i] else NoRoot
  }

  function Following(b: Bucket): Loc {
    if b.internal then Managed(b.next) else Free(b.next)
  }

  // ----- Lookup -----

  /** Looks through n buckets of a chain. */
  function FindFrom(t: Table, l: Loc, n: nat, hi: nat): nat
    decreases n
  {
    if n == 0 then NOT_FOUND
    else if Slot(t, l).hi == hi then Slot(t, l).payload
    else FindFrom(t, Following(Slot(t, l)), n - 1, hi)
  }

  function Find(t: Table, k: Key): nat {
    FindFrom(t, Managed(k.home), Slot(t, Managed(k.home)).size, k.hi)
  }

  // ----- Reserve -----

  function Reserved(count: nat): Table {
    Table(seq(count, _ => EMPTY), seq(count, _ => EMPTY), seq(count, _ => NoRoot), seq(count, _ => NoRoot), 0)
  }

  // ----- Insert -----

  function Stored(payload: nat): (r: nat)
    ensures r < PAYLOAD_LIMIT && exists q: nat :: payload == q * PAYLOAD_LIMIT + r
  {
    assert payload == (payload / PAYLOAD_LIMIT) * PAYLOAD_LIMIT + payload % PAYLOAD_LIMIT;
    payload % PAYLOAD_LIMIT
  }

  /** One more in a byte that holds a flag above seven bits of size. */
  function Bumped(b: Bucket): Bucket {
    if b.size == 127 then b.(size := 0, internal := !b.internal) else b.(size := b.size + 1)
  }

  function SetSlot(t: Table, l: Loc, b: Bucket): Table {
    match l
    case Managed(i) => if i < |t.managed| then t.(managed := t.managed[i := b]) else t
    case Free(i) => if i < |t.free| then t.(free := t.free[i := b]) else t
  }

  /** The place of the bucket with these high bits among the first n of a chain, or else the last one. */
  datatype Probe = Hit(at: Loc) | Miss(last: Loc)

  function ProbeFrom(t: Table, l: Loc, n: nat, hi: nat): Probe
    requires n > 0
    decreases n
  {
    if Slot(t, l).hi == hi then Hit(l)
    else if n == 1 then Miss(l)
    else ProbeFrom(t, Following(Slot(t, l)), n - 1, hi)
  }

  datatype Inserted = Placed(table: Table, at: Loc) | Rejected

  /** Insertion into a table none of whose chains has been moved into the managed area. */
  function Insert(t: Table, k: Key, payload: nat): Inserted {
    var home := Managed(k.home);
    var root := Slot(t, home);
    if root.size == 0 then
      Placed(FirstInHome(t, k, payload), home)
    else if root.size == 127 && root.internal then
      Rejected
    else
      match ProbeFrom(t, home, root.size, k.hi)
      case Hit(l) => Placed(SetSlot(t, l, Slot(t, l).(payload := Stored(payload))), l)
      case Miss(last) =>
        if t.freeCount + 1 > t.Count() then Rejected else Placed(Append(t, k, payload, last), Free(t.freeCount))
  }

  function FirstInHome(t: Table, k: Key, payload: nat): Table {
    if k.home < |t.managed| && k.home < |t.managedRoots| then
      t.(managed := t.managed[k.home := Bucket(k.hi, k.home, 1, false, Stored(payload))],
         managedRoots := t.managedRoots[k.home := RootAt(k.home)])
    else t
  }

  /** Takes the next free slot, fills it, links the last bucket of the chain to it and lengthens the chain. */
  function Append(t: Table, k: Key, payload: nat, last: Loc): Table
  {
    var slot := t.freeCount;
    var t1 := t.(freeCount := slot + 1);
    var t2 := SetSlot(t1, Free(slot), Bucket(k.hi, k.home, 0, true, Stored(payload)));
    var t3 := if slot < |t2.freeRoots| then t2.(freeRoots := t2.freeRoots[slot := RootAt(k.home)]) else t2;
    var t4 := SetSlot(t3, last, Slot(t3, last).(next := slot, internal := false));
    SetSlot(t4, Managed(k.home), Bumped(Slot(t4, Managed(k.home))))
  }

  // ----- What the chains look like -----

  type Chain = seq<Loc>

  ghost predicate InBounds(t: Table, l: Loc) {
    l.id < (if l.Managed? then t.Count() else t.freeCount)
  }

  /** c lists the buckets of home h in order. */
  ghost predicate ChainOk(t: Table, c: Chain, h: nat)
    requires h < t.Count()
  {
    && |c| == t.managed[h].size
    && (c != [] ==> c[0] == Managed(h))
    && (forall i | 0 <= i < |c| :: InBounds(t, c[i]) && RootOf(t, c[i]) == RootAt(h))
    && (forall i | 0 < i < |c| :: c[i] != Managed(h) && Slot(t, c[i]).size == 0)
    && Links(t, c, h)
    && DistinctKeys(t, c)
    && forall i, j | 0 <= i < j < |c| :: c[i] != c[j]
  }

  /** Each bucket points to the next one; the last one of several points back home. */
  ghost predicate Links(t: Table, c: Chain, h: nat) {
    && (forall i | 0 <= i < |c| - 1 :: Following(Slot(t, c[i])) == c[i + 1])
    && (|c| > 1 ==> Following(Slot(t, c[|c| - 1])) == Managed(h))
    && (|c| == 1 ==> Following(Slot(t, c[0])) == Free(h))
  }

  ghost predicate DistinctKeys(t: Table, c: Chain) {
    forall i, j | 0 <= i < j < |c| :: Slot(t, c[i]).hi != Slot(t, c[j]).hi
  }

  /** All chains, and every bucket in use lies on the chain of its root. */
  ghost predicate Inv(t: Table, cs: seq<Chain>) {
    && t.Shaped() && |cs| == t.Count()
    && (forall h | 0 <= h < t.Count() :: ChainOk(t, cs[h], h))
    && (forall l | InBounds(t, l) && RootOf(t, l).RootAt? :: RootOf(t, l).id < t.Count() && l in cs[RootOf(t, l).id])
  }

  /** No chain has been moved: managed buckets hold their own first key or nothing. */
  ghost predicate Unmoved(t: Table) {
    forall h | 0 <= h < |t.managedRoots| :: t.managedRoots[h] == NoRoot || t.managedRoots[h] == RootAt(h)
  }
}
