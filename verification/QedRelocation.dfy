/** Moving chained buckets next to their root does not change any lookup. */
module QedRelocation {
  import opened QedTable
  import opened QedRefinement
  import opened QedRuns

  /** The bucket among the first n of a chain that points to `to`. */
  datatype Parent = NoParent | ParentAt(at: Loc)

  function ParentFrom(t: Table, l: Loc, n: nat, to: Loc): Parent
    decreases n
  {
    if n == 0 then NoParent
    else if Following(Slot(t, l)) == to then ParentAt(l)
    else ParentFrom(t, Following(Slot(t, l)), n - 1, to)
  }

  function FindParent(t: Table, l: Loc): Parent {
    match RootOf(t, l)
    case NoRoot => NoParent
    case RootAt(r) => ParentFrom(t, Managed(r), Slot(t, Managed(r)).size, l)
  }

  /** The first unused managed slot in [lo, hi) other than the root. */
  datatype Spot = NoSpot | SpotAt(id: nat)

  predicate Unused(t: Table, i: nat) {
    RootOf(t, Managed(i)) == NoRoot && Slot(t, Managed(i)).size == 0
  }

  function FirstUnused(t: Table, root: nat, lo: nat, hi: nat): (s: Spot)
    ensures s.SpotAt? ==> lo <= s.id < hi && s.id != root && Unused(t, s.id)
    ensures s.SpotAt? ==> forall i | lo <= i < s.id :: i == root || !Unused(t, i)
    ensures s.NoSpot? ==> forall i | lo <= i < hi :: i == root || !Unused(t, i)
    decreases hi - lo
  {
    if lo >= hi then NoSpot
    else if lo != root && Unused(t, lo) then SpotAt(lo)
    else FirstUnused(t, root, lo + 1, hi)
  }

  function WindowStart(root: nat): nat {
    root - root % 4
  }

  function WindowEnd(t: Table, root: nat, level: nat): nat {
    if WindowStart(root) + 4 + level * 4 < t.Count() then WindowStart(root) + 4 + level * 4 else t.Count()
  }

  /** The slot is claimed for the root and the bucket copied into it. */
  function Claim(t: Table, root: nat, l: Loc, m: nat): Table {
    if m < |t.managed| && m < |t.managedRoots| then
      t.(managed := t.managed[m := Slot(t, l)], managedRoots := t.managedRoots[m := RootAt(root)])
    else t
  }

  /** The parent is redirected to the copy and the free bucket given up. */
  function Redirect(t: Table, parent: Loc, l: Loc, m: nat): Table {
    var u := SetSlot(t, parent, Slot(t, parent).(internal := true, next := m));
    if l.id < |u.freeRoots| then u.(freeRoots := u.freeRoots[l.id := NoRoot]) else u
  }

  datatype Optimized = Optimized(table: Table, moved: bool)

  function Optimize(t: Table, l: Loc, level: nat): Optimized {
    match RootOf(t, l)
    case NoRoot => Optimized(t, false)
    case RootAt(root) =>
      if l.Managed? then Optimized(t, false)
      else
        match FirstUnused(t, root, WindowStart(root), WindowEnd(t, root, level))
        case NoSpot => Optimized(t, false)
        case SpotAt(m) => OptimizeInto(t, root, l, m)
  }

  function OptimizeInto(t: Table, root: nat, l: Loc, m: nat): Optimized {
    var u := Claim(t, root, l, m);
    match FindParent(u, l)
    case NoParent => Optimized(u, false)
    case ParentAt(p) =>
      if Slot(u, p).internal || Slot(u, p).next != l.id then Optimized(u, false)
      else Optimized(Redirect(u, p, l, m), true)
  }

  // ----- The parent is the bucket before -----

  lemma {:induction false} ParentIsPrevious(t: Table, c: Chain, i: nat)
    requires 0 < i < |c|
    requires forall j | 0 <= j < |c| - 1 :: Following(Slot(t, c[j])) == c[j + 1]
    requires forall a, b | 0 <= a < b < |c| :: c[a] != c[b]
    ensures ParentFrom(t, c[0], |c|, c[i]) == ParentAt(c[i - 1])
    decreases i
  {
    assert Following(Slot(t, c[0])) == c[1];
    if i > 1 {
      assert c[1] != c[i];
      var rest := c[1..];
      forall j | 0 <= j < |rest| - 1 ensures Following(Slot(t, rest[j])) == rest[j + 1] {
        assert Following(Slot(t, c[j + 1])) == c[j + 2];
      }
      forall a, b | 0 <= a < b < |rest| ensures rest[a] != rest[b] {
        assert c[a + 1] != c[b + 1];
      }
      ParentIsPrevious(t, rest, i - 1);
    }
  }

  /** u is t with bucket i of chain c, of home h, moved into managed slot m. */
  ghost predicate Moves(t: Table, u: Table, c: Chain, h: nat, i: nat, m: nat)
    requires 0 < i < |c|
  {
    && u.Count() == t.Count() && u.freeCount == t.freeCount
    && Slot(u, Managed(m)) == Slot(t, c[i]) && RootOf(u, Managed(m)) == RootAt(h) && RootOf(u, c[i]) == NoRoot
    && Slot(u, c[i - 1]) == Slot(t, c[i - 1]).(internal := true, next := m)
    && (forall l | l != Managed(m) && l != c[i - 1] :: Slot(u, l) == Slot(t, l))
    && (forall l | l != Managed(m) && l != c[i] :: RootOf(u, l) == RootOf(t, l))
  }

  lemma ChainMoved(t: Table, u: Table, c: Chain, h: nat, i: nat, m: nat)
    requires h < t.Count() && m < t.Count() && ChainOk(t, c, h) && 0 < i < |c| && Moves(t, u, c, h, i, m)
    requires Managed(m) !in c
    ensures ChainOk(u, c[i := Managed(m)], h)
    ensures forall hi :: Search(u, c[i := Managed(m)], hi) == Search(t, c, hi)
  {
    var d := c[i := Managed(m)];
    assert c[0] == Managed(h) && InBounds(t, c[i]);
    forall j | 0 <= j < |d| ensures
        && Slot(u, d[j]) == (if j == i - 1 then Slot(t, c[j]).(internal := true, next := m) else Slot(t, c[j]))
        && RootOf(u, d[j]) == RootAt(h) && InBounds(u, d[j])
    {
      if j != i { assert c[j] != c[i] && InBounds(t, c[j]) && RootOf(t, c[j]) == RootAt(h); }
    }
    forall j | 0 <= j < |d| - 1 ensures Following(Slot(u, d[j])) == d[j + 1] {
      assert Following(Slot(t, c[j])) == c[j + 1];
    }
    assert Links(u, d, h) && DistinctKeys(u, d);
    forall hi ensures Search(u, d, hi) == Search(t, c, hi) { SearchMoved(t, u, c, d, hi); }
  }

  lemma {:induction false} SearchMoved(t: Table, u: Table, c: Chain, d: Chain, hi: nat)
    requires |c| == |d|
    requires forall j | 0 <= j < |c| ::
               Slot(u, d[j]).hi == Slot(t, c[j]).hi && Slot(u, d[j]).payload == Slot(t, c[j]).payload
    ensures Search(u, d, hi) == Search(t, c, hi)
    decreases |c|
  {
    if c != [] {
      assert Slot(u, d[0]).hi == Slot(t, c[0]).hi;
      forall j | 0 <= j < |c[1..]| ensures
          && Slot(u, d[1..][j]).hi == Slot(t, c[1..][j]).hi && Slot(u, d[1..][j]).payload == Slot(t, c[1..][j]).payload
      {
        assert Slot(u, d[j + 1]).hi == Slot(t, c[j + 1]).hi;
      }
      SearchMoved(t, u, c[1..], d[1..], hi);
    }
  }

  /** Chains keep their answers: same keys, same payloads, bucket by bucket. */
  ghost predicate SameAnswers(t: Table, u: Table, cs: seq<Chain>, ds: seq<Chain>) {
    |cs| == |ds| && forall o, hi | 0 <= o < |cs| :: Search(u, ds[o], hi) == Search(t, cs[o], hi)
  }

  lemma NoChainUses(t: Table, cs: seq<Chain>, m: nat)
    requires Inv(t, cs) && Unused(t, m)
    ensures forall o | 0 <= o < |cs| :: Managed(m) !in cs[o]
  {
    forall o | 0 <= o < |cs| ensures Managed(m) !in cs[o] {
      assert ChainOk(t, cs[o], o);
    }
  }

  /** In a table with intact chains a managed slot is unused exactly if it is on no chain. */
  lemma UnusedIsUnchained(t: Table, cs: seq<Chain>, m: nat)
    requires Inv(t, cs) && m < t.Count()
    ensures Unused(t, m) <==> forall o | 0 <= o < |cs| :: Managed(m) !in cs[o]
  {
    if Unused(t, m) {
      NoChainUses(t, cs, m);
    } else {
      assert ChainOk(t, cs[m], m) && InBounds(t, Managed(m));
      if RootOf(t, Managed(m)).RootAt? {
        assert Managed(m) in cs[RootOf(t, Managed(m)).id];
      }
    }
  }

  lemma MoveKeeps(t: Table, u: Table, cs: seq<Chain>, h: nat, i: nat, m: nat)
    requires Inv(t, cs) && h < t.Count() && m < t.Count() && 0 < i < |cs[h]| && Unused(t, m)
    requires u.Shaped() && Moves(t, u, cs[h], h, i, m)
    ensures Inv(u, cs[h := cs[h][i := Managed(m)]]) && SameAnswers(t, u, cs, cs[h := cs[h][i := Managed(m)]])
  {
    var c := cs[h];
    var ds := cs[h := c[i := Managed(m)]];
    assert ChainOk(t, c, h);
    NoChainUses(t, cs, m);
    ChainMoved(t, u, c, h, i, m);
    forall o | 0 <= o < t.Count()
      ensures ChainOk(u, ds[o], o) && forall hi :: Search(u, ds[o], hi) == Search(t, cs[o], hi)
    {
      if o != h {
        OtherUntouched(t, u, cs, h, i, m, o);
      }
    }
    OwnershipKept(t, u, cs, h, i, m);
  }

  lemma OtherUntouched(t: Table, u: Table, cs: seq<Chain>, h: nat, i: nat, m: nat, o: nat)
    requires Inv(t, cs) && h < t.Count() && m < t.Count() && 0 < i < |cs[h]| && Unused(t, m)
             && Moves(t, u, cs[h], h, i, m)
    requires o < t.Count() && o != h && Managed(m) !in cs[o]
    ensures ChainOk(u, cs[o], o) && forall hi :: Search(u, cs[o], hi) == Search(t, cs[o], hi)
  {
    assert ChainOk(t, cs[o], o) && ChainOk(t, cs[h], h);
    var a, b := cs[h][i - 1], cs[h][i];
    assert RootOf(t, a) == RootOf(t, b) == RootAt(h);
    forall j | 0 <= j < |cs[o]|
      ensures InBounds(u, cs[o][j]) && Slot(u, cs[o][j]) == Slot(t, cs[o][j])
              && RootOf(u, cs[o][j]) == RootOf(t, cs[o][j])
    {
      assert RootOf(t, cs[o][j]) == RootAt(o) && InBounds(t, cs[o][j]);
    }
    assert Slot(u, Managed(o)).size == Slot(t, Managed(o)).size by {
      if o == m { assert Slot(t, b).size == 0; }
    }
    ChainFrame(t, u, cs[o], o);
  }

  lemma OwnershipKept(t: Table, u: Table, cs: seq<Chain>, h: nat, i: nat, m: nat)
    requires Inv(t, cs) && h < t.Count() && m < t.Count() && 0 < i < |cs[h]| && Moves(t, u, cs[h], h, i, m)
    ensures var ds := cs[h := cs[h][i := Managed(m)]];
            forall l | InBounds(u, l) && RootOf(u, l).RootAt? :: RootOf(u, l).id < u.Count() && l in ds[RootOf(u, l).id]
  {
    var c := cs[h];
    var d := c[i := Managed(m)];
    var ds := cs[h := d];
    forall l | InBounds(u, l) && RootOf(u, l).RootAt? ensures RootOf(u, l).id < u.Count() && l in ds[RootOf(u, l).id] {
      if l == Managed(m) {
        assert d[i] == l;
      } else {
        assert InBounds(t, l) && RootOf(u, l) == RootOf(t, l) && l != c[i];
        if RootOf(t, l).id == h {
          var j :| 0 <= j < |c| && c[j] == l;
          assert d[j] == l;
        }
      }
    }
  }

  // ----- One call -----

  /** What a successful call did. */
  datatype Move = Move(home: nat, index: nat, into: nat)

  ghost predicate Relocates(t: Table, u: Table, cs: seq<Chain>, ds: seq<Chain>, l: Loc, mv: Move) {
    && mv.home < |cs| && mv.index < |cs[mv.home]| && cs[mv.home][mv.index] == l && l.Free?
    && (forall o | 0 <= o < |cs| :: Managed(mv.into) !in cs[o])
    && ds == cs[mv.home := cs[mv.home][mv.index := Managed(mv.into)]]
  }

  /** Slot m is on the cache line of the root, or on one of the `level` lines behind it. */
  ghost predicate Near(m: nat, root: nat, level: nat, count: nat) {
    m < count && m != root && root / 4 <= m / 4 <= root / 4 + level
  }

  /** Slot m is the first unused one near the root. */
  ghost predicate FirstNear(t: Table, m: nat, root: nat, level: nat) {
    Near(m, root, level, t.Count()) && Unused(t, m) && forall i: nat | i < m && Near(i, root, level, t.Count()) ::
      !Unused(t, i)
  }

  /** The scan finds the first unused slot near the root if there is one. */
  lemma ScanFindsFirst(t: Table, root: nat, level: nat)
    ensures var s := FirstUnused(t, root, WindowStart(root), WindowEnd(t, root, level));
            && (s.SpotAt? ==> FirstNear(t, s.id, root, level))
            && (s.NoSpot? ==> forall m: nat | Near(m, root, level, t.Count()) :: !Unused(t, m))
  {
    forall m: nat ensures Near(m, root, level, t.Count()) <==>
                    m != root && WindowStart(root) <= m < WindowEnd(t, root, level)
    {
      assert m / 4 >= root / 4 <==> m >= WindowStart(root);
    }
  }

  ghost predicate SomeNear(t: Table, root: nat, level: nat) {
    exists m: nat :: Near(m, root, level, t.Count()) && Unused(t, m)
  }

  lemma OptimizeDecides(t: Table, l: Loc, level: nat) returns (m: nat)
    ensures if l.Free? && RootOf(t, l).RootAt? && SomeNear(t, RootOf(t, l).id, level)
            then FirstNear(t, m, RootOf(t, l).id, level)
              && Optimize(t, l, level) == OptimizeInto(t, RootOf(t, l).id, l, m)
            else Optimize(t, l, level) == Optimized(t, false)
  {
    m := 0;
    if l.Free? && RootOf(t, l).RootAt? {
      var h := RootOf(t, l).id;
      ScanFindsFirst(t, h, level);
      var spot := FirstUnused(t, h, WindowStart(h), WindowEnd(t, h, level));
      if spot.SpotAt? {
        m := spot.id;
      }
    }
  }

  /**
   A call either changes nothing or moves exactly one bucket of one chain into a managed slot that no
   chain used before. It moves one exactly when the bucket is chained and some slot near its root is unused, and
   then into the first such slot.
   */
  lemma OptimizeKeeps(t: Table, cs: seq<Chain>, l: Loc, level: nat) returns (ds: seq<Chain>, mv: Move)
    requires Inv(t, cs)
    ensures var r := Optimize(t, l, level);
            && Inv(r.table, ds) && SameAnswers(t, r.table, cs, ds)
            && (!r.moved ==> r.table == t && ds == cs)
            && (r.moved ==> Relocates(t, r.table, cs, ds, l, mv))
            && (r.moved ==> RootOf(t, l) == RootAt(mv.home) && FirstNear(t, mv.into, mv.home, level))
            && (r.moved <==> l.Free? && RootOf(t, l).RootAt? && SomeNear(t, RootOf(t, l).id, level))
  {
    ds, mv := cs, Move(0, 0, 0);
    var m := OptimizeDecides(t, l, level);
    if l.Free? && RootOf(t, l).RootAt? && SomeNear(t, RootOf(t, l).id, level) {
      var h := RootOf(t, l).id;
      assert InBounds(t, l);
      assert l in cs[h];
      var i :| 0 <= i < |cs[h]| && cs[h][i] == l;
      MoveInto(t, cs, h, i, m);
      ds, mv := cs[h := cs[h][i := Managed(m)]], Move(h, i, m);
    }
  }

  lemma {:induction false} ParentPoints(t: Table, l: Loc, n: nat, to: Loc)
    ensures ParentFrom(t, l, n, to).ParentAt? ==> Following(Slot(t, ParentFrom(t, l, n, to).at)) == to
    decreases n
  {
    if n > 0 {
      ParentPoints(t, Following(Slot(t, l)), n - 1, to);
    }
  }

  /**
   In any table, a call that has claimed a slot succeeds exactly if some bucket of the chain points to the one given.
   */
  lemma IntoIsExact(t: Table, root: nat, l: Loc, m: nat)
    requires l.Free?
    ensures var u, r := Claim(t, root, l, m), OptimizeInto(t, root, l, m);
            && (r.moved <==> FindParent(u, l).ParentAt?) && (!r.moved ==> r.table == u)
            && (r.moved ==>
               Following(Slot(u, FindParent(u, l).at)) == l && r.table == Redirect(u, FindParent(u, l).at, l, m))
  {
    var u := Claim(t, root, l, m);
    match RootOf(u, l)
    case NoRoot =>
    case RootAt(h) => ParentPoints(u, Managed(h), Slot(u, Managed(h)).size, l);
  }

  /** Moving a bucket into an unused slot always succeeds. */
  lemma MoveInto(t: Table, cs: seq<Chain>, h: nat, i: nat, m: nat)
    requires Inv(t, cs) && h < t.Count() && m < t.Count() && i < |cs[h]| && cs[h][i].Free? && Unused(t, m) && m != h
    ensures var r, ds := OptimizeInto(t, h, cs[h][i], m), cs[h := cs[h][i := Managed(m)]];
            r.moved && Inv(r.table, ds) && SameAnswers(t, r.table, cs, ds)
    ensures forall o | 0 <= o < |cs| :: Managed(m) !in cs[o]
  {
    ParentFound(t, cs, h, i, m);
    MoveEffect(t, cs, h, i, m);
    MoveKeeps(t, Redirect(Claim(t, h, cs[h][i], m), cs[h][i - 1], cs[h][i], m), cs, h, i, m);
    NoChainUses(t, cs, m);
  }

  lemma ParentFound(t: Table, cs: seq<Chain>, h: nat, i: nat, m: nat)
    requires Inv(t, cs) && h < t.Count() && m < t.Count() && i < |cs[h]| && cs[h][i].Free? && Unused(t, m) && m != h
    ensures i > 0 && FindParent(Claim(t, h, cs[h][i], m), cs[h][i]) == ParentAt(cs[h][i - 1])
    ensures !Slot(Claim(t, h, cs[h][i], m), cs[h][i - 1]).internal
            && Slot(Claim(t, h, cs[h][i], m), cs[h][i - 1]).next == cs[h][i].id
  {
    var c := cs[h];
    var l, u := c[i], Claim(t, h, c[i], m);
    assert ChainOk(t, c, h);
    assert c[0] == Managed(h);
    forall j | 0 <= j < |c| ensures c[j] != Managed(m) && Slot(u, c[j]) == Slot(t, c[j]) {
      assert RootOf(t, c[j]) == RootAt(h);
    }
    forall j | 0 <= j < |c| - 1 ensures Following(Slot(u, c[j])) == c[j + 1] {
      assert Following(Slot(t, c[j])) == c[j + 1];
    }
    ParentIsPrevious(u, c, i);
    assert RootOf(u, l) == RootAt(h) && Slot(u, Managed(h)).size == |c|;
    assert Following(Slot(u, c[i - 1])) == l;
  }

  lemma MoveEffect(t: Table, cs: seq<Chain>, h: nat, i: nat, m: nat)
    requires Inv(t, cs) && h < t.Count() && m < t.Count() && 0 < i < |cs[h]| && cs[h][i].Free? && Unused(t, m) && m != h
    ensures var u := Redirect(Claim(t, h, cs[h][i], m), cs[h][i - 1], cs[h][i], m);
            u.Shaped() && Moves(t, u, cs[h], h, i, m)
  {
    var c := cs[h];
    assert ChainOk(t, c, h);
    assert InBounds(t, c[i]) && InBounds(t, c[i - 1]) && c[i - 1] != c[i];
    assert RootOf(t, c[i - 1]) == RootAt(h);
    assert Slot(t, c[i]).size == 0;
  }

  // ----- Every run of calls -----

  datatype Call = Call(at: Loc, level: nat)

  function OptimizeAll(t: Table, calls: seq<Call>): Table
    decreases |calls|
  {
    if calls == [] then t else OptimizeAll(Optimize(t, calls[0].at, calls[0].level).table, calls[1..])
  }

  lemma {:induction false} RelocationKeepsLookups(t: Table, cs: seq<Chain>, calls: seq<Call>) returns (ds: seq<Chain>)
    requires Inv(t, cs)
    ensures Inv(OptimizeAll(t, calls), ds) && SameAnswers(t, OptimizeAll(t, calls), cs, ds)
    ensures forall k: Key | k.home < t.Count() :: Find(OptimizeAll(t, calls), k) == Find(t, k)
    decreases |calls|
  {
    ds := cs;
    if calls != [] {
      var es, _ := OptimizeKeeps(t, cs, calls[0].at, calls[0].level);
      ds := RelocationKeepsLookups(Optimize(t, calls[0].at, calls[0].level).table, es, calls[1..]);
    }
    forall k: Key | k.home < t.Count() ensures Find(OptimizeAll(t, calls), k) == Find(t, k) {
      FindIsSearch(t, cs, k);
      FindIsSearch(OptimizeAll(t, calls), ds, k);
    }
  }

  /** Insertions first, then any relocations: lookups still are those of the map. */
  lemma InsertsThenMoves(count: nat, puts: seq<Put>, calls: seq<Call>, key: nat)
    requires count > 0 && FewPerHome(KeysOf(puts), count)
    ensures var s := Run(Start(count), puts);
            Find(OptimizeAll(s.table, calls), Split(key, count))
              == if key in s.contents then s.contents[key] else NOT_FOUND
  {
    StartInv(count);
    var cs := RunKeepsInv(Start(count), seq(count, _ => []), puts, KeysOf(puts));
    var ds := RelocationKeepsLookups(Run(Start(count), puts).table, cs, calls);
    TableIsMap(count, puts, key);
  }
}
