/** The hash table behaves like a map. */
module QedRefinement {
  import opened QedTable

  /** Search along an explicit chain. */
  function Search(t: Table, c: Chain, hi: nat): nat {
    if c == [] then NOT_FOUND
    else if Slot(t, c[0]).hi == hi then Slot(t, c[0]).payload
    else Search(t, c[1..], hi)
  }

  lemma {:induction false} FindFromIsSearch(t: Table, c: Chain, hi: nat)
    requires c != [] && forall i | 0 <= i < |c| - 1 :: Following(Slot(t, c[i])) == c[i + 1]
    ensures FindFrom(t, c[0], |c|, hi) == Search(t, c, hi)
    decreases |c|
  {
    if |c| > 1 {
      assert Following(Slot(t, c[0])) == c[1];
      forall i | 0 <= i < |c[1..]| - 1 ensures Following(Slot(t, c[1..][i])) == c[1..][i + 1] {
        assert Following(Slot(t, c[i + 1])) == c[i + 2];
      }
      FindFromIsSearch(t, c[1..], hi);
    } else {
      assert FindFrom(t, Following(Slot(t, c[0])), 0, hi) == NOT_FOUND;
    }
  }

  lemma FindIsSearch(t: Table, cs: seq<Chain>, k: Key)
    requires Inv(t, cs) && k.home < t.Count()
    ensures Find(t, k) == Search(t, cs[k.home], k.hi)
  {
    assert ChainOk(t, cs[k.home], k.home);
    if cs[k.home] != [] {
      FindFromIsSearch(t, cs[k.home], k.hi);
    }
  }

  /** No bucket of the chain has these high bits. */
  ghost predicate Absent(t: Table, c: Chain, hi: nat) {
    forall i | 0 <= i < |c| :: Slot(t, c[i]).hi != hi
  }

  lemma {:induction false} SearchMiss(t: Table, c: Chain, hi: nat)
    requires Absent(t, c, hi)
    ensures Search(t, c, hi) == NOT_FOUND
    decreases |c|
  {
    if c != [] {
      assert Slot(t, c[0]).hi != hi;
      forall i | 0 <= i < |c[1..]| ensures Slot(t, c[1..][i]).hi != hi { assert c[1..][i] == c[i + 1]; }
      SearchMiss(t, c[1..], hi);
    }
  }

  lemma {:induction false} SearchHit(t: Table, c: Chain, hi: nat, i: nat)
    requires i < |c| && DistinctKeys(t, c) && Slot(t, c[i]).hi == hi
    ensures Search(t, c, hi) == Slot(t, c[i]).payload
    decreases |c|
  {
    if i > 0 {
      assert Slot(t, c[0]).hi != Slot(t, c[i]).hi;
      var rest := c[1..];
      forall a, b | 0 <= a < b < |rest| ensures Slot(t, rest[a]).hi != Slot(t, rest[b]).hi {
        assert Slot(t, c[a + 1]).hi != Slot(t, c[b + 1]).hi;
      }
      SearchHit(t, rest, hi, i - 1);
    }
  }

  /** Two tables that agree on the buckets of a chain give the same answers for its keys. */
  lemma {:induction false} SearchFrame(t: Table, u: Table, c: Chain, hi: nat)
    requires forall i | 0 <= i < |c| ::
               Slot(t, c[i]).hi == Slot(u, c[i]).hi && Slot(t, c[i]).payload == Slot(u, c[i]).payload
    ensures Search(t, c, hi) == Search(u, c, hi)
    decreases |c|
  {
    if c != [] {
      assert Slot(t, c[0]).hi == Slot(u, c[0]).hi;
      var rest := c[1..];
      forall i | 0 <= i < |rest|
        ensures Slot(t, rest[i]).hi == Slot(u, rest[i]).hi && Slot(t, rest[i]).payload == Slot(u, rest[i]).payload
      {
        assert rest[i] == c[i + 1];
      }
      SearchFrame(t, u, rest, hi);
    }
  }

  lemma {:induction false} ProbeSearches(t: Table, c: Chain, hi: nat) returns (i: nat)
    requires c != [] && forall j | 0 <= j < |c| - 1 :: Following(Slot(t, c[j])) == c[j + 1]
    ensures i < |c|
    ensures ProbeFrom(t, c[0], |c|, hi) == if Slot(t, c[i]).hi == hi then Hit(c[i]) else Miss(c[i])
    ensures Slot(t, c[i]).hi != hi ==> i == |c| - 1 && Absent(t, c, hi)
    decreases |c|
  {
    i := 0;
    if Slot(t, c[0]).hi != hi && |c| > 1 {
      assert Following(Slot(t, c[0])) == c[1];
      var rest := c[1..];
      forall j | 0 <= j < |rest| - 1 ensures Following(Slot(t, rest[j])) == rest[j + 1] {
        assert Following(Slot(t, c[j + 1])) == c[j + 2];
      }
      var k := ProbeSearches(t, rest, hi);
      i := k + 1;
      if Slot(t, rest[k]).hi != hi {
        forall j | 0 <= j < |c| ensures Slot(t, c[j]).hi != hi {
          if j > 0 { assert c[j] == rest[j - 1]; }
        }
      }
    }
  }

  // ----- What a frame of an operation on home h must leave alone -----

  /** u differs from t only in buckets that home h owns or gains. */
  ghost predicate OnlyHome(t: Table, u: Table, h: nat) {
    && u.Count() == t.Count() && t.freeCount <= u.freeCount
    && forall l | InBounds(t, l) ::
         && (RootOf(t, l) != RootAt(h) && l != Managed(h) ==> Slot(u, l) == Slot(t, l))
         && (l != Managed(h) ==> RootOf(u, l) == RootOf(t, l))
  }

  /** A chain none of whose buckets changes stays a chain with the same answers. */
  lemma ChainFrame(t: Table, u: Table, c: Chain, o: nat)
    requires o < t.Count() == u.Count() && ChainOk(t, c, o) && u.managed[o].size == t.managed[o].size
    requires forall i | 0 <= i < |c| ::
               InBounds(u, c[i]) && Slot(u, c[i]) == Slot(t, c[i]) && RootOf(u, c[i]) == RootOf(t, c[i])
    ensures ChainOk(u, c, o)
    ensures forall hi :: Search(u, c, hi) == Search(t, c, hi)
  {
    assert Links(u, c, o) && DistinctKeys(u, c);
    forall hi ensures Search(u, c, hi) == Search(t, c, hi) { SearchFrame(t, u, c, hi); }
  }

  lemma OtherChainKept(t: Table, u: Table, cs: seq<Chain>, h: nat, o: nat)
    requires Inv(t, cs) && OnlyHome(t, u, h) && u.Shaped() && h < t.Count() && o < t.Count() && o != h
    requires Unmoved(t)
    ensures ChainOk(u, cs[o], o)
    ensures forall hi :: Search(u, cs[o], hi) == Search(t, cs[o], hi)
  {
    var c := cs[o];
    assert ChainOk(t, c, o);
    forall i | 0 <= i < |c|
      ensures Slot(u, c[i]) == Slot(t, c[i]) && RootOf(u, c[i]) == RootOf(t, c[i]) && InBounds(u, c[i])
    {
      assert InBounds(t, c[i]) && RootOf(t, c[i]) == RootAt(o);
      assert c[i] != Managed(h);
    }
    assert InBounds(t, Managed(o)) && RootOf(t, Managed(o)) != RootAt(h);
    assert Slot(t, Managed(o)) == t.managed[o] && Slot(u, Managed(o)) == u.managed[o];
    ChainFrame(t, u, c, o);
  }

  /** Lookups after putting payload under k, home by home. */
  ghost predicate Puts(t: Table, u: Table, cs: seq<Chain>, ds: seq<Chain>, k: Key, payload: nat)
    requires |cs| == |ds| && k.home < |cs|
  {
    && (forall o, hi | 0 <= o < |cs| && o != k.home :: Search(u, ds[o], hi) == Search(t, cs[o], hi))
    && (forall hi :: Search(u, ds[k.home], hi) == if hi == k.hi then payload else Search(t, cs[k.home], hi))
  }

  /** An operation that only touches home h, and leaves it with chain d, keeps everything else. */
  lemma HomeChanged(t: Table, u: Table, cs: seq<Chain>, d: Chain, k: Key, payload: nat)
    requires Inv(t, cs) && Unmoved(t) && k.home < t.Count() && OnlyHome(t, u, k.home) && u.Shaped()
             && ChainOk(u, d, k.home)
    requires forall hi :: Search(u, d, hi) == if hi == k.hi then payload else Search(t, cs[k.home], hi)
    requires d != [] && forall l | l in cs[k.home] :: l in d
    requires forall l | InBounds(u, l) && !InBounds(t, l) && RootOf(u, l).RootAt? ::
               RootOf(u, l) == RootAt(k.home) && l in d
    ensures Inv(u, cs[k.home := d]) && Puts(t, u, cs, cs[k.home := d], k, payload)
  {
    var h, ds := k.home, cs[k.home := d];
    forall o | 0 <= o < t.Count()
      ensures ChainOk(u, ds[o], o) && (o != h ==> forall hi :: Search(u, ds[o], hi) == Search(t, cs[o], hi))
    {
      if o != h {
        OtherChainKept(t, u, cs, h, o);
      }
    }
    forall l | InBounds(u, l) && RootOf(u, l).RootAt? ensures RootOf(u, l).id < u.Count() && l in ds[RootOf(u, l).id] {
      if l == Managed(h) {
        assert RootOf(u, d[0]) == RootAt(h);
      } else if InBounds(t, l) {
        assert RootOf(u, l) == RootOf(t, l);
      }
    }
  }

  // ----- First key of a home bucket -----

  lemma FirstKeeps(t: Table, cs: seq<Chain>, k: Key, payload: nat)
    requires Inv(t, cs) && Unmoved(t) && k.home < t.Count() && t.managed[k.home].size == 0
    ensures var u, ds := FirstInHome(t, k, payload), cs[k.home := [Managed(k.home)]];
            Inv(u, ds) && Unmoved(u) && Puts(t, u, cs, ds, k, Stored(payload))
  {
    var h, d := k.home, [Managed(k.home)];
    var u := FirstInHome(t, k, payload);
    assert ChainOk(t, cs[h], h);
    assert RootOf(t, Managed(h)) == NoRoot by { assert InBounds(t, Managed(h)); }
    forall hi ensures Search(u, d, hi) == if hi == k.hi then Stored(payload) else Search(t, cs[h], hi) {
      assert d[1..] == [];
    }
    HomeChanged(t, u, cs, d, k, Stored(payload));
  }

  // ----- A key that is there -----

  lemma HitKeeps(t: Table, cs: seq<Chain>, k: Key, payload: nat, i: nat)
    requires Inv(t, cs) && Unmoved(t) && k.home < t.Count() && i < |cs[k.home]| && Slot(t, cs[k.home][i]).hi == k.hi
    ensures var l := cs[k.home][i];
            var u := SetSlot(t, l, Slot(t, l).(payload := Stored(payload)));
            Inv(u, cs) && Unmoved(u) && Puts(t, u, cs, cs, k, Stored(payload))
  {
    var h, c := k.home, cs[k.home];
    var u := SetSlot(t, c[i], Slot(t, c[i]).(payload := Stored(payload)));
    assert ChainOk(t, c, h);
    HitEffect(t, u, c, h, i, payload);
    HitChain(t, u, c, h, i, payload);
    forall hi ensures Search(u, c, hi) == if hi == k.hi then Stored(payload) else Search(t, c, hi) {
      HitSearch(t, u, c, hi, i, payload);
    }
    assert cs[h := c] == cs;
    HomeChanged(t, u, cs, c, k, Stored(payload));
  }

  lemma HitEffect(t: Table, u: Table, c: Chain, h: nat, i: nat, payload: nat)
    requires t.Shaped() && h < t.Count() && ChainOk(t, c, h) && i < |c|
    requires u == SetSlot(t, c[i], Slot(t, c[i]).(payload := Stored(payload)))
    ensures u.Shaped() && u.Count() == t.Count() && u.freeCount == t.freeCount
    ensures u.managedRoots == t.managedRoots && u.freeRoots == t.freeRoots
    ensures OnlyHome(t, u, h) && PayloadSet(t, u, c, i, payload)
  {
    assert InBounds(t, c[i]) && RootOf(t, c[i]) == RootAt(h);
    forall j | 0 <= j < |c| ensures c[j] == c[i] <==> j == i {}
  }

  ghost predicate PayloadSet(t: Table, u: Table, c: Chain, i: nat, payload: nat) {
    forall j | 0 <= j < |c| ::
      Slot(u, c[j]) == if j == i then Slot(t, c[j]).(payload := Stored(payload)) else Slot(t, c[j])
  }

  lemma HitChain(t: Table, u: Table, c: Chain, h: nat, i: nat, payload: nat)
    requires h < t.Count() == u.Count() && ChainOk(t, c, h) && c != [] && PayloadSet(t, u, c, i, payload)
    requires t.freeCount == u.freeCount && t.managedRoots == u.managedRoots && t.freeRoots == u.freeRoots
    ensures ChainOk(u, c, h)
  {
  }

  lemma HitSearch(t: Table, u: Table, c: Chain, hi: nat, i: nat, payload: nat)
    requires i < |c| && DistinctKeys(t, c) && PayloadSet(t, u, c, i, payload)
    ensures Search(u, c, hi) == if hi == Slot(t, c[i]).hi then Stored(payload) else Search(t, c, hi)
  {
    assert DistinctKeys(u, c);
    if j :| 0 <= j < |c| && Slot(t, c[j]).hi == hi {
      SearchHit(t, c, hi, j);
      SearchHit(u, c, hi, j);
    } else {
      SearchMiss(t, c, hi);
      SearchMiss(u, c, hi);
    }
  }

  // ----- A new key at the end of a chain -----

  /** What an append does to the buckets of its chain c. */
  ghost predicate Appended(t: Table, u: Table, c: Chain, k: Key, payload: nat)
    requires c != []
  {
    var slot, n := Free(t.freeCount), |c|;
    && RootOf(u, slot) == RootAt(k.home)
    && Slot(u, slot) == Bucket(k.hi, k.home, 0, true, Stored(payload))
    && (forall i | 0 <= i < n ::
          Slot(u, c[i]) == Slot(t, c[i]).(next := if i == n - 1 then slot.id else Slot(t, c[i]).next,
                                          internal := if i == n - 1 then false else Slot(t, c[i]).internal,
                                          size := if i == 0 then n + 1 else Slot(t, c[i]).size))
  }

  /** A bucket of a table after an append behind `last`. */
  function AppendedSlot(t: Table, k: Key, payload: nat, last: Loc, l: Loc): Bucket {
    if l == Free(t.freeCount) then Bucket(k.hi, k.home, 0, true, Stored(payload))
    else
      var b := if l == last then Slot(t, l).(next := t.freeCount, internal := false) else Slot(t, l);
      if l == Managed(k.home) then Bumped(b) else b
  }

  lemma AppendAt(t: Table, k: Key, payload: nat, last: Loc, l: Loc)
    requires t.Shaped() && k.home < t.Count() && t.freeCount < t.Count() && InBounds(t, last)
    ensures var u := Append(t, k, payload, last);
            && Slot(u, l) == AppendedSlot(t, k, payload, last, l)
            && RootOf(u, l) == if l == Free(t.freeCount) then RootAt(k.home) else RootOf(t, l)
  {
  }

  lemma AppendShape(t: Table, k: Key, payload: nat, last: Loc)
    requires t.Shaped() && k.home < t.Count() && t.freeCount < t.Count() && InBounds(t, last)
    ensures var u := Append(t, k, payload, last);
            u.Shaped() && u.Count() == t.Count() && u.freeCount == t.freeCount + 1 && u.managedRoots == t.managedRoots
  {
  }

  ghost predicate SlotsAfter(t: Table, u: Table, k: Key, payload: nat, last: Loc) {
    forall l ::
      && Slot(u, l) == AppendedSlot(t, k, payload, last, l)
      && RootOf(u, l) == if l == Free(t.freeCount) then RootAt(k.home) else RootOf(t, l)
  }

  lemma ChainAfter(t: Table, u: Table, c: Chain, k: Key, payload: nat)
    requires k.home < t.Count() == u.Count() && t.freeCount < u.freeCount && 0 < |c| < 127 && ChainOk(t, c, k.home)
    requires SlotsAfter(t, u, k, payload, c[|c| - 1])
    ensures OnlyHome(t, u, k.home) && Appended(t, u, c, k, payload)
  {
    var last := c[|c| - 1];
    assert RootOf(t, last) == RootAt(k.home) && c[0] == Managed(k.home);
    forall i | 0 <= i < |c|
      ensures InBounds(t, c[i]) && (c[i] == last <==> i == |c| - 1) && (c[i] == c[0] <==> i == 0) {}
  }

  lemma AppendEffect(t: Table, cs: seq<Chain>, k: Key, payload: nat, u: Table)
    requires Inv(t, cs) && k.home < t.Count() && cs[k.home] != [] && |cs[k.home]| < 127 && t.freeCount < t.Count()
    requires var c := cs[k.home]; u == Append(t, k, payload, c[|c| - 1])
    ensures u.Shaped() && u.Count() == t.Count() && u.freeCount == t.freeCount + 1 && u.managedRoots == t.managedRoots
    ensures OnlyHome(t, u, k.home) && Appended(t, u, cs[k.home], k, payload)
    ensures forall l | InBounds(t, l) :: RootOf(u, l) == RootOf(t, l)
  {
    var c := cs[k.home];
    var last := c[|c| - 1];
    assert ChainOk(t, c, k.home);
    AppendShape(t, k, payload, last);
    assert SlotsAfter(t, u, k, payload, last) by {
      forall l { AppendAt(t, k, payload, last, l); }
    }
    ChainAfter(t, u, c, k, payload);
  }

  lemma AppendChain(t: Table, u: Table, c: Chain, k: Key, payload: nat)
    requires k.home < t.Count() && t.Shaped() && c != [] && ChainOk(t, c, k.home) && Absent(t, c, k.hi)
    requires u.Shaped() && u.Count() == t.Count() && u.freeCount == t.freeCount + 1 && u.managedRoots == t.managedRoots
    requires forall l | InBounds(t, l) :: RootOf(u, l) == RootOf(t, l)
    requires Appended(t, u, c, k, payload)
    ensures ChainOk(u, c + [Free(t.freeCount)], k.home)
  {
    var d, n := c + [Free(t.freeCount)], |c|;
    assert forall i | 0 <= i < n :: d[i] == c[i] && Slot(u, d[i]).hi == Slot(t, c[i]).hi;
    assert Slot(u, d[0]).size == n + 1 && d[0] == Managed(k.home);
    forall i | 0 <= i < n ensures Following(Slot(u, d[i])) == d[i + 1] {
      if i < n - 1 { assert Following(Slot(t, c[i])) == c[i + 1]; }
    }
    assert Links(u, d, k.home);
    assert DistinctKeys(u, d);
  }

  lemma AppendSearch(t: Table, u: Table, c: Chain, k: Key, payload: nat, hi: nat)
    requires c != [] && Absent(t, c, k.hi) && DistinctKeys(t, c) && Appended(t, u, c, k, payload)
    requires DistinctKeys(u, c + [Free(t.freeCount)])
    ensures Search(u, c + [Free(t.freeCount)], hi) == if hi == k.hi then Stored(payload) else Search(t, c, hi)
  {
    var d := c + [Free(t.freeCount)];
    assert forall i | 0 <= i < |c| :: d[i] == c[i] && Slot(u, d[i]).hi == Slot(t, c[i]).hi;
    if hi == k.hi {
      SearchHit(u, d, hi, |c|);
    } else if j :| 0 <= j < |c| && Slot(t, c[j]).hi == hi {
      SearchHit(t, c, hi, j);
      SearchHit(u, d, hi, j);
    } else {
      SearchMiss(t, c, hi);
      SearchMiss(u, d, hi);
    }
  }

  lemma AppendKeeps(t: Table, cs: seq<Chain>, k: Key, payload: nat)
    requires Inv(t, cs) && Unmoved(t) && k.home < t.Count() && t.freeCount < t.Count()
    requires cs[k.home] != [] && |cs[k.home]| < 127 && Absent(t, cs[k.home], k.hi)
    ensures var c := cs[k.home];
            var u, ds := Append(t, k, payload, c[|c| - 1]), cs[k.home := c + [Free(t.freeCount)]];
            Inv(u, ds) && Unmoved(u) && Puts(t, u, cs, ds, k, Stored(payload))
  {
    var c := cs[k.home];
    var u, d := Append(t, k, payload, c[|c| - 1]), c + [Free(t.freeCount)];
    assert ChainOk(t, c, k.home);
    AppendEffect(t, cs, k, payload, u);
    AppendChain(t, u, c, k, payload);
    forall hi ensures Search(u, d, hi) == if hi == k.hi then Stored(payload) else Search(t, c, hi) {
      AppendSearch(t, u, c, k, payload, hi);
    }
    HomeChanged(t, u, cs, d, k, Stored(payload));
  }
}
