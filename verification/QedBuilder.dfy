/** The builder: bucket and root arrays updated in place. */
module QedBuilder {
  import opened QedTable
  import opened QedRefinement
  import opened QedRelocation

  class Builder {
    var managed: array<Bucket>
    var free: array<Bucket>
    var managedRoots: array<Root>
    var freeRoots: array<Root>
    var freeCount: nat

    ghost predicate Valid()
      reads this
    {
      && managed != free && managedRoots != freeRoots
      && free.Length == managedRoots.Length == freeRoots.Length == managed.Length
      && freeCount <= managed.Length
    }

    ghost function Value(): Table
      reads this, managed, free, managedRoots, freeRoots
    {
      Table(managed[..], free[..], managedRoots[..], freeRoots[..], freeCount)
    }

    /** A fresh table with its areas cleared. */
    constructor (count: nat)
      ensures Valid() && fresh(managed) && fresh(free) && fresh(managedRoots) && fresh(freeRoots)
      ensures Value() == Reserved(count)
    {
      managed := new Bucket[count](_ => EMPTY);
      free := new Bucket[count](_ => EMPTY);
      managedRoots := new Root[count](_ => NoRoot);
      freeRoots := new Root[count](_ => NoRoot);
      freeCount := 0;
    }

    function BucketAt(l: Loc): (b: Bucket)
      requires l.id < (if l.Managed? then managed.Length else free.Length)
      reads this, managed, free
    {
      if l.Managed? then managed[l.id] else free[l.id]
    }

    method SetBucket(l: Loc, b: Bucket)
      requires Valid() && l.id < managed.Length
      modifies managed, free
      ensures Value() == SetSlot(old(Value()), l, b)
    {
      if l.Managed? {
        managed[l.id] := b;
      } else {
        free[l.id] := b;
      }
    }

    method Find(k: Key, ghost cs: seq<Chain>) returns (r: nat)
      requires Valid() && Inv(Value(), cs) && k.home < managed.Length
      ensures r == QedTable.Find(Value(), k)
    {
      ghost var t, c := Value(), cs[k.home];
      assert ChainOk(t, c, k.home);
      var size := managed[k.home].size;
      var l, i := Managed(k.home), 0;
      while i < size
        invariant 0 <= i <= size && (i < size ==> l == c[i])
        invariant FindFrom(t, Managed(k.home), size, k.hi) == FindFrom(t, l, size - i, k.hi)
      {
        assert InBounds(t, c[i]);
        var b := BucketAt(l);
        assert b == Slot(t, l);
        if b.hi == k.hi {
          return b.payload;
        }
        l := Following(b);
        i := i + 1;
      }
      return NOT_FOUND;
    }

    /** Takes a number of free buckets if there are that many. */
    method TakeFreeBucketId(count: nat) returns (ok: bool, id: nat)
      requires Valid()
      modifies this`freeCount
      ensures Valid() && id == old(freeCount)
      ensures ok == (old(freeCount) + count <= managed.Length)
      ensures freeCount == if ok then old(freeCount) + count else old(freeCount)
    {
      id := freeCount;
      if id + count > managed.Length {
        return false, id;
      }
      freeCount := id + count;
      return true, id;
    }

    /** Walks the chain of k's home to the bucket with its high bits or to the last one. */
    method Walk(k: Key, ghost cs: seq<Chain>) returns (hit: bool, at: Loc)
      requires Valid() && Inv(Value(), cs) && k.home < managed.Length && managed[k.home].size > 0
      ensures ProbeFrom(Value(), Managed(k.home), managed[k.home].size, k.hi) == if hit then Hit(at) else Miss(at)
      ensures InBounds(Value(), at)
    {
      ghost var t, c := Value(), cs[k.home];
      assert ChainOk(t, c, k.home);
      var size := managed[k.home].size;
      var l, i := Managed(k.home), 0;
      at := l;
      assert InBounds(t, c[0]);
      while i < size
        invariant 0 <= i <= size && (i < size ==> l == c[i])
        invariant i > 0 ==> at == c[i - 1]
        invariant InBounds(t, at)
        invariant ProbeFrom(t, Managed(k.home), size, k.hi)
                  == if i < size then ProbeFrom(t, l, size - i, k.hi) else Miss(at)
      {
        assert InBounds(t, c[i]);
        var b := BucketAt(l);
        assert b == Slot(t, l);
        at := l;
        if b.hi == k.hi {
          return true, at;
        }
        l := Following(b);
        i := i + 1;
      }
      hit := false;
    }

    method Insert(k: Key, payload: nat, ghost cs: seq<Chain>) returns (ok: bool, at: Loc)
      requires Valid() && Inv(Value(), cs) && Unmoved(Value()) && k.home < managed.Length
      modifies this`freeCount, managed, free, managedRoots, freeRoots
      ensures Valid()
      ensures match QedTable.Insert(old(Value()), k, payload)
              case Rejected => !ok && Value() == old(Value())
              case Placed(t, l) => ok && Value() == t && at == l
    {
      var root := managed[k.home];
      at := Managed(k.home);
      if root.size == 0 {
        managedRoots[k.home] := RootAt(k.home);
        managed[k.home] := Bucket(k.hi, k.home, 1, false, Stored(payload));
        return true, at;
      }
      if root.size == 127 && root.internal {
        return false, at;
      }
      var hit;
      hit, at := Walk(k, cs);
      if hit {
        var b := BucketAt(at);
        SetBucket(at, b.(payload := Stored(payload)));
        return true, at;
      }
      var last := at;
      ok, at := AppendTo(last, k, payload);
    }

    method AppendTo(last: Loc, k: Key, payload: nat) returns (ok: bool, at: Loc)
      requires Valid() && k.home < managed.Length && InBounds(Value(), last)
      modifies this`freeCount, managed, free, freeRoots
      ensures Valid() && ok == (old(freeCount) < managed.Length)
      ensures !ok ==> Value() == old(Value())
      ensures ok ==> at == Free(old(freeCount)) && Value() == Append(old(Value()), k, payload, last)
    {
      at := last;
      var slot;
      ok, slot := TakeFreeBucketId(1);
      if !ok {
        return;
      }
      at := Free(slot);
      SetBucket(at, Bucket(k.hi, k.home, 0, true, Stored(payload)));
      freeRoots[slot] := RootAt(k.home);
      var b := BucketAt(last);
      SetBucket(last, b.(next := slot, internal := false));
      SetBucket(Managed(k.home), Bumped(managed[k.home]));
    }

    /** The root of a location, none if it is out of bounds or not chained. */
    function RootIdOf(l: Loc): (r: Root)
      requires Valid()
      reads this, managedRoots, freeRoots
      ensures r == RootOf(Value(), l)
    {
      match l
      case Managed(i) => if i >= managedRoots.Length then NoRoot else managedRoots[i]
      case Free(i) => if i >= freeCount then NoRoot else freeRoots[i]
    }

    method FindParent(l: Loc, ghost c: Chain, ghost h: nat) returns (found: bool, at: Loc)
      requires Valid()
      requires RootOf(Value(), l).RootAt? ==>
                 h < managed.Length && RootOf(Value(), l) == RootAt(h) && ChainOk(Value(), c, h)
      ensures QedRelocation.FindParent(Value(), l) == if found then ParentAt(at) else NoParent
      ensures found ==> InBounds(Value(), at)
    {
      ghost var t := Value();
      var root := RootIdOf(l);
      if root == NoRoot {
        return false, l;
      }
      var size := managed[root.id].size;
      var i := 0;
      at := Managed(root.id);
      while i < size
        invariant 0 <= i <= size && (i < size ==> at == c[i])
        invariant ParentFrom(t, Managed(h), size, l) == ParentFrom(t, at, size - i, l)
      {
        assert InBounds(t, c[i]);
        var b := BucketAt(at);
        assert b == Slot(t, at);
        assert (b.size == 0) == (i != 0);  // the chain is consistent, so the walk is never started over
        if Following(b) == l {
          return true, at;
        }
        at := Following(b);
        i := i + 1;
      }
      found := false;
    }

    /** Moves a chained bucket into the first unused slot near its root. */
    method OptimizeFreeBucket(l: Loc, level: nat, ghost cs: seq<Chain>) returns (moved: bool)
      requires Valid() && Inv(Value(), cs)
      modifies managed, free, managedRoots, freeRoots
      ensures Valid() && Value() == Optimize(old(Value()), l, level).table
              && moved == Optimize(old(Value()), l, level).moved
    {
      ghost var t := Value();
      if l.Managed? || RootIdOf(l) == NoRoot {
        return false;
      }
      var root := RootIdOf(l).id;
      assert InBounds(t, l) && RootOf(t, l) == RootAt(root);
      var iter, found := UnusedSlot(root, level);
      if !found {
        return false;
      }
      moved := MoveInto(l, root, iter, cs);
    }

    /** Looks for an unused slot in the cache line of a root, and in the `level` lines behind it. */
    method UnusedSlot(root: nat, level: nat) returns (iter: nat, found: bool)
      requires Valid() && root < managed.Length
      ensures FirstUnused(Value(), root, WindowStart(root), WindowEnd(Value(), root, level))
              == if found then SpotAt(iter) else NoSpot
      ensures found ==> FirstNear(Value(), iter, root, level)
      ensures !found ==> forall m: nat | Near(m, root, level, managed.Length) :: !Unused(Value(), m)
    {
      ghost var t := Value();
      ScanFindsFirst(t, root, level);
      var end := root - root % 4 + 4 + level * 4;
      iter := root - root % 4;
      if end > managed.Length {
        end := managed.Length;
      }
      while iter < end
        invariant iter <= managed.Length
        invariant FirstUnused(t, root, WindowStart(root), WindowEnd(t, root, level)) == FirstUnused(t, root, iter, end)
      {
        if iter != root && managedRoots[iter] == NoRoot && managed[iter].size == 0 {
          assert Unused(t, iter);
          return iter, true;
        }
        iter := iter + 1;
      }
      found := false;
    }

    /** The slot is claimed for the root and the bucket copied into it. */
    method ClaimSlot(l: Loc, root: nat, iter: nat)
      requires Valid() && l.Free? && l.id < free.Length && iter < managed.Length
      modifies managed, managedRoots
      ensures Value() == Claim(old(Value()), root, l, iter)
    {
      managedRoots[iter] := RootAt(root);
      managed[iter] := free[l.id];
    }

    method MoveInto(l: Loc, root: nat, iter: nat, ghost cs: seq<Chain>) returns (moved: bool)
      requires Valid() && Inv(Value(), cs) && l.Free? && InBounds(Value(), l) && RootOf(Value(), l) == RootAt(root)
      requires iter < managed.Length && iter != root && Unused(Value(), iter)
      modifies managed, free, managedRoots, freeRoots
      ensures Valid() && Value() == OptimizeInto(old(Value()), root, l, iter).table
      ensures moved == OptimizeInto(old(Value()), root, l, iter).moved
    {
      ClaimKeepsChain(Value(), cs, root, l, iter);
      ClaimSlot(l, root, iter);
      var found, at := FindParent(l, cs[root], root);
      if !found {
        return false;
      }
      var b := BucketAt(at);
      assert b == Slot(Value(), at);
      if b.internal || b.next != l.id {
        return false;
      }
      SetBucket(at, b.(internal := true, next := iter));
      freeRoots[l.id] := NoRoot;
      moved := true;
    }
  }

  lemma ClaimKeepsChain(t: Table, cs: seq<Chain>, h: nat, l: Loc, m: nat)
    requires Inv(t, cs) && h < t.Count() && m < t.Count() && m != h && Unused(t, m)
    ensures ChainOk(Claim(t, h, l, m), cs[h], h)
  {
    var c, u := cs[h], Claim(t, h, l, m);
    assert ChainOk(t, c, h);
    forall i | 0 <= i < |c|
      ensures InBounds(u, c[i]) && Slot(u, c[i]) == Slot(t, c[i]) && RootOf(u, c[i]) == RootOf(t, c[i])
    {
      assert RootOf(t, c[i]) == RootAt(h) && InBounds(t, c[i]);
    }
    ChainFrame(t, u, c, h);
  }
}
