/** Insertions that fill one home bucket: the limits of a table can be reached. */
module QedLimits {
  import opened Collections
  import opened QedTable
  import opened QedRuns
  import opened Division

  /** Key number i of home h. */
  function Member(count: nat, h: nat, i: nat): nat {
    i * count + h
  }

  lemma MemberSplits(count: nat, h: nat, i: nat)
    requires h < count
    ensures Split(Member(count, h, i), count) == Key(i, h)
  {
    QuotientIsUnique(i, h, count);
  }

  /** n insertions of different keys with the same home. */
  function Family(count: nat, h: nat, n: nat): (r: seq<Put>)
    ensures |r| == n
  {
    if n == 0 then [] else Family(count, h, n - 1) + [Put(Member(count, h, n - 1), 0)]
  }

  lemma FamilyMore(count: nat, h: nat, n: nat)
    ensures KeysOf(Family(count, h, n + 1)) == KeysOf(Family(count, h, n)) + {Member(count, h, n)}
  {
    var front, last := Family(count, h, n), Put(Member(count, h, n), 0);
    KeysSnoc(front, last);
  }

  lemma KeysSnoc(puts: seq<Put>, p: Put)
    ensures KeysOf(puts + [p]) == KeysOf(puts) + {p.key}
  {
  }

  lemma {:induction false} FamilyAt(count: nat, h: nat, n: nat, key: nat)
    requires h < count
    ensures key in KeysOf(Family(count, h, n)) <==> Split(key, count).home == h && Split(key, count).hi < n
    decreases n
  {
    if n > 0 {
      FamilyAt(count, h, n - 1, key);
      FamilyMore(count, h, n - 1);
      MemberSplits(count, h, n - 1);
      if Split(key, count) == Key(n - 1, h) {
        SplitInjective(key, Member(count, h, n - 1), count);
      }
    }
  }

  lemma NextIsNew(count: nat, h: nat, n: nat)
    requires h < count
    ensures Member(count, h, n) !in KeysOf(Family(count, h, n))
  {
    MemberSplits(count, h, n);
    FamilyAt(count, h, n, Member(count, h, n));
  }

  lemma OneMoreKey(count: nat, h: nat, n: nat)
    requires h < count
    ensures |KeysOf(Family(count, h, n + 1))| == |KeysOf(Family(count, h, n))| + 1
  {
    FamilyMore(count, h, n);
    NextIsNew(count, h, n);
  }

  lemma {:induction false} FamilySize(count: nat, h: nat, n: nat)
    requires h < count
    ensures |KeysOf(Family(count, h, n))| == n
    decreases n
  {
    if n == 0 {
      assert KeysOf(Family(count, h, n)) == {};
    } else {
      var m := n - 1;
      FamilySize(count, h, m);
      OneMoreKey(count, h, m);
    }
  }

  lemma FamilyHomes(count: nat, h: nat, n: nat)
    requires h < count && n > 0
    ensures HomesIn(KeysOf(Family(count, h, n)), count) == {h}
  {
    var keys := KeysOf(Family(count, h, n));
    forall k | k in keys ensures Split(k, count).home == h {
      FamilyAt(count, h, n, k);
    }
    MemberSplits(count, h, 0);
    FamilyAt(count, h, n, Member(count, h, 0));
    assert Member(count, h, 0) in keys;
  }

  lemma FewKeys(keys: set<nat>, count: nat)
    requires count > 0 && |keys| <= 127
    ensures FewPerHome(keys, count)
  {
    forall h | 0 <= h < count ensures |HomeKeys(keys, count, h)| <= 127 {
      SubsetSize(HomeKeys(keys, count, h), keys);
    }
  }

  // ----- 127 keys of one home -----

  /** What a run without refusals has stored. */
  lemma StoredAll(count: nat, puts: seq<Put>) returns (cs: seq<Chain>)
    requires count > 0 && FewPerHome(KeysOf(puts), count) && EnoughFree(KeysOf(puts), count)
    ensures RunInv(Run(Start(count), puts), cs) && Run(Start(count), puts).contents.Keys == KeysOf(puts)
  {
    StartInv(count);
    cs := RunKeepsInv(Start(count), seq(count, _ => []), puts, KeysOf(puts));
    NothingLost(Start(count), seq(count, _ => []), puts, KeysOf(puts));
    LatestKeys(map[], puts);
  }

  lemma FamilyAccount(s: Model, cs: seq<Chain>, h: nat, n: nat)
    requires RunInv(s, cs) && h < s.table.Count() && n > 0 && s.contents.Keys == KeysOf(Family(s.table.Count(), h, n))
    ensures |KeysAt(s.contents, s.table.Count(), h)| == n && s.table.freeCount == n - 1
  {
    var count := s.table.Count();
    FamilySize(count, h, n);
    FamilyHomes(count, h, n);
    UsedAreHomes(s, cs);
    forall k | k in s.contents ensures Split(k, count).home == h {
      FamilyAt(count, h, n, k);
    }
    assert KeysAt(s.contents, count, h) == s.contents.Keys;
  }

  /** 127 keys of one home leave no room for another, though there may be free buckets. */
  lemma FullHome(count: nat) returns (cs: seq<Chain>)
    requires count >= 127
    ensures var s := Run(Start(count), Family(count, 0, 127));
            RunInv(s, cs) && !Fits(s, Member(count, 0, 127)) && s.table.freeCount < s.table.Count() == count
  {
    FamilySize(count, 0, 127);
    FamilyHomes(count, 0, 127);
    FewKeys(KeysOf(Family(count, 0, 127)), count);
    cs := StoredAll(count, Family(count, 0, 127));
    FamilyAccount(Run(Start(count), Family(count, 0, 127)), cs, 0, 127);
    MemberSplits(count, 0, 127);
    FamilyAt(count, 0, 127, Member(count, 0, 127));
  }

  /** So 128 insertions for one home of a fresh table lose all of its keys. */
  lemma FullHomeIsLost(count: nat, key: nat)
    requires count >= 127 && Split(key, count).home == 0
    ensures Find(Run(Start(count), Family(count, 0, 128)).table, Split(key, count)) == NOT_FOUND
  {
    var s, p := Run(Start(count), Family(count, 0, 127)), Put(Member(count, 0, 127), 0);
    var cs := FullHome(count);
    RunSnoc(Start(count), Family(count, 0, 127), p);
    MemberSplits(count, 0, 127);
    OverflowLosesHome(s, cs, p, key);
  }

  lemma {:induction false} RunSnoc(s: Model, puts: seq<Put>, p: Put)
    requires s.table.Count() > 0
    ensures Run(s, puts + [p]) == Step(Run(s, puts), p)
    decreases |puts|
  {
    if puts == [] {
      assert (puts + [p])[1..] == [];
    } else {
      assert (puts + [p])[0] == puts[0] && (puts + [p])[1..] == puts[1..] + [p];
      RunSnoc(Step(s, puts[0]), puts[1..], p);
    }
  }
}
