/** An insertion that is not interrupted: its single writes make the table of the insertion as one operation. */
module QedAlone {
  import opened QedTable
  import opened QedRefinement
  import opened QedRuns
  import opened QedConcurrent
  import opened QedCapacity

  ghost predicate Inside(t: Table, l: Loc) {
    l.id < if l.Managed? then |t.managed| else |t.free|
  }

  lemma SlotOfSet(t: Table, l: Loc, b: Bucket)
    requires Inside(t, l)
    ensures Slot(SetSlot(t, l, b), l) == b
  {
  }

  lemma SetTwice(t: Table, l: Loc, a: Bucket, b: Bucket)
    requires Inside(t, l)
    ensures SetSlot(SetSlot(t, l, a), l, b) == SetSlot(t, l, b)
  {
    match l
    case Managed(i) => assert t.managed[i := a][i := b] == t.managed[i := b];
    case Free(i) => assert t.free[i := a][i := b] == t.free[i := b];
  }

  /** Writing a field of the bucket that was just written. */
  lemma SetOn(t: Table, l: Loc, a: Bucket, b: Bucket)
    requires Inside(t, l)
    ensures Slot(SetSlot(t, l, a), l) == a && SetSlot(SetSlot(t, l, a), l, b) == SetSlot(t, l, b)
  {
    SlotOfSet(t, l, a);
    SetTwice(t, l, a, b);
  }

  lemma WorksMore(s: State, h: nat, n: nat)
    ensures RunFrom(s, Works(h, n + 1)) == RunFrom(Next(s, Work(h)), Works(h, n))
  {
    assert Works(h, n + 1)[0] == Work(h) && Works(h, n + 1)[1..] == Works(h, n);
  }

  lemma WorksTwo(s: State, h: nat, n: nat)
    ensures RunFrom(s, Works(h, n + 2)) == RunFrom(Next(Next(s, Work(h)), Work(h)), Works(h, n))
  {
    WorksMore(s, h, n + 1);
    WorksMore(Next(s, Work(h)), h, n);
  }

  lemma WorksThree(s: State, h: nat, n: nat)
    ensures RunFrom(s, Works(h, n + 3)) == RunFrom(Next(Next(Next(s, Work(h)), Work(h)), Work(h)), Works(h, n))
  {
    WorksTwo(s, h, n + 1);
    WorksMore(Next(Next(s, Work(h)), Work(h)), h, n);
  }

  lemma {:induction false} IdleWorks(s: State, h: nat, n: nat)
    requires h < |s.pcs| && s.pcs[h].Idle?
    ensures RunFrom(s, Works(h, n)) == s
  {
    if n > 0 {
      WorksMore(s, h, n - 1);
      IdleWorks(s, h, n - 1);
    }
  }

  /** The state once the insertion of p into home h has left table t. */
  function Done(s: State, h: nat, t: Table, p: Put): State
    requires h < |s.pcs|
  {
    s.(table := t, pcs := s.pcs[h := Idle], contents := s.contents[p.key := Stored(p.payload)])
  }

  ghost predicate Ready(s: State, h: nat) {
    h < |s.pcs| == s.table.Count() && s.table.Shaped()
  }

  // ----- The first key of a home -----

  lemma ClaimAndRoot(s: State, h: nat, p: Put, k: Key)
    requires Ready(s, h) && s.pcs[h] == First(p, ClaimSize) && k == Split(p.key, s.table.Count()) && k.home == h
    ensures var b := s.table.managed[h].(size := 1, internal := false);
            Next(Next(s, Work(h)), Work(h))
            == s.(table := SetSlot(s.table, Managed(h), b).(managedRoots := s.table.managedRoots[h := RootAt(h)]),
                  pcs := s.pcs[h := First(p, SetPayload)])
  {
    assert s.pcs[h := First(p, SetRoot)][h := First(p, SetPayload)] == s.pcs[h := First(p, SetPayload)];
  }

  lemma FillFirst(s: State, h: nat, p: Put, k: Key)
    requires Ready(s, h) && s.pcs[h] == First(p, SetPayload) && k == Split(p.key, s.table.Count()) && k.home == h
    ensures var t := SetSlot(s.table, Managed(h), Bucket(k.hi, k.home, 1, false, Stored(p.payload)));
            Next(Next(Next(s, Work(h)), Work(h)), Work(h)) == Done(s, h, t, p)
  {
    var t, l := s.table, Managed(h);
    var a := Slot(t, l).(payload := Stored(p.payload));
    var b := a.(hi := k.hi, next := k.home);
    SetOn(t, l, a, b);
    SetOn(t, l, b, b.(size := 1, internal := false));
    var s1 := Next(s, Work(h));
    assert s1 == s.(table := SetSlot(t, l, a), pcs := s.pcs[h := First(p, SetKey)]);
    var s2 := Next(s1, Work(h));
    assert s.pcs[h := First(p, SetKey)][h := First(p, SetSize)] == s.pcs[h := First(p, SetSize)];
    assert s2 == s.(table := SetSlot(t, l, b), pcs := s.pcs[h := First(p, SetSize)]);
    assert s.pcs[h := First(p, SetSize)][h := Idle] == s.pcs[h := Idle];
  }

  lemma FiveWorks(s: State, h: nat, c: State, e: State)
    requires c == Next(Next(s, Work(h)), Work(h)) && e == Next(Next(Next(c, Work(h)), Work(h)), Work(h))
    requires h < |e.pcs| && e.pcs[h].Idle?
    ensures RunFrom(s, Works(h, 8)) == e
  {
    WorksTwo(s, h, 6);
    WorksThree(c, h, 3);
    IdleWorks(e, h, 3);
  }

  lemma FirstParts(t: Table, h: nat, k: Key, payload: nat)
    requires t.Shaped() && h < t.Count() && k.home == h
    ensures var u := SetSlot(t, Managed(h), t.managed[h].(size := 1, internal := false))
                     .(managedRoots := t.managedRoots[h := RootAt(h)]);
            SetSlot(u, Managed(h), Bucket(k.hi, k.home, 1, false, Stored(payload))) == FirstInHome(t, k, payload)
  {
    SetTwice(t, Managed(h), t.managed[h].(size := 1, internal := false),
             Bucket(k.hi, k.home, 1, false, Stored(payload)));
  }

  lemma FirstAlone(s: State, h: nat, p: Put, k: Key)
    requires Ready(s, h) && s.pcs[h] == First(p, ClaimSize) && k == Split(p.key, s.table.Count()) && k.home == h
    ensures RunFrom(s, Works(h, 8)) == Done(s, h, FirstInHome(s.table, k, p.payload), p)
  {
    var c, e := Next(Next(s, Work(h)), Work(h)), Done(s, h, FirstInHome(s.table, k, p.payload), p);
    ClaimAndRoot(s, h, p, k);
    FillFirst(c, h, p, k);
    FirstParts(s.table, h, k, p.payload);
    PcTwice(s.pcs, h, First(p, SetPayload), Idle);
    FiveWorks(s, h, c, e);
  }

  // ----- A key at the end of a chain -----

  /** The table with the new bucket filled, but not linked. */
  function Filled(t: Table, k: Key, payload: nat): Table
    requires t.freeCount < |t.freeRoots|
  {
    SetSlot(t.(freeCount := t.freeCount + 1), Free(t.freeCount), Bucket(k.hi, k.home, 0, true, Stored(payload)))
      .(freeRoots := t.freeRoots[t.freeCount := RootAt(k.home)])
  }

  lemma FillAlone(s: State, t: Table, h: nat, p: Put, k: Key, last: Loc)
    requires Ready(s, h) && t.Shaped() && t.freeCount < t.Count() && s.table == t.(freeCount := t.freeCount + 1)
    requires s.pcs[h] == Appending(p, FillPayload, last, t.freeCount) && k == Split(p.key, t.Count()) && k.home == h
    ensures Next(Next(Next(Next(s, Work(h)), Work(h)), Work(h)), Work(h))
            == s.(table := Filled(t, k, p.payload), pcs := s.pcs[h := Appending(p, LinkLast, last, t.freeCount)])
  {
    var u, l, slot := s.table, Free(t.freeCount), t.freeCount;
    var a := Slot(u, l).(payload := Stored(p.payload));
    var b := a.(hi := k.hi, next := k.home);
    var c := b.(size := 0, internal := true);
    SetOn(u, l, a, b);
    SetOn(u, l, b, c);
    var s1 := Next(s, Work(h));
    assert s1 == s.(table := SetSlot(u, l, a), pcs := s.pcs[h := Appending(p, FillKey, last, slot)]);
    var s2 := Next(s1, Work(h));
    PcTwice(s.pcs, h, Appending(p, FillKey, last, slot), Appending(p, FillFlag, last, slot));
    assert s2 == s.(table := SetSlot(u, l, b), pcs := s.pcs[h := Appending(p, FillFlag, last, slot)]);
    var s3 := Next(s2, Work(h));
    PcTwice(s.pcs, h, Appending(p, FillFlag, last, slot), Appending(p, FillRoot, last, slot));
    assert s3 == s.(table := SetSlot(u, l, c), pcs := s.pcs[h := Appending(p, FillRoot, last, slot)]);
    PcTwice(s.pcs, h, Appending(p, FillRoot, last, slot), Appending(p, LinkLast, last, slot));
  }

  lemma PcTwice(pcs: seq<Pc>, h: nat, a: Pc, b: Pc)
    requires h < |pcs|
    ensures pcs[h := a][h := b] == pcs[h := b]
  {
  }

  lemma LinkAlone(s: State, h: nat, p: Put, last: Loc, slot: nat)
    requires h < |s.pcs| == s.table.Count() && Inside(s.table, last) && s.pcs[h] == Appending(p, LinkLast, last, slot)
    ensures Next(Next(Next(s, Work(h)), Work(h)), Work(h)) == Done(s, h, Linked(s.table, h, last, slot), p)
  {
    var u := s.table;
    var a := Slot(u, last).(next := slot);
    SetOn(u, last, a, a.(internal := false));
    var s1 := Next(s, Work(h));
    assert s1 == s.(table := SetSlot(u, last, a), pcs := s.pcs[h := Appending(p, ClearFlag, last, slot)]);
    var s2 := Next(s1, Work(h));
    PcTwice(s.pcs, h, Appending(p, ClearFlag, last, slot), Appending(p, BumpSize, last, slot));
    assert s2 == s.(table := SetSlot(u, last, a.(internal := false)),
                    pcs := s.pcs[h := Appending(p, BumpSize, last, slot)]);
    PcTwice(s.pcs, h, Appending(p, BumpSize, last, slot), Idle);
  }

  /** The new bucket is linked behind `last` and counted at the root. */
  function Linked(u: Table, h: nat, last: Loc, slot: nat): Table {
    var v := SetSlot(u, last, Slot(u, last).(next := slot, internal := false));
    SetSlot(v, Managed(h), Bumped(Slot(v, Managed(h))))
  }

  lemma AppendParts(t: Table, k: Key, payload: nat, last: Loc)
    requires t.Shaped() && t.freeCount < t.Count()
    ensures Append(t, k, payload, last) == Linked(Filled(t, k, payload), k.home, last, t.freeCount)
  {
  }

  lemma SevenWorks(s: State, h: nat, d: State, e: State)
    requires d == Next(Next(Next(Next(s, Work(h)), Work(h)), Work(h)), Work(h))
    requires e == Next(Next(Next(d, Work(h)), Work(h)), Work(h))
    ensures RunFrom(s, Works(h, 7)) == e
  {
    WorksTwo(s, h, 5);
    WorksTwo(Next(Next(s, Work(h)), Work(h)), h, 3);
    WorksThree(d, h, 0);
    assert Works(h, 0) == [];
  }

  lemma AppendAlone(s: State, t: Table, h: nat, p: Put, k: Key, last: Loc)
    requires Ready(s, h) && t.Shaped() && t.freeCount < t.Count() && s.table == t.(freeCount := t.freeCount + 1)
    requires s.pcs[h] == Appending(p, FillPayload, last, t.freeCount) && k == Split(p.key, t.Count()) && k.home == h
    requires Inside(t, last)
    ensures RunFrom(s, Works(h, 7)) == Done(s, h, Append(t, k, p.payload, last), p)
  {
    var u := Filled(t, k, p.payload);
    var d := s.(table := u, pcs := s.pcs[h := Appending(p, LinkLast, last, t.freeCount)]);
    var e := Done(s, h, Linked(u, h, last, t.freeCount), p);
    FillAlone(s, t, h, p, k, last);
    LinkAlone(d, h, p, last, t.freeCount);
    PcTwice(s.pcs, h, Appending(p, LinkLast, last, t.freeCount), Idle);
    SevenWorks(s, h, d, e);
    AppendParts(t, k, p.payload, last);
  }

  // ----- Any insertion -----

  /**
   From its beginning to its last write, an insertion that no other one interrupts leaves the table, and records the
   payload, exactly as the insertion as one operation does; if that is refused, nothing changes.
   */
  lemma AloneIsInsert(s: State, cs: seq<Chain>, p: Put)
    requires s.table.Count() > 0 && |s.pcs| == s.table.Count() && Inv(s.table, cs)
    requires s.pcs[Split(p.key, s.table.Count()).home].Idle?
    ensures var s' := RunFrom(s, Whole(p, s.table.Count()));
            match Insert(s.table, Split(p.key, s.table.Count()), p.payload)
            case Placed(t, _) =>
              s'.table == t && s'.contents == s.contents[p.key := Stored(p.payload)] && s'.pcs == s.pcs
            case Rejected => s'.table == s.table && s'.contents == s.contents && s'.pcs == s.pcs
  {
    var t, k := s.table, Split(p.key, s.table.Count());
    var h, b := k.home, Next(s, Begin(p));
    assert Whole(p, t.Count())[1..] == Works(h, 8);
    assert RunFrom(s, Whole(p, t.Count())) == RunFrom(b, Works(h, 8));
    assert ChainOk(t, cs[h], h);
    PcBack(s.pcs, h, b.pcs[h]);
    if Slot(t, Managed(h)).size == 0 {
      FirstAlone(b, h, p, k);
    } else if b.pcs[h].Idle? {
      IdleWorks(b, h, 8);
    } else {
      ProbedAlone(s, b, cs, h, p, k);
    }
  }

  lemma PcBack(pcs: seq<Pc>, h: nat, a: Pc)
    requires h < |pcs| && pcs[h].Idle?
    ensures pcs[h := a][h := Idle] == pcs
  {
  }

  lemma HitAlone(b: State, h: nat, p: Put, l: Loc)
    requires h < |b.pcs| == b.table.Count() && b.pcs[h] == Probed(p, Hit(l))
    ensures RunFrom(b, Works(h, 8))
            == Done(b, h, SetSlot(b.table, l, Slot(b.table, l).(payload := Stored(p.payload))), p)
  {
    WorksMore(b, h, 7);
    IdleWorks(Next(b, Work(h)), h, 7);
  }

  lemma RefusedAlone(b: State, h: nat, p: Put, last: Loc)
    requires h < |b.pcs| == b.table.Count() <= b.table.freeCount && b.pcs[h] == Probed(p, Miss(last))
    ensures RunFrom(b, Works(h, 8)) == b.(pcs := b.pcs[h := Idle])
  {
    WorksMore(b, h, 7);
    IdleWorks(Next(b, Work(h)), h, 7);
  }

  lemma MissAlone(b: State, h: nat, p: Put, k: Key, last: Loc)
    requires Ready(b, h) && b.table.freeCount < b.table.Count() && b.pcs[h] == Probed(p, Miss(last))
    requires Inside(b.table, last) && k == Split(p.key, b.table.Count()) && k.home == h
    ensures RunFrom(b, Works(h, 8)) == Done(b, h, Append(b.table, k, p.payload, last), p)
  {
    WorksMore(b, h, 7);
    PcTwice(b.pcs, h, Appending(p, FillPayload, last, b.table.freeCount), Idle);
    AppendAlone(Next(b, Work(h)), b.table, h, p, k, last);
  }

  lemma ProbedAlone(s: State, b: State, cs: seq<Chain>, h: nat, p: Put, k: Key)
    requires s.table.Count() > 0 && |s.pcs| == s.table.Count() && Inv(s.table, cs) && k == Split(p.key, s.table.Count())
    requires h == k.home && s.pcs[h].Idle? && cs[h] != [] && b == Next(s, Begin(p)) && !b.pcs[h].Idle?
    ensures var s' := RunFrom(b, Works(h, 8));
            match Insert(s.table, k, p.payload)
            case Placed(t, _) =>
              s'.table == t && s'.contents == s.contents[p.key := Stored(p.payload)] && s'.pcs == s.pcs
            case Rejected => s'.table == s.table && s'.contents == s.contents && s'.pcs == s.pcs
  {
    var t, c := s.table, cs[h];
    assert ChainOk(t, c, h);
    var i := ProbeSearches(t, c, k.hi);
    assert InBounds(t, c[i]);
    PcBack(s.pcs, h, b.pcs[h]);
    match b.pcs[h].probe
    case Hit(l) => HitAlone(b, h, p, l);
    case Miss(last) =>
      if t.freeCount < t.Count() {
        MissAlone(b, h, p, k, last);
      } else {
        RefusedAlone(b, h, p, last);
      }
  }
}
