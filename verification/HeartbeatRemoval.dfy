/** Removing paths while the receive loop scans: the steps of the loop and of its callers, interleaved at will. */
module HeartbeatRemoval {
  import opened NodeCollections

  /** How far a call that removes paths has come. */
  datatype Phase = Called | Erased | Locked | Unlocked | Returned

  function Rank(p: Phase): nat {
    match p
    case Called => 0
    case Erased => 1
    case Locked => 2
    case Unlocked => 3
    case Returned => 4
  }

  /** A call that removes paths; `clean` as long as nothing it names has been added since it began. */
  datatype Removal = Removal(targets: seq<Path>, phase: Phase, clean: bool)

  /** Who holds the update lock. */
  datatype Holder = Free | Loop(scanning: bool) | Caller(id: nat)

  /** The receiver's paths, its lock, the part of the copy still to scan, and the paths the node collection lists. */
  datatype State = State(paths: set<Path>, lock: Holder, todo: set<Path>, known: set<Path>, removals: map<nat, Removal>)

  datatype Step =
    | Acquire
    | Snapshot
    | Receive(path: Path, updates: bool)
    | Release
    | Add(added: seq<Path>)
    | Call(id: nat, targets: seq<Path>)
    | Erase(id: nat)
    | Lock(id: nat)
    | Unlock(id: nat)
    | Remove(id: nat)

  predicate At(s: State, id: nat, p: Phase) {
    id in s.removals && s.removals[id].phase == p
  }

  predicate Enabled(s: State, t: Step) {
    match t
    case Acquire => s.lock == Free
    case Snapshot => s.lock == Loop(false)
    case Receive(q, _) => s.lock == Loop(true) && q in s.todo
    case Release => s.lock == Loop(true) && s.todo == {}
    case Add(_) => true
    case Call(id, _) => id !in s.removals
    case Erase(id) => At(s, id, Called)
    case Lock(id) => At(s, id, Erased) && s.lock == Free
    case Unlock(id) => At(s, id, Locked) && s.lock == Caller(id)
    case Remove(id) => At(s, id, Unlocked)
  }

  predicate NamesNone(added: seq<Path>, targets: seq<Path>) {
    forall i | 0 <= i < |added| :: !BelowAny(targets, added[i])
  }

  function Reached(s: State, id: nat, p: Phase): State
    requires id in s.removals
  {
    s.(removals := s.removals[id := s.removals[id].(phase := p)])
  }

  function Spoiled(r: Removal, added: seq<Path>): Removal {
    r.(clean := r.clean && NamesNone(added, r.targets))
  }

  function Kept(qs: set<Path>, targets: seq<Path>): set<Path> {
    set q | q in qs && !BelowAny(targets, q)
  }

  function After(s: State, t: Step): State
    requires Enabled(s, t)
  {
    match t
    case Acquire => s.(lock := Loop(false))
    case Snapshot => s.(lock := Loop(true), todo := s.paths)
    case Receive(q, updates) => s.(todo := s.todo - {q}, known := if updates then s.known + {q} else s.known)
    case Release => s.(lock := Free)
    case Add(added) =>
      s.(paths := s.paths + (set q | q in added),
         removals := map id | id in s.removals :: Spoiled(s.removals[id], added))
    case Call(id, targets) => s.(removals := s.removals[id := Removal(targets, Called, true)])
    case Erase(id) => Reached(s, id, Erased).(paths := Kept(s.paths, s.removals[id].targets))
    case Lock(id) => Reached(s, id, Locked).(lock := Caller(id))
    case Unlock(id) => Reached(s, id, Unlocked).(lock := Free)
    case Remove(id) => Reached(s, id, Returned).(known := Kept(s.known, s.removals[id].targets))
  }

  /** Paths can be added and removals begun at any time, and these show at once. */
  lemma CallersAreFree(s: State, added: seq<Path>, id: nat, targets: seq<Path>)
    requires id !in s.removals
    ensures Enabled(s, Add(added)) && forall q :: q in After(s, Add(added)).paths <==> q in s.paths || q in added
    ensures Enabled(s, Call(id, targets))
            && After(s, Call(id, targets)).removals == s.removals[id := Removal(targets, Called, true)]
  {
  }

  // ----- What every step keeps -----

  ghost predicate NoneBelow(qs: set<Path>, targets: seq<Path>) {
    forall q | q in qs :: !BelowAny(targets, q)
  }

  ghost predicate RemovalOk(s: State, r: Removal) {
    r.clean ==>
      && (Rank(r.phase) >= Rank(Erased) ==> NoneBelow(s.paths, r.targets))
      && (Rank(r.phase) >= Rank(Locked) ==> NoneBelow(s.todo, r.targets))
      && (Rank(r.phase) >= Rank(Returned) ==> NoneBelow(s.known, r.targets))
  }

  ghost predicate Inv(s: State) {
    && (s.lock != Loop(true) ==> s.todo == {})
    && forall id | id in s.removals :: RemovalOk(s, s.removals[id])
  }

  lemma StepKeeps(s: State, t: Step)
    requires Inv(s) && Enabled(s, t)
    ensures Inv(After(s, t))
  {
    var s' := After(s, t);
    forall id | id in s'.removals ensures RemovalOk(s', s'.removals[id]) {
      if id in s.removals {
        assert RemovalOk(s, s.removals[id]);
        RemovalKeeps(s, t, id);
      }
    }
  }

  lemma RemovalKeeps(s: State, t: Step, id: nat)
    requires Enabled(s, t) && id in s.removals && RemovalOk(s, s.removals[id])
             && (s.lock != Loop(true) ==> s.todo == {})
    ensures id in After(s, t).removals && RemovalOk(After(s, t), After(s, t).removals[id])
  {
    if t.Add? {
      AddKeeps(s, t.added, s.removals[id]);
    }
  }

  lemma AddKeeps(s: State, added: seq<Path>, r: Removal)
    requires RemovalOk(s, r)
    ensures RemovalOk(After(s, Add(added)), Spoiled(r, added))
  {
  }

  // ----- Whole runs -----

  ghost predicate Initial(s: State) {
    s.lock == Free && s.todo == {} && s.removals == map[]
  }

  ghost predicate IsRun(s: State, steps: seq<Step>)
    decreases |steps|
  {
    steps == [] || (Enabled(s, steps[0]) && IsRun(After(s, steps[0]), steps[1..]))
  }

  ghost function Final(s: State, steps: seq<Step>): State
    requires IsRun(s, steps)
    decreases |steps|
  {
    if steps == [] then s else Final(After(s, steps[0]), steps[1..])
  }

  /** No step from `from` on adds a target or a path below one. */
  ghost predicate NothingAdded(steps: seq<Step>, from: nat, targets: seq<Path>) {
    forall i | from <= i < |steps| && steps[i].Add? :: NamesNone(steps[i].added, targets)
  }

  lemma {:induction false} RunKeeps(s: State, steps: seq<Step>)
    requires Inv(s) && IsRun(s, steps)
    ensures Inv(Final(s, steps))
    decreases |steps|
  {
    if steps != [] {
      StepKeeps(s, steps[0]);
      RunKeeps(After(s, steps[0]), steps[1..]);
    }
  }

  lemma {:induction false} StaysClean(s: State, steps: seq<Step>, id: nat)
    requires IsRun(s, steps) && id in s.removals && s.removals[id].clean
             && NothingAdded(steps, 0, s.removals[id].targets)
    ensures id in Final(s, steps).removals
    ensures var r := Final(s, steps).removals[id]; r.clean && r.targets == s.removals[id].targets
    decreases |steps|
  {
    if steps != [] {
      var s' := After(s, steps[0]);
      assert NothingAdded(steps[1..], 0, s.removals[id].targets) by {
        forall i | 0 <= i < |steps[1..]| && steps[1..][i].Add?
          ensures NamesNone(steps[1..][i].added, s.removals[id].targets)
        {
          assert steps[1..][i] == steps[i + 1];
        }
      }
      assert steps[0].Add? ==> NamesNone(steps[0].added, s.removals[id].targets);
      StaysClean(s', steps[1..], id);
    }
  }

  lemma {:induction false} CalledIsClean(s: State, steps: seq<Step>, i: nat)
    requires IsRun(s, steps) && i < |steps| && steps[i].Call? && NothingAdded(steps, i, steps[i].targets)
    ensures var s' := Final(s, steps);
            steps[i].id in s'.removals && s'.removals[steps[i].id].clean
              && s'.removals[steps[i].id].targets == steps[i].targets
    decreases |steps|
  {
    var rest := steps[1..];
    forall j | 0 <= j < |rest| ensures rest[j] == steps[j + 1] {
    }
    if i == 0 {
      StaysClean(After(s, steps[0]), rest, steps[0].id);
    } else {
      CalledIsClean(After(s, steps[0]), rest, i - 1);
    }
  }

  /**
   In every run, once a call that removes paths has returned, the collection knows none of them and none
   below them, provided no path of that kind was added since the call began.
   */
  lemma RemovalTakesEffect(s: State, steps: seq<Step>, i: nat)
    requires Initial(s) && IsRun(s, steps) && i < |steps| && steps[i].Call?
    requires NothingAdded(steps, i, steps[i].targets) && At(Final(s, steps), steps[i].id, Returned)
    ensures NoneBelow(Final(s, steps).known, steps[i].targets)
  {
    RunKeeps(s, steps);
    CalledIsClean(s, steps, i);
    assert RemovalOk(Final(s, steps), Final(s, steps).removals[steps[i].id]);
  }

  // ----- What removals leave alone -----

  /** No call so far names q or a path above it. */
  ghost predicate Unnamed(s: State, q: Path) {
    forall id | id in s.removals :: !BelowAny(s.removals[id].targets, q)
  }

  lemma UnnamedBefore(s: State, t: Step, q: Path)
    requires Enabled(s, t) && Unnamed(After(s, t), q)
    ensures Unnamed(s, q)
    ensures q in s.known ==> q in After(s, t).known
    ensures q in s.paths ==> q in After(s, t).paths
  {
    forall id | id in s.removals ensures !BelowAny(s.removals[id].targets, q) {
      assert id in After(s, t).removals && After(s, t).removals[id].targets == s.removals[id].targets;
    }
  }

  lemma {:induction false} RunUnnamed(s: State, steps: seq<Step>, q: Path)
    requires IsRun(s, steps) && Unnamed(Final(s, steps), q)
    ensures Unnamed(s, q)
    ensures q in s.known ==> q in Final(s, steps).known
    ensures q in s.paths ==> q in Final(s, steps).paths
    decreases |steps|
  {
    if steps != [] {
      RunUnnamed(After(s, steps[0]), steps[1..], q);
      UnnamedBefore(s, steps[0], q);
    }
  }

  /** The steps from i on, as a run of their own. */
  lemma {:induction false} RunFromStep(s: State, steps: seq<Step>, i: nat) returns (at: State)
    requires IsRun(s, steps) && i < |steps|
    ensures Enabled(at, steps[i]) && IsRun(After(at, steps[i]), steps[i + 1..])
    ensures Final(After(at, steps[i]), steps[i + 1..]) == Final(s, steps)
    decreases |steps|
  {
    if i == 0 {
      at := s;
    } else {
      at := RunFromStep(After(s, steps[0]), steps[1..], i - 1);
      assert steps[1..][i - 1] == steps[i] && steps[1..][i..] == steps[i + 1..];
    }
  }

  /**
   A path that no removal names, itself or above it, stays: once it has been added it is scanned from then on,
   and once a scan has listed it the collection knows it from then on.
   */
  lemma OthersStay(s: State, steps: seq<Step>, i: nat, q: Path)
    requires IsRun(s, steps) && i < |steps| && Unnamed(Final(s, steps), q)
    ensures steps[i].Add? && q in steps[i].added ==> q in Final(s, steps).paths
    ensures steps[i].Receive? && steps[i].path == q && steps[i].updates ==> q in Final(s, steps).known
  {
    var at := RunFromStep(s, steps, i);
    RunUnnamed(After(at, steps[i]), steps[i + 1..], q);
  }

  // ----- Removals return -----

  /** The lock is held by exactly the call that is between locking and unlocking. */
  ghost predicate LockOk(s: State) {
    forall id :: At(s, id, Locked) <==> s.lock == Caller(id)
  }

  lemma {:induction false} LockKept(s: State, steps: seq<Step>)
    requires LockOk(s) && IsRun(s, steps)
    ensures LockOk(Final(s, steps))
    decreases |steps|
  {
    if steps != [] {
      var s' := After(s, steps[0]);
      forall id ensures At(s', id, Locked) <==> s'.lock == Caller(id) {
        assert At(s, id, Locked) <==> s.lock == Caller(id);
      }
      LockKept(s', steps[1..]);
    }
  }

  lemma {:induction false} RunOn(s: State, a: seq<Step>, b: seq<Step>)
    requires IsRun(s, a) && IsRun(Final(s, a), b)
    ensures IsRun(s, a + b) && Final(s, a + b) == Final(Final(s, a), b)
    decreases |a|
  {
    if a == [] {
      assert a + b == b;
    } else {
      assert (a + b)[0] == a[0] && (a + b)[1..] == a[1..] + b;
      RunOn(After(s, a[0]), a[1..], b);
    }
  }

  lemma {:induction false} ScanEnds(s: State) returns (steps: seq<Step>)
    requires s.lock == Loop(true)
    ensures IsRun(s, steps) && Final(s, steps) == s.(lock := Free, todo := {})
    decreases |s.todo|
  {
    if s.todo == {} {
      steps := [Release];
      assert [Release][1..] == [];
    } else {
      var q :| q in s.todo;
      var t := Receive(q, false);
      var rest := ScanEnds(After(s, t));
      steps := [t] + rest;
      assert steps[1..] == rest;
    }
  }

  /** Whoever holds the lock can go on until it is free. */
  lemma LockFrees(s: State) returns (steps: seq<Step>)
    requires LockOk(s)
    ensures IsRun(s, steps) && Final(s, steps).lock == Free && Final(s, steps).removals.Keys == s.removals.Keys
    ensures forall id | id in s.removals ::
              Final(s, steps).removals[id]
                == if s.lock == Caller(id) then s.removals[id].(phase := Unlocked) else s.removals[id]
  {
    match s.lock
    case Free => steps := [];
    case Loop(scanning) =>
      var s' := if scanning then s else After(s, Snapshot);
      steps := ScanEnds(s');
      if !scanning {
        assert ([Snapshot] + steps)[1..] == steps;
        steps := [Snapshot] + steps;
      }
    case Caller(id) =>
      assert At(s, id, Locked);
      steps := [Unlock(id)];
      assert [Unlock(id)][1..] == [];
  }

  lemma OneStep(s: State, t: Step)
    requires Enabled(s, t)
    ensures IsRun(s, [t]) && Final(s, [t]) == After(s, t)
  {
    assert [t][1..] == [];
  }

  lemma LastSteps(s: State, id: nat) returns (steps: seq<Step>)
    requires LockOk(s) && id in s.removals && (At(s, id, Erased) ==> s.lock == Free) && !At(s, id, Called)
    ensures IsRun(s, steps) && At(Final(s, steps), id, Returned)
  {
    steps := [];
    var u := s;
    if At(u, id, Erased) {
      OneStep(u, Lock(id));
      steps, u := [Lock(id)], After(u, Lock(id));
    }
    if At(u, id, Locked) {
      LockKept(s, steps);
      assert u.lock == Caller(id);
      OneStep(u, Unlock(id));
      RunOn(s, steps, [Unlock(id)]);
      steps, u := steps + [Unlock(id)], After(u, Unlock(id));
    }
    if At(u, id, Unlocked) {
      OneStep(u, Remove(id));
      RunOn(s, steps, [Remove(id)]);
      steps, u := steps + [Remove(id)], After(u, Remove(id));
    }
  }

  /** From every reachable state, every call that removes paths can still return. */
  lemma RemovalCanReturn(s: State, before: seq<Step>, id: nat) returns (steps: seq<Step>)
    requires Initial(s) && IsRun(s, before) && id in Final(s, before).removals
    ensures IsRun(s, before + steps) && At(Final(s, before + steps), id, Returned)
  {
    LockKept(s, before);
    var u := Final(s, before);
    steps := [];
    if At(u, id, Called) {
      OneStep(u, Erase(id));
      steps := [Erase(id)];
    }
    LockKept(u, steps);
    var v := Final(u, steps);
    if At(v, id, Erased) {
      var freeing := LockFrees(v);
      RunOn(u, steps, freeing);
      LockKept(v, freeing);
      steps := steps + freeing;
    }
    var last := LastSteps(Final(u, steps), id);
    RunOn(u, steps, last);
    steps := steps + last;
    RunOn(s, before, steps);
  }
}
