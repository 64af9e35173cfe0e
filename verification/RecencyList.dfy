/** A bounded list of entries, most recently used first: what the cache is a fast form of. */
module RecencyList {
  import opened Collections

  const WORD: nat := 0x1_0000_0000_0000_0000

  datatype Entry<K, V> = Entry(key: K, val: V, ts: nat)

  datatype Config = Config(capacity: nat, expire: nat)

  /** The difference of two clock readings as the machine computes it. */
  function Minus(a: nat, b: nat): nat {
    (a - b) % WORD
  }

  function Find<K(==), V>(s: seq<Entry<K, V>>, k: K): (r: int)
    ensures -1 <= r < |s| && (r >= 0 ==> s[r].key == k)
    ensures forall i | 0 <= i < (if r < 0 then |s| else r) :: s[i].key != k
  {
    if s == [] then -1
    else if s[0].key == k then 0
    else
      var r := Find(s[1..], k);
      assert forall i | 0 < i < |s| :: s[i] == s[1..][i - 1];
      if r < 0 then -1 else r + 1
  }

  function Drop<T>(s: seq<T>, i: int): seq<T> {
    if 0 <= i < |s| then s[..i] + s[i + 1..] else s
  }

  predicate Fresh<K, V>(e: Entry<K, V>, now: nat, c: Config) {
    Minus(now, e.ts) < c.expire
  }

  /** What a lookup answers. */
  function Answer<K(==), V>(s: seq<Entry<K, V>>, k: K, now: nat, c: Config): Option<V> {
    var i := Find(s, k);
    if i >= 0 && Fresh(s[i], now, c) then Some(s[i].val) else None
  }

  /** A hit moves the entry to the front, an expired entry is dropped. */
  function AfterGet<K(==), V>(s: seq<Entry<K, V>>, k: K, now: nat, c: Config): seq<Entry<K, V>> {
    var i := Find(s, k);
    if i < 0 then s
    else if Fresh(s[i], now, c) then [s[i]] + Drop(s, i)
    else Drop(s, i)
  }

  /** The entries that stay when one more needs room. */
  function Shortened<T>(s: seq<T>, capacity: nat): seq<T> {
    if |s| >= capacity > 0 then s[..capacity - 1] else s
  }

  /** The new entry comes first; if the list was full its last entry goes. */
  function AfterPut<K(==), V>(s: seq<Entry<K, V>>, k: K, v: V, now: nat, c: Config): seq<Entry<K, V>> {
    var i := Find(s, k);
    [Entry(k, v, now)] + if i >= 0 then Drop(s, i) else Shortened(s, c.capacity)
  }

  ghost predicate Distinct<K, V>(s: seq<Entry<K, V>>) {
    forall i, j | 0 <= i < j < |s| :: s[i].key != s[j].key
  }

  ghost predicate Ok<K, V>(s: seq<Entry<K, V>>, c: Config) {
    Distinct(s) && |s| <= c.capacity
  }

  // ----- Runs -----

  datatype Op<K, V> = Get(key: K, now: nat) | Put(key: K, val: V, now: nat)

  function Apply<K(==), V>(s: seq<Entry<K, V>>, op: Op<K, V>, c: Config): seq<Entry<K, V>> {
    match op
    case Get(k, now) => AfterGet(s, k, now, c)
    case Put(k, v, now) => AfterPut(s, k, v, now, c)
  }

  function Run<K(==), V>(ops: seq<Op<K, V>>, c: Config): seq<Entry<K, V>> {
    if ops == [] then [] else Apply(Run(ops[..|ops| - 1], c), ops[|ops| - 1], c)
  }

  ghost predicate NoKey<K, V>(s: seq<Entry<K, V>>, k: K) {
    forall i | 0 <= i < |s| :: s[i].key != k
  }

  lemma DropAt<T>(s: seq<T>, i: nat)
    requires i < |s|
    ensures |Drop(s, i)| == |s| - 1 && forall j | 0 <= j < |s| - 1 :: Drop(s, i)[j] == s[if j < i then j else j + 1]
  {
  }

  lemma DropKeeps<K, V>(s: seq<Entry<K, V>>, i: nat)
    requires Distinct(s) && i < |s|
    ensures Distinct(Drop(s, i)) && |Drop(s, i)| == |s| - 1 && NoKey(Drop(s, i), s[i].key)
  {
    DropAt(s, i);
  }

  lemma FrontKeeps<K, V>(s: seq<Entry<K, V>>, e: Entry<K, V>)
    requires Distinct(s) && NoKey(s, e.key)
    ensures Distinct([e] + s)
  {
    var r := [e] + s;
    assert forall j | 0 <= j < |r| :: r[j] == if j == 0 then e else s[j - 1];
  }

  lemma GetKeeps<K, V>(s: seq<Entry<K, V>>, k: K, now: nat, c: Config)
    requires Ok(s, c)
    ensures Ok(AfterGet(s, k, now, c), c)
  {
    var i := Find(s, k);
    if i >= 0 {
      DropKeeps(s, i);
      FrontKeeps(Drop(s, i), s[i]);
    }
  }

  lemma PutKeeps<K, V>(s: seq<Entry<K, V>>, k: K, v: V, now: nat, c: Config)
    requires Ok(s, c) && c.capacity > 0
    ensures Ok(AfterPut(s, k, v, now, c), c)
  {
    var i := Find(s, k);
    if i >= 0 {
      DropKeeps(s, i);
      FrontKeeps(Drop(s, i), Entry(k, v, now));
    } else {
      FrontKeeps(Shortened(s, c.capacity), Entry(k, v, now));
    }
  }

  /** Some entry for k is younger than allowed, by the machine's clock. */
  ghost predicate InTime<K, V>(s: seq<Entry<K, V>>, k: K, now: nat, expire: nat) {
    exists e | e in s :: e.key == k && (now - e.ts) % 0x1_0000_0000_0000_0000 < expire
  }

  ghost predicate Stores<K, V>(s: seq<Entry<K, V>>, k: K, v: V) {
    exists e | e in s :: e.key == k && e.val == v
  }

  /** A lookup finds a key exactly if it is there and in time; otherwise no entry for it stays. */
  lemma AnswerIsExact<K, V>(s: seq<Entry<K, V>>, k: K, now: nat, c: Config)
    requires Distinct(s)
    ensures Answer(s, k, now, c).Some? <==> InTime(s, k, now, c.expire)
    ensures Answer(s, k, now, c).Some? ==> Stores(s, k, Answer(s, k, now, c).value)
    ensures Answer(s, k, now, c).None? ==> NoKey(AfterGet(s, k, now, c), k)
  {
    var p := Find(s, k);
    if p >= 0 {
      assert s[p] in s;
      forall e | e in s && e.key == k ensures e == s[p] {
        var q :| 0 <= q < |s| && s[q] == e;
      }
      DropKeeps(s, p);
    }
  }

  lemma ApplyKeeps<K, V>(s: seq<Entry<K, V>>, op: Op<K, V>, c: Config)
    requires Ok(s, c) && c.capacity > 0
    ensures Ok(Apply(s, op, c), c)
  {
    match op
    case Get(k, now) => GetKeeps(s, k, now, c);
    case Put(k, v, now) => PutKeeps(s, k, v, now, c);
  }

  lemma {:induction false} RunIsOk<K, V>(ops: seq<Op<K, V>>, c: Config)
    requires c.capacity > 0
    ensures Ok(Run(ops, c), c)
  {
    if ops != [] {
      RunIsOk(ops[..|ops| - 1], c);
      ApplyKeeps(Run(ops[..|ops| - 1], c), ops[|ops| - 1], c);
    }
  }

  /** The operation stores k or finds it. */
  predicate Uses<K(==), V>(s: seq<Entry<K, V>>, op: Op<K, V>, k: K, c: Config) {
    op.key == k && (op.Put? || Answer(s, k, op.now, c).Some?)
  }

  /** Step i of the run stores k or finds it. */
  predicate UsedAt<K(==), V>(ops: seq<Op<K, V>>, i: nat, k: K, c: Config) {
    i < |ops| && Uses(Run(ops[..i], c), ops[i], k, c)
  }

  /** The other keys used behind step i. */
  ghost function Others<K, V>(ops: seq<Op<K, V>>, i: nat, k: K, c: Config): set<K> {
    if |ops| <= i + 1 then {}
    else
      var front, last := ops[..|ops| - 1], ops[|ops| - 1];
      Others(front, i, k, c) + if last.key != k && Uses(Run(front, c), last, last.key, c) then {last.key} else {}
  }

  /** The last entry stored for k. */
  function LastPut<K(==), V>(ops: seq<Op<K, V>>, k: K): Option<Entry<K, V>> {
    if ops == [] then None
    else
      var last := ops[|ops| - 1];
      if last.Put? && last.key == k then Some(Entry(k, last.val, last.now)) else LastPut(ops[..|ops| - 1], k)
  }

  /** The clock never goes back and no reading exceeds now. */
  ghost predicate ClockUpTo<K, V>(ops: seq<Op<K, V>>, now: nat) {
    && now < WORD && (forall i | 0 <= i < |ops| :: ops[i].now <= now)
    && forall i, j | 0 <= i < j < |ops| :: ops[i].now <= ops[j].now
  }

  lemma FindAt<K, V>(s: seq<Entry<K, V>>, p: nat)
    requires Distinct(s) && p < |s|
    ensures Find(s, s[p].key) == p
  {
    var r := Find(s, s[p].key);
    assert r >= 0 ==> s[r].key == s[p].key;
  }

  lemma DropHolds<T>(s: seq<T>, p: nat, i: nat)
    requires p < |s| && i < |s| - 1
    ensures i < |Drop(s, p)| && Drop(s, p)[i] in s
  {
    DropAt(s, p);
  }

  lemma GetOrigin<K, V>(s: seq<Entry<K, V>>, k: K, now: nat, c: Config, i: nat)
    requires i < |AfterGet(s, k, now, c)|
    ensures AfterGet(s, k, now, c)[i] in s
  {
    var p := Find(s, k);
    if p >= 0 {
      if Fresh(s[p], now, c) {
        if i > 0 {
          DropHolds(s, p, i - 1);
          assert AfterGet(s, k, now, c)[i] == Drop(s, p)[i - 1];
        }
      } else {
        DropHolds(s, p, i);
      }
    }
  }

  lemma PutOrigin<K, V>(s: seq<Entry<K, V>>, k: K, v: V, now: nat, c: Config, i: nat)
    requires Distinct(s) && 0 < i < |AfterPut(s, k, v, now, c)|
    ensures AfterPut(s, k, v, now, c)[i] in s && AfterPut(s, k, v, now, c)[i].key != k
  {
    var p := Find(s, k);
    if p >= 0 {
      assert AfterPut(s, k, v, now, c)[i] == Drop(s, p)[i - 1];
      DropHolds(s, p, i - 1);
      DropKeeps(s, p);
    } else {
      assert AfterPut(s, k, v, now, c)[i] == Shortened(s, c.capacity)[i - 1] == s[i - 1];
    }
  }

  /** An entry is the one just stored, or was there before. */
  lemma Origin<K, V>(s: seq<Entry<K, V>>, op: Op<K, V>, c: Config, i: nat)
    requires Distinct(s) && i < |Apply(s, op, c)|
    ensures var e := Apply(s, op, c)[i];
            if op.Put? && op.key == e.key then e == Entry(op.key, op.val, op.now) else e in s
  {
    match op
    case Get(k, now) => GetOrigin(s, k, now, c, i);
    case Put(k, v, now) => if i > 0 { PutOrigin(s, k, v, now, c, i); }
  }

  /** Whatever is in the list is what was last stored for its key. */
  lemma {:induction false} EntriesAreLastPuts<K, V>(ops: seq<Op<K, V>>, c: Config, i: nat)
    requires c.capacity > 0 && i < |Run(ops, c)|
    ensures LastPut(ops, Run(ops, c)[i].key) == Some(Run(ops, c)[i])
    decreases |ops|
  {
    var front, last := ops[..|ops| - 1], ops[|ops| - 1];
    var s, e := Run(front, c), Run(ops, c)[i];
    RunIsOk(front, c);
    Origin(s, last, c, i);
    if !(last.Put? && last.key == e.key) {
      var j :| 0 <= j < |s| && s[j] == e;
      EntriesAreLastPuts(front, c, j);
    }
  }

  // ----- Retention -----

  /** k is at place p, and everything in front of it has been used since. */
  ghost predicate Kept<K, V>(s: seq<Entry<K, V>>, p: nat, k: K, others: set<K>) {
    p < |s| && s[p].key == k && forall i | 0 <= i < p :: s[i].key in others
  }

  /** Distinct keys in front of k are as many as its place. */
  lemma {:induction false} FrontCounts<K, V>(s: seq<Entry<K, V>>, p: nat, others: set<K>)
    requires Distinct(s) && p <= |s| && forall i | 0 <= i < p :: s[i].key in others
    ensures p <= |others|
    decreases p
  {
    if p > 0 {
      forall i | 0 <= i < p - 1 ensures s[i].key in others - {s[p - 1].key} {
      }
      FrontCounts(s, p - 1, others - {s[p - 1].key});
    }
  }

  /** With few others used, k is not the last of a full list. */
  lemma AddKept<K, V>(s: seq<Entry<K, V>>, e: Entry<K, V>, capacity: nat, p: nat, k: K, others: set<K>)
    requires Distinct(s) && |s| <= capacity && Kept(s, p, k, others) && NoKey(s, e.key) && |others + {e.key}| < capacity
    ensures Kept([e] + Shortened(s, capacity), p + 1, k, others + {e.key})
  {
    var rest := others + {e.key} - {e.key};
    forall j | 0 <= j < p ensures s[j].key in rest {
    }
    FrontCounts(s, p, rest);
    KeptBehind(Shortened(s, capacity), e, p, k, others);
  }

  lemma KeptBehind<K, V>(s: seq<Entry<K, V>>, e: Entry<K, V>, p: nat, k: K, others: set<K>)
    requires Kept(s, p, k, others)
    ensures Kept([e] + s, p + 1, k, others + {e.key})
  {
  }

  lemma DropKept<K, V>(s: seq<Entry<K, V>>, i: nat, p: nat, k: K, others: set<K>) returns (q: nat)
    requires i < |s| && Kept(s, p, k, others) && s[i].key != k
    ensures Kept(Drop(s, i), q, k, others)
  {
    q := if i < p then p - 1 else p;
    var r := Drop(s, i);
    forall j | 0 <= j < |r| ensures r[j] == s[if j < i then j else j + 1] {
    }
  }

  lemma PutKept<K, V>(s: seq<Entry<K, V>>, x: K, v: V, now: nat, c: Config, p: nat, k: K, others: set<K>)
      returns (q: nat)
    requires Ok(s, c) && Kept(s, p, k, others) && x != k && |others + {x}| < c.capacity
    ensures Kept(AfterPut(s, x, v, now, c), q, k, others + {x})
  {
    var i := Find(s, x);
    if i < 0 {
      AddKept(s, Entry(x, v, now), c.capacity, p, k, others);
      q := p + 1;
    } else {
      q := DropKept(s, i, p, k, others);
      KeptBehind(Drop(s, i), Entry(x, v, now), q, k, others);
      q := q + 1;
    }
  }

  lemma GetKept<K, V>(s: seq<Entry<K, V>>, x: K, now: nat, c: Config, p: nat, k: K, others: set<K>) returns (q: nat)
    requires Ok(s, c) && Kept(s, p, k, others) && x != k
    ensures Kept(AfterGet(s, x, now, c), q, k, others + if Answer(s, x, now, c).Some? then {x} else {})
  {
    var i := Find(s, x);
    q := p;
    if i >= 0 {
      q := DropKept(s, i, p, k, others);
      if Fresh(s[i], now, c) {
        KeptBehind(Drop(s, i), s[i], q, k, others);
        q := q + 1;
      }
    }
  }

  lemma {:induction false} PutTime<K, V>(ops: seq<Op<K, V>>, k: K, now: nat)
    requires LastPut(ops, k).Some? && forall i | 0 <= i < |ops| :: ops[i].now <= now
    ensures LastPut(ops, k).value.key == k && LastPut(ops, k).value.ts <= now
    decreases |ops|
  {
    var front := ops[..|ops| - 1];
    if !(ops[|ops| - 1].Put? && ops[|ops| - 1].key == k) {
      forall i | 0 <= i < |front| ensures front[i].now <= now {
        assert front[i] == ops[i];
      }
      PutTime(front, k, now);
    }
  }

  lemma PlainMinus(a: nat, b: nat)
    requires b <= a < WORD
    ensures Minus(a, b) == a - b
  {
  }

  /** While k is in the list and its time is not up, a lookup finds it. */
  lemma HitWhileFresh<K, V>(ops: seq<Op<K, V>>, k: K, p: nat, now: nat, later: nat, c: Config)
    requires c.capacity > 0 && p < |Run(ops, c)| && Run(ops, c)[p].key == k && ClockUpTo(ops, now)
             && now <= later < WORD
    requires LastPut(ops, k).Some? && later - LastPut(ops, k).value.ts < c.expire
    ensures Answer(Run(ops, c), k, now, c) == Some(LastPut(ops, k).value.val)
  {
    RunIsOk(ops, c);
    FindAt(Run(ops, c), p);
    EntriesAreLastPuts(ops, c, p);
    PutTime(ops, k, now);
    PlainMinus(now, LastPut(ops, k).value.ts);
  }

  /** What a lookup finds is the last value stored, and that is not older than allowed. */
  lemma FoundIsInTime<K, V>(ops: seq<Op<K, V>>, k: K, v: V, now: nat, c: Config)
    requires c.capacity > 0 && ClockUpTo(ops, now) && Answer(Run(ops, c), k, now, c) == Some(v)
    ensures LastPut(ops, k).Some? && LastPut(ops, k).value.val == v && now - LastPut(ops, k).value.ts < c.expire
  {
    var p := Find(Run(ops, c), k);
    EntriesAreLastPuts(ops, c, p);
    PutTime(ops, k, now);
    PlainMinus(now, LastPut(ops, k).value.ts);
  }

  /** A key that was never stored, or last stored as long ago as allowed, is not found, and leaves nothing behind. */
  lemma ExpiredIsGone<K, V>(ops: seq<Op<K, V>>, k: K, now: nat, c: Config)
    requires c.capacity > 0 && ClockUpTo(ops, now)
    requires LastPut(ops, k).Some? ==> now - LastPut(ops, k).value.ts >= c.expire
    ensures Answer(Run(ops, c), k, now, c) == None && NoKey(Run(ops + [Get(k, now)], c), k)
  {
    var s, more := Run(ops, c), ops + [Get(k, now)];
    if Answer(s, k, now, c).Some? {
      FoundIsInTime(ops, k, Answer(s, k, now, c).value, now, c);
    }
    assert more[..|ops|] == ops;
    RunIsOk(ops, c);
    if Find(s, k) >= 0 {
      DropKeeps(s, Find(s, k));
    }
  }

  lemma UseComesFirst<K, V>(s: seq<Entry<K, V>>, op: Op<K, V>, k: K, c: Config)
    requires Uses(s, op, k, c)
    ensures Kept(Apply(s, op, c), 0, k, {})
  {
  }

  /** The premises of retention hold of the run without its last step. */
  lemma FrontOfRun<K, V>(ops: seq<Op<K, V>>, i: nat, k: K, now: nat, c: Config)
    requires i + 1 < |ops| && UsedAt(ops, i, k, c) && !UsedAt(ops, |ops| - 1, k, c) && ClockUpTo(ops, now)
    ensures var front, last := ops[..|ops| - 1], ops[|ops| - 1];
            && ClockUpTo(front, last.now) && last.now <= now
            && LastPut(front, k) == LastPut(ops, k)
            && !Uses(Run(front, c), last, k, c)
            && (forall j: nat | j < |front| :: UsedAt(front, j, k, c) == UsedAt(ops, j, k, c))
  {
    var front := ops[..|ops| - 1];
    forall j: nat | j < |front| ensures UsedAt(front, j, k, c) == UsedAt(ops, j, k, c) {
      assert front[..j] == ops[..j];
    }
  }

  /** Between its last use and now, k moves back only behind keys used since. */
  lemma {:induction false} KeptInRun<K, V>(ops: seq<Op<K, V>>, i: nat, k: K, now: nat, c: Config) returns (p: nat)
    requires c.capacity > 0 && UsedAt(ops, i, k, c) && (forall j: nat | i < j < |ops| :: !UsedAt(ops, j, k, c))
    requires |Others(ops, i, k, c)| < c.capacity && ClockUpTo(ops, now)
    requires LastPut(ops, k).Some? && now - LastPut(ops, k).value.ts < c.expire
    ensures Kept(Run(ops, c), p, k, Others(ops, i, k, c)) && k !in Others(ops, i, k, c)
    decreases |ops|
  {
    var front, last := ops[..|ops| - 1], ops[|ops| - 1];
    if |ops| == i + 1 {
      UseComesFirst(Run(front, c), last, k, c);
      p := 0;
    } else {
      FrontOfRun(ops, i, k, now, c);
      var others := Others(front, i, k, c);
      assert others <= Others(ops, i, k, c);
      SubsetSize(others, Others(ops, i, k, c));
      p := KeptInRun(front, i, k, last.now, c);
      RunIsOk(front, c);
      if last.key == k {
        HitWhileFresh(front, k, p, last.now, now, c);
        assert false;
      } else if last.Put? {
        p := PutKept(Run(front, c), last.key, last.val, last.now, c, p, k, others);
      } else {
        p := GetKept(Run(front, c), last.key, last.now, c, p, k, others);
      }
    }
  }

  /**
   If fewer than `capacity` other keys were stored or found since k was last stored or found, and what
   was last stored for k has not expired, then looking k up answers with it.
   */
  lemma Retention<K, V>(ops: seq<Op<K, V>>, i: nat, k: K, now: nat, c: Config)
    requires c.capacity > 0 && UsedAt(ops, i, k, c) && (forall j: nat | i < j < |ops| :: !UsedAt(ops, j, k, c))
    requires |Others(ops, i, k, c)| < c.capacity && ClockUpTo(ops, now)
    requires LastPut(ops, k).Some? && now - LastPut(ops, k).value.ts < c.expire
    ensures Answer(Run(ops, c), k, now, c) == Some(LastPut(ops, k).value.val)
  {
    var p := KeptInRun(ops, i, k, now, c);
    HitWhileFresh(ops, k, p, now, now, c);
  }
}
