/** The servers known for each path, with a blacklist, an inverted index and a round-robin position. */
module NodeCollections {
  import opened Collections

  type Server = string
  type Path = string
  type Index = map<Server, set<Path>>

  /** q is p or lies below it. */
  predicate Below(p: Path, q: Path) {
    p <= q && (|q| == |p| || q[|p|] == '/')
  }

  /** That is the path itself and whatever continues it with a slash, but not a longer name. */
  lemma BelowIsSubtree(p: Path, q: Path)
    ensures Below(p, q) <==> q == p || exists rest :: q == p + "/" + rest
  {
    if Below(p, q) && q != p {
      assert q == p + "/" + q[|p| + 1..];
    }
    if rest :| q == p + "/" + rest {
      assert p <= q && q[|p|] == '/';
    }
  }

  predicate BelowAny(ps: seq<Path>, q: Path) {
    exists i | 0 <= i < |ps| :: Below(ps[i], q)
  }

  /** The servers of s that are not in b, in their order. */
  function Without(s: seq<Server>, b: set<Server>): (r: seq<Server>)
    ensures forall x :: x in r <==> x in s && x !in b
  {
    if s == [] then []
    else
      assert forall x :: x in s <==> x == s[0] || x in s[1..];
      (if s[0] in b then [] else [s[0]]) + Without(s[1..], b)
  }

  lemma {:induction false} WithoutAbsent(s: seq<Server>, b: set<Server>, x: Server)
    requires x !in s
    ensures Without(s, b - {x}) == Without(s, b)
  {
    if s != [] {
      WithoutAbsent(s[1..], b, x);
    }
  }

  lemma {:induction false} WithoutSnoc(s: seq<Server>, x: Server, b: set<Server>)
    ensures Without(s + [x], b) == Without(s, b) + if x in b then [] else [x]
    decreases |s|
  {
    if s != [] {
      assert (s + [x])[1..] == s[1..] + [x];
      WithoutSnoc(s[1..], x, b);
    }
  }

  // ----- Erasing one server from a list -----

  /** The list without the first x. */
  function EraseFirst(s: seq<Server>, x: Server): seq<Server> {
    if s == [] then [] else if s[0] == x then s[1..] else [s[0]] + EraseFirst(s[1..], x)
  }

  lemma {:induction false} EraseAbsent(s: seq<Server>, x: Server)
    requires x !in s
    ensures EraseFirst(s, x) == s
  {
    if s != [] {
      EraseAbsent(s[1..], x);
    }
  }

  /** The list without the first of each server in b. */
  function Erased(s: seq<Server>, b: set<Server>): (r: seq<Server>)
    ensures forall x | x in r :: x in s
  {
    if s == [] then []
    else if s[0] in b then Erased(s[1..], b - {s[0]})
    else [s[0]] + Erased(s[1..], b)
  }

  lemma {:induction false} ErasedNothing(s: seq<Server>)
    ensures Erased(s, {}) == s
  {
    if s != [] {
      ErasedNothing(s[1..]);
    }
  }

  /** The order in which servers are erased does not matter. */
  lemma {:induction false} ErasedOneMore(s: seq<Server>, b: set<Server>, x: Server)
    requires x !in b
    ensures EraseFirst(Erased(s, b), x) == Erased(s, b + {x})
  {
    if s != [] {
      if s[0] in b {
        ErasedOneMore(s[1..], b - {s[0]}, x);
        assert b - {s[0]} + {x} == b + {x} - {s[0]};
      } else if s[0] == x {
        assert b + {x} - {x} == b;
        assert Erased(s, b) == [x] + Erased(s[1..], b);
      } else {
        ErasedOneMore(s[1..], b, x);
        assert Erased(s, b) == [s[0]] + Erased(s[1..], b);
      }
    }
  }

  /** Erasing stops at the first: a server that is listed twice stays. */
  lemma {:induction false} ErasedCount(s: seq<Server>, b: set<Server>, x: Server)
    ensures multiset(Erased(s, b))[x] == multiset(s)[x] - if x in b && x in s then 1 else 0
  {
    if s != [] {
      assert s == [s[0]] + s[1..];
      ErasedCount(s[1..], if s[0] in b then b - {s[0]} else b, x);
    }
  }

  /** None of the servers in b is listed twice. */
  ghost predicate Once(s: seq<Server>, b: set<Server>) {
    forall x | x in b :: multiset(s)[x] <= 1
  }

  lemma {:induction false} ErasedIsWithout(s: seq<Server>, b: set<Server>)
    requires Once(s, b)
    ensures Erased(s, b) == Without(s, b)
  {
    if s != [] {
      assert s == [s[0]] + s[1..];
      if s[0] in b {
        assert multiset(s[1..])[s[0]] == 0;
        ErasedIsWithout(s[1..], b - {s[0]});
        WithoutAbsent(s[1..], b, s[0]);
      } else {
        ErasedIsWithout(s[1..], b);
      }
    }
  }

  /** Every server of b is gone exactly if none was listed twice. */
  lemma ErasedIffOnce(s: seq<Server>, b: set<Server>)
    ensures (forall x | x in b :: x !in Erased(s, b)) <==> Once(s, b)
  {
    forall x | x in b ensures x !in Erased(s, b) <==> multiset(s)[x] <= 1 {
      ErasedCount(s, b, x);
      assert x in Erased(s, b) <==> multiset(Erased(s, b))[x] > 0;
      assert x in s <==> multiset(s)[x] > 0;
    }
  }

  /** Every list without the servers in b. */
  function AllWithout(valid: map<Path, seq<Server>>, b: set<Server>): map<Path, seq<Server>> {
    map p | p in valid :: Without(valid[p], b)
  }

  /** Every list without the first of each server in b. */
  function AllErased(valid: map<Path, seq<Server>>, b: set<Server>): map<Path, seq<Server>> {
    map p | p in valid :: Erased(valid[p], b)
  }

  lemma AllErasedNothing(valid: map<Path, seq<Server>>)
    ensures AllErased(valid, {}) == valid
  {
    forall p | p in valid ensures Erased(valid[p], {}) == valid[p] {
      ErasedNothing(valid[p]);
    }
  }

  lemma AllErasedOneMore(valid: map<Path, seq<Server>>, b: set<Server>, x: Server)
    requires x !in b
    ensures (map p | p in AllErased(valid, b) :: EraseFirst(AllErased(valid, b)[p], x)) == AllErased(valid, b + {x})
  {
    forall p | p in valid ensures EraseFirst(Erased(valid[p], b), x) == Erased(valid[p], b + {x}) {
      ErasedOneMore(valid[p], b, x);
    }
  }

  ghost predicate AllOnce(valid: map<Path, seq<Server>>, b: set<Server>) {
    forall p | p in valid :: Once(valid[p], b)
  }

  // ----- The state -----

  /** The index lists path p for server n. */
  ghost predicate Listed(index: Index, n: Server, p: Path) {
    n in index && p in index[n]
  }

  ghost predicate NoEmpty(index: Index) {
    forall n | n in index :: index[n] != {}
  }

  /** The index covers every server of every path. */
  ghost predicate Covers(index: Index, valid: map<Path, seq<Server>>) {
    forall p, n | p in valid && n in valid[p] :: Listed(index, n, p)
  }

  ghost predicate Healthy(black: set<Server>, valid: map<Path, seq<Server>>) {
    forall p, n | p in valid && n in valid[p] :: n !in black
  }

  /** Erasing the servers of a new blacklist leaves healthy lists exactly if none of them was listed twice. */
  lemma HealthyIffOnce(valid: map<Path, seq<Server>>, b: set<Server>)
    ensures Healthy(b, AllErased(valid, b)) <==> AllOnce(valid, b)
    ensures AllOnce(valid, b) ==> AllErased(valid, b) == AllWithout(valid, b)
  {
    var erased := AllErased(valid, b);
    forall p | p in valid ensures (forall x | x in b :: x !in erased[p]) <==> Once(valid[p], b) {
      ErasedIffOnce(valid[p], b);
    }
    if AllOnce(valid, b) {
      forall p | p in valid ensures erased[p] == Without(valid[p], b) {
        ErasedIsWithout(valid[p], b);
      }
    }
  }

  lemma ErasedCovered(index: Index, valid: map<Path, seq<Server>>, b: set<Server>)
    requires Covers(index, valid) && NoEmpty(index)
    ensures NoEmpty(index - b) && (Healthy(b, AllErased(valid, b)) ==> Covers(index - b, AllErased(valid, b)))
  {
    if Healthy(b, AllErased(valid, b)) {
      forall p, n | p in valid && n in Erased(valid[p], b) ensures Listed(index - b, n, p) {
        assert n in AllErased(valid, b)[p];
        assert Listed(index, n, p);
      }
    }
  }

  /** The index determined by which paths it lists. */
  lemma IndexIsItsPairs(a: Index, b: Index)
    requires NoEmpty(a) && NoEmpty(b) && forall n, p :: Listed(a, n, p) <==> Listed(b, n, p)
    ensures a == b
  {
    forall n ensures n in a <==> n in b {
      if n in a {
        var p :| p in a[n];
        assert Listed(a, n, p);
      }
      if n in b {
        var p :| p in b[n];
        assert Listed(b, n, p);
      }
    }
    forall n | n in a ensures a[n] == b[n] {
      forall p ensures p in a[n] <==> p in b[n] {
        assert Listed(a, n, p) <==> Listed(b, n, p);
      }
    }
  }

  // ----- Changing the index -----

  function Filed(index: Index, n: Server, p: Path): Index {
    if n in index then index[n := index[n] + {p}] else index[n := {p}]
  }

  function Unfiled(index: Index, n: Server, p: Path): Index {
    if n !in index then index
    else if index[n] - {p} == {} then index - {n}
    else index[n := index[n] - {p}]
  }

  lemma FiledPairs(index: Index, n: Server, p: Path)
    requires NoEmpty(index)
    ensures NoEmpty(Filed(index, n, p))
    ensures forall m, q :: Listed(Filed(index, n, p), m, q) <==> Listed(index, m, q) || (m == n && q == p)
  {
  }

  lemma UnfiledPairs(index: Index, n: Server, p: Path)
    requires NoEmpty(index)
    ensures NoEmpty(Unfiled(index, n, p))
    ensures forall m, q :: Listed(Unfiled(index, n, p), m, q) <==> Listed(index, m, q) && !(m == n && q == p)
  {
    if n in index {
      assert index[n] <= {p} + (index[n] - {p});
    }
  }

  class NodeCollection {
    var index: Index
    var black: set<Server>
    var valid: map<Path, seq<Server>>
    var robin: map<Path, nat>

    /** Holds whenever no update is in progress. */
    ghost predicate Valid()
      reads this
    {
      Steady() && robin.Keys == valid.Keys
    }

    /** Holds also between the two locked parts of an update. */
    ghost predicate Steady()
      reads this
    {
      NoEmpty(index) && Covers(index, valid) && Healthy(black, valid) && robin.Keys <= valid.Keys
    }

    constructor ()
      ensures Valid() && valid == map[] && black == {}
    {
      index, black, valid, robin := map[], {}, map[], map[];
    }

    method Filter(nodes: seq<Server>) returns (r: seq<Server>)
      ensures r == Without(nodes, black)
    {
      r := [];
      for i := 0 to |nodes|
        invariant r == Without(nodes[..i], black)
      {
        assert nodes[..i + 1] == nodes[..i] + [nodes[i]];
        WithoutSnoc(nodes[..i], nodes[i], black);
        if nodes[i] !in black {
          r := r + [nodes[i]];
        }
      }
      assert nodes[..|nodes|] == nodes;
    }

    method FileAll(nodes: seq<Server>, path: Path)
      requires NoEmpty(index)
      modifies this`index
      ensures NoEmpty(index)
      ensures forall n, p :: Listed(index, n, p) <==> Listed(old(index), n, p) || (p == path && n in nodes)
    {
      for i := 0 to |nodes|
        invariant NoEmpty(index)
        invariant forall n, p :: Listed(index, n, p) <==> Listed(old(index), n, p) || (p == path && n in nodes[..i])
      {
        FiledPairs(index, nodes[i], path);
        assert nodes[..i + 1] == nodes[..i] + [nodes[i]];
        index := Filed(index, nodes[i], path);
      }
      assert nodes[..|nodes|] == nodes;
    }

    /** The first locked part of a heartbeat: the index and the list. */
    method List(nodes: seq<Server>, path: Path)
      requires Valid()
      modifies this`index, this`valid
      ensures Steady() && valid == old(valid)[path := Without(nodes, black)]
      ensures forall n, p ::
                Listed(index, n, p) <==> Listed(old(index), n, p) || (p == path && n in nodes && n !in black)
    {
      var good := Filter(nodes);
      FileAll(good, path);
      valid := valid[path := good];
    }

    method UpdateHeartbeat(nodes: seq<Server>, path: Path)
      requires Valid()
      modifies this
      ensures Valid() && black == old(black) && valid == old(valid)[path := Without(nodes, black)]
      ensures forall n, p ::
                Listed(index, n, p) <==> Listed(old(index), n, p) || (p == path && n in nodes && n !in black)
      ensures robin == if path in old(robin) then old(robin) else old(robin)[path := 0]
    {
      List(nodes, path);
      if path !in robin {
        robin := robin[path := 0];
      }
    }

    /** The known paths at or below one of the given ones. */
    method Doomed(paths: seq<Path>) returns (doomed: set<Path>)
      ensures forall q :: q in doomed <==> q in valid && BelowAny(paths, q)
    {
      doomed := {};
      var todo := valid.Keys;
      while todo != {}
        invariant todo <= valid.Keys
        invariant forall q :: q in doomed <==> q in valid && q !in todo && BelowAny(paths, q)
      {
        var q :| q in todo;
        todo := todo - {q};
        for i := 0 to |paths|
          invariant forall r | r != q :: r in doomed <==> r in valid && r !in todo && BelowAny(paths, r)
          invariant q in doomed <==> exists j | 0 <= j < i :: Below(paths[j], q)
        {
          if Below(paths[i], q) {
            doomed := doomed + {q};
          }
        }
      }
    }

    method StopRobins(paths: set<Path>)
      modifies this`robin
      ensures robin == old(robin) - paths
    {
      var todo := paths;
      while todo != {}
        invariant todo <= paths && robin == old(robin) - (paths - todo)
      {
        var q :| q in todo;
        robin := robin - {q};
        todo := todo - {q};
      }
    }

    /** Drops one path and takes it out of the index; returns servers that may be unknown now. */
    method Unlist(path: Path) returns (gone: seq<Server>)
      requires NoEmpty(index) && path in valid
      modifies this`index, this`valid
      ensures NoEmpty(index) && valid == old(valid) - {path} && forall n | n in gone :: n in old(valid)[path]
      ensures forall n, p :: Listed(index, n, p) <==> Listed(old(index), n, p) && !(p == path && n in old(valid)[path])
    {
      var nodes := valid[path];
      gone := [];
      for i := 0 to |nodes|
        modifies this`index
        invariant NoEmpty(index) && forall n | n in gone :: n in nodes
        invariant forall n, p :: Listed(index, n, p) <==> Listed(old(index), n, p) && !(p == path && n in nodes[..i])
      {
        UnfiledPairs(index, nodes[i], path);
        assert nodes[..i + 1] == nodes[..i] + [nodes[i]];
        if nodes[i] !in index || index[nodes[i]] - {path} == {} {
          gone := gone + [nodes[i]];
        }
        index := Unfiled(index, nodes[i], path);
      }
      assert nodes[..|nodes|] == nodes;
      valid := valid - {path};
    }

    /** The second locked part of a removal: index, lists and blacklist. */
    method Drop(doomed: set<Path>)
      requires Steady() && doomed <= valid.Keys && robin.Keys == valid.Keys - doomed
      modifies this`index, this`valid, this`black
      ensures Valid() && valid == old(valid) - doomed && black == old(black)
      ensures forall n, p :: Listed(index, n, p) <==> Listed(old(index), n, p) && !(p in doomed && n in old(valid)[p])
    {
      ghost var before := valid;
      var gone: seq<Server> := [];
      var todo := doomed;
      while todo != {}
        modifies this`index, this`valid
        invariant todo <= doomed && NoEmpty(index) && valid == before - (doomed - todo)
        invariant forall n | n in gone :: n !in black
        invariant forall n, p ::
                    Listed(index, n, p) <==> Listed(old(index), n, p) && !(p in doomed - todo && n in before[p])
      {
        var q :| q in todo;
        assert q in valid && valid[q] == before[q];
        todo := todo - {q};
        var more := Unlist(q);
        gone := gone + more;
      }
      for i := 0 to |gone|
        modifies this`black
        invariant black == old(black)
      {
        assert gone[i] !in black;
        black := black - {gone[i]};
      }
    }

    /** Forgets the given paths and all below them. */
    method RemovePaths(paths: seq<Path>)
      requires Valid()
      modifies this
      ensures Valid() && black == old(black)
      ensures valid.Keys == set q | q in old(valid) && !BelowAny(paths, q)
      ensures forall q | q in valid :: valid[q] == old(valid)[q] && robin[q] == old(robin)[q]
      ensures forall n, p ::
                Listed(index, n, p)
                <==> Listed(old(index), n, p) && !(BelowAny(paths, p) && p in old(valid) && n in old(valid)[p])
    {
      var doomed := Doomed(paths);
      if doomed == {} {
        return;
      }
      StopRobins(doomed);
      Drop(doomed);
    }

    method RemovePath(path: Path)
      requires Valid()
      modifies this
      ensures Valid() && black == old(black)
      ensures valid.Keys == set q | q in old(valid) && !Below(path, q)
      ensures forall q | q in valid :: valid[q] == old(valid)[q] && robin[q] == old(robin)[q]
      ensures forall n, p ::
                Listed(index, n, p)
                <==> Listed(old(index), n, p) && !(Below(path, p) && p in old(valid) && n in old(valid)[p])
    {
      RemovePaths([path]);
      forall q ensures BelowAny([path], q) <==> Below(path, q) {
        assert [path][0] == path;
      }
    }

    /** Takes the first entry of a server out of all lists that the index names. */
    method EraseServer(b: Server)
      requires forall p | p in valid && b in valid[p] :: Listed(index, b, p)
      modifies this`valid, this`index
      ensures valid == (map p | p in old(valid) :: EraseFirst(old(valid)[p], b)) && index == old(index) - {b}
    {
      ghost var before := valid;
      if b in index {
        var todo := index[b];
        while todo != {}
          modifies this`valid
          invariant todo <= index[b] && valid.Keys == before.Keys
          invariant forall p | p in valid ::
                      valid[p] == if p in index[b] - todo then EraseFirst(before[p], b) else before[p]
        {
          var p :| p in todo;
          todo := todo - {p};
          if p in valid {
            valid := valid[p := EraseFirst(valid[p], b)];
          }
        }
      }
      forall p | p in valid ensures valid[p] == EraseFirst(before[p], b) {
        if !Listed(index, b, p) {
          EraseAbsent(before[p], b);
        }
      }
      index := index - {b};
    }

    method EraseAll(list: set<Server>)
      requires Covers(index, valid)
      modifies this`valid, this`index
      ensures valid == AllErased(old(valid), list) && index == old(index) - list
    {
      ghost var before, filed := valid, index;
      var todo := list;
      AllErasedNothing(valid);
      assert list - todo == {};
      while todo != {}
        invariant todo <= list && valid == AllErased(before, list - todo) && index == filed - (list - todo)
      {
        var b :| b in todo;
        forall p | p in valid && b in valid[p] ensures Listed(index, b, p) {
          assert Listed(filed, b, p);
        }
        AllErasedOneMore(before, list - todo, b);
        assert list - todo + {b} == list - (todo - {b});
        EraseServer(b);
        todo := todo - {b};
      }
      assert list - todo == list;
    }

    /** The new blacklist takes effect; it does so everywhere exactly if no server on it was listed twice for a path. */
    method UpdateBadNode(list: set<Server>)
      requires Valid()
      modifies this
      ensures black == list && robin == old(robin) && index == old(index) - list && valid == AllErased(old(valid), list)
      ensures Valid() <==> AllOnce(old(valid), list)
      ensures AllOnce(old(valid), list) ==> valid == AllWithout(old(valid), list)
    {
      black := list;
      HealthyIffOnce(valid, list);
      ErasedCovered(index, valid, list);
      EraseAll(list);
    }

    method PickOneNode(path: Path) returns (r: Option<Server>)
      requires Steady()
      modifies this`robin
      ensures Steady()
      ensures r.Some? <==> path in old(robin) && valid[path] != []
      ensures r.Some? ==> r.value !in black && r.value == valid[path][NextIndex(old(robin)[path], |valid[path]|)]
      ensures robin == if r.Some? then old(robin)[path := NextIndex(old(robin)[path], |valid[path]|)] else old(robin)
    {
      if path !in robin {
        return None;
      }
      if path !in valid || valid[path] == [] {
        return None;
      }
      var i := NextIndex(robin[path], |valid[path]|);
      robin := robin[path := i];
      r := Some(valid[path][i]);
    }

    /** As many picks as the path has servers: every server is picked once. */
    method PickRound(path: Path) returns (picked: seq<Server>)
      requires Steady() && path in robin && valid[path] != []
      modifies this`robin
      ensures Steady() && multiset(picked) == multiset(valid[path]) && robin.Keys == old(robin).Keys
    {
      ghost var i0 := robin[path];
      picked := [];
      for m := 0 to |valid[path]|
        invariant Steady() && robin.Keys == old(robin).Keys && robin[path] == Position(i0, |valid[path]|, m)
        invariant picked == Picked(i0, valid[path], m)
      {
        var r := PickOneNode(path);
        picked := picked + [r.value];
      }
      EachOnce(i0, valid[path]);
    }
  }

  // ----- Round robin -----

  function NextIndex(i: nat, base: nat): (r: nat)
    requires base > 0
    ensures r < base && (i < base ==> r == if i + 1 == base then 0 else i + 1)
  {
    (i + 1) % base
  }

  /** The position after m picks in a row. */
  function Position(i: nat, base: nat, m: nat): nat
    requires base > 0
  {
    if m == 0 then i else NextIndex(Position(i, base, m - 1), base)
  }

  /** The servers that m picks in a row return. */
  function Picked(i: nat, nodes: seq<Server>, m: nat): seq<Server>
    requires nodes != []
    ensures |Picked(i, nodes, m)| == m
  {
    if m == 0 then [] else Picked(i, nodes, m - 1) + [nodes[NextIndex(Position(i, |nodes|, m - 1), |nodes|)]]
  }

  /** The first pick may start anywhere, also behind the end of a list that has become shorter. */
  lemma {:induction false} PositionAfter(i: nat, base: nat, m: nat)
    requires base > 0 && 0 < m <= base
    ensures var a := NextIndex(i, base);
            Position(i, base, m) == if a + m - 1 < base then a + m - 1 else a + m - 1 - base
    decreases m
  {
    if m == 1 {
      assert Position(i, base, 0) == i;
    } else {
      PositionAfter(i, base, m - 1);
    }
  }

  /** The picks go through the list from the first one on, and then from the start. */
  lemma {:induction false} PickedInOrder(i: nat, nodes: seq<Server>, m: nat)
    requires nodes != [] && m <= |nodes|
    ensures var a := NextIndex(i, |nodes|); Picked(i, nodes, m) == (nodes[a..] + nodes[..a])[..m]
    decreases m
  {
    if m > 0 {
      PickedInOrder(i, nodes, m - 1);
      PositionAfter(i, |nodes|, m);
    }
  }

  /** From any position, as many picks as there are servers return every server once. */
  lemma EachOnce(i: nat, nodes: seq<Server>)
    requires nodes != []
    ensures multiset(Picked(i, nodes, |nodes|)) == multiset(nodes)
  {
    var a := NextIndex(i, |nodes|);
    PickedInOrder(i, nodes, |nodes|);
    assert (nodes[a..] + nodes[..a])[..|nodes|] == nodes[a..] + nodes[..a];
    assert nodes == nodes[..a] + nodes[a..];
  }
}
