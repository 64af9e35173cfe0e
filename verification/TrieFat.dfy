/** The linked trie a map is first turned into: nodes with sorted children, built key by key. */
module TrieFat {

  /** Characters are compared as signed bytes; keys use 1 to 127. */
  type Text = seq<int>

  predicate Proper(t: Text) {
    forall c | c in t :: 1 <= c <= 127
  }

  /** Iteration order of the map. */
  predicate Less(a: Text, b: Text) {
    b != [] && (a == [] || a[0] < b[0] || (a[0] == b[0] && Less(a[1..], b[1..])))
  }

  /** The first difference is at i, and there a is less. */
  ghost predicate DiffersAt(a: Text, b: Text, i: nat) {
    i < |a| && i < |b| && a[..i] == b[..i] && a[i] < b[i]
  }

  lemma HeadsAgree(a: Text, b: Text, i: nat)
    requires 0 < i <= |a| && i <= |b| && a[..i] == b[..i]
    ensures a[0] == b[0]
  {
    assert a[..i][0] == b[..i][0];
  }

  lemma TailDiffers(a: Text, b: Text, i: nat)
    requires a != [] && b != [] && a[0] == b[0]
    ensures DiffersAt(a[1..], b[1..], i) <==> DiffersAt(a, b, i + 1)
  {
    if i < |a| - 1 && i < |b| - 1 {
      assert a[..i + 1] == [a[0]] + a[1..][..i] && b[..i + 1] == [b[0]] + b[1..][..i];
      assert a[1..][..i] == a[..i + 1][1..] && b[1..][..i] == b[..i + 1][1..];
    }
  }

  lemma TailIsPrefix(a: Text, b: Text)
    requires a != [] && b != [] && a[0] == b[0]
    ensures a[1..] < b[1..] <==> a < b
  {
    assert a == [a[0]] + a[1..] && b == [b[0]] + b[1..];
  }

  /** That is the lexicographic order: a proper prefix, or less at the first difference. */
  lemma {:induction false} LessIsLexicographic(a: Text, b: Text)
    ensures Less(a, b) <==> a < b || exists i: nat :: DiffersAt(a, b, i)
    decreases |a|
  {
    if a != [] && b != [] && a[0] == b[0] {
      LessIsLexicographic(a[1..], b[1..]);
      TailIsPrefix(a, b);
      if i: nat :| DiffersAt(a[1..], b[1..], i) {
        TailDiffers(a, b, i);
      }
      if i: nat :| DiffersAt(a, b, i) {
        TailDiffers(a, b, i - 1);
      }
    } else if a != [] && b != [] && a[0] < b[0] {
      assert DiffersAt(a, b, 0);
    } else {
      forall i: nat | 0 < i < |a| && i < |b| && a[..i] == b[..i] ensures a[0] == b[0] {
        HeadsAgree(a, b, i);
      }
    }
  }

  /** A prefix and one more character. */
  function Ext(p: Text, c: int): Text {
    p + [c]
  }

  lemma ExtInjective(p: Text, c: int, q: Text, d: int)
    ensures Ext(p, c) == Ext(q, d) ==> p == q && c == d
  {
    assert Ext(p, c)[..|Ext(p, c)| - 1] == p && Ext(q, d)[..|Ext(q, d)| - 1] == q;
    assert Ext(p, c)[|Ext(p, c)| - 1] == c && Ext(q, d)[|Ext(q, d)| - 1] == d;
  }

  datatype Node = Node(value: nat, names: seq<int>, kids: seq<nat>)

  /** The largest name comes first, the others follow in ascending order. */
  ghost predicate MaxFirst(names: seq<int>) {
    && (forall i | 0 < i < |names| :: names[i] < names[0])
    && (forall i, j | 0 < i < j < |names| :: names[i] < names[j])
  }

  // ----- What the nodes stand for -----

  /** Where the node of each prefix is. */
  type Places = map<Text, nat>

  ghost predicate NodeOk(n: Node, p: Text, pos: Places, vals: map<Text, nat>) {
    && n.value == (if p in vals then vals[p] else 0)
    && |n.kids| == |n.names| && MaxFirst(n.names)
    && (forall i | 0 <= i < |n.names| ::
       1 <= n.names[i] <= 127 && Ext(p, n.names[i]) in pos && n.kids[i] == pos[Ext(p, n.names[i])])
    && (forall c | Ext(p, c) in pos :: c in n.names)
  }

  ghost predicate Injective(pos: Places) {
    forall p, q | p in pos && q in pos && p != q :: pos[p] != pos[q]
  }

  ghost predicate PrefixClosed(pos: Places) {
    forall p, c | Ext(p, c) in pos :: p in pos
  }

  /** The nodes are a trie of the prefixes in pos, with the values in vals. */
  ghost predicate Trie(nodes: seq<Node>, pos: Places, vals: map<Text, nat>) {
    && [] in pos && pos[[]] == 0
    && Injective(pos) && PrefixClosed(pos) && vals.Keys <= pos.Keys
    && (forall p :: PlaceOk(nodes, pos, vals, p))
  }

  ghost predicate PlaceOk(nodes: seq<Node>, pos: Places, vals: map<Text, nat>, p: Text) {
    p in pos ==> pos[p] < |nodes| && NodeOk(nodes[pos[p]], p, pos, vals)
  }

  /** Apart from the root there are no nodes but those of the keys. */
  ghost predicate Tight(pos: Places, vals: map<Text, nat>) {
    forall p | p in pos :: p == [] || exists k :: k in vals && p <= k
  }

  ghost predicate IsPlace(pos: Places, i: nat) {
    exists p :: p in pos && pos[p] == i
  }

  /** Every node is the node of a prefix. */
  ghost predicate Covered(nodes: seq<Node>, pos: Places) {
    forall i | 0 <= i < |nodes| :: IsPlace(pos, i)
  }

  // ----- Names stay few -----

  lemma {:induction false} AscendingGrows(names: seq<int>, i: nat)
    requires MaxFirst(names) && (forall c | c in names :: 1 <= c) && 0 < i < |names|
    ensures names[i] >= i
    decreases i
  {
    assert names[i] in names;
    if i > 1 {
      AscendingGrows(names, i - 1);
      assert names[i - 1] < names[i];
    }
  }

  lemma FewNames(names: seq<int>)
    requires MaxFirst(names) && Proper(names)
    ensures |names| <= 127
  {
    if |names| > 1 {
      AscendingGrows(names, |names| - 1);
      assert names[|names| - 1] < names[0] && names[0] in names;
    }
  }

  // ----- Order -----

  lemma {:induction false} LessBranch(a: Text, b: Text, p: Text, c: int, d: int)
    requires Less(a, b) && Ext(p, c) <= a && Ext(p, d) <= b
    ensures c <= d
    decreases |p|
  {
    if p == [] {
      assert Ext(p, c)[0] == a[0] && Ext(p, d)[0] == b[0];
    } else {
      assert Ext(p, c)[0] == p[0] == Ext(p, d)[0];
      assert Ext(p, c)[1..] == Ext(p[1..], c) && Ext(p, d)[1..] == Ext(p[1..], d);
      LessBranch(a[1..], b[1..], p[1..], c, d);
    }
  }

  /** New children of a node on the way to a key greater than all others come last. */
  lemma BranchIsLast(pos: Places, vals: map<Text, nat>, p: Text, c: int, key: Text)
    requires Tight(pos, vals) && (forall k | k in vals :: Less(k, key)) && Ext(p, c) <= key
    ensures forall d | Ext(p, d) in pos :: d <= c
  {
    forall d | Ext(p, d) in pos ensures d <= c {
      var k :| k in vals && Ext(p, d) <= k;
      LessBranch(k, key, p, d, c);
    }
  }

  // ----- One step down the trie -----

  /** The first name at or behind `from` that is not less than c. */
  function PlaceOf(names: seq<int>, c: int, from: nat): nat
    decreases |names| - from
  {
    if from < |names| && names[from] < c then PlaceOf(names, c, from + 1) else from
  }

  function Spliced<T>(s: seq<T>, at: nat, x: T): seq<T> {
    if at <= |s| then s[..at] + [x] + s[at..] else s
  }

  /** A new first entry; the old first one goes to the end. */
  function Promoted<T>(s: seq<T>, x: T): seq<T> {
    if s == [] then [x] else [x] + s[1..] + [s[0]]
  }

  datatype Descent = Descent(nodes: seq<Node>, next: nat)

  /** A new node, filed with the given names and children under `current`. */
  function Grown(nodes: seq<Node>, current: nat, names: seq<int>, kids: seq<nat>): Descent
    requires current < |nodes|
  {
    Descent(nodes[current := nodes[current].(names := names, kids := kids)] + [Node(0, [], [])], |nodes|)
  }

  /** The child of node `current` for c, created if there is none. */
  function Descend(nodes: seq<Node>, current: nat, c: int): Descent
    requires current < |nodes| && |nodes[current].kids| == |nodes[current].names|
  {
    var n := nodes[current];
    if n.names == [] || n.names[0] < c then
      Grown(nodes, current, Promoted(n.names, c), Promoted(n.kids, |nodes|))
    else
      var at := PlaceOf(n.names, c, 0);
      if at < |n.names| && n.names[at] == c then Descent(nodes, n.kids[at])
      else Grown(nodes, current, Spliced(n.names, at, c), Spliced(n.kids, at, |nodes|))
  }

  /** All the way down along a key. */
  function Walked(nodes: seq<Node>, current: nat, key: Text): Descent
    decreases |key|
  {
    if key == [] || current >= |nodes| || |nodes[current].kids| != |nodes[current].names| then Descent(nodes, current)
    else
      var d := Descend(nodes, current, key[0]);
      Walked(d.nodes, d.next, key[1..])
  }

  /** The nodes after the insertion of a key. */
  function Inserted(nodes: seq<Node>, key: Text, value: nat): seq<Node> {
    var d := Walked(nodes, 0, key);
    if d.next < |d.nodes| then d.nodes[d.next := d.nodes[d.next].(value := value)] else d.nodes
  }

  class FatTrie {
    var nodes: seq<Node>

    constructor ()
      ensures nodes == [Node(0, [], [])]
    {
      nodes := [Node(0, [], [])];
    }

    static method Place(names: seq<int>, c: int) returns (at: nat)
      ensures at == PlaceOf(names, c, 0) && at <= |names|
      ensures (forall i | 0 <= i < at :: names[i] < c) && (at < |names| ==> names[at] >= c)
    {
      at := 0;
      while at < |names|
        invariant 0 <= at <= |names| && PlaceOf(names, c, 0) == PlaceOf(names, c, at)
        invariant forall i | 0 <= i < at :: names[i] < c
      {
        if c == names[at] || c < names[at] {
          break;
        }
        at := at + 1;
      }
    }

    method Child(current: nat, c: int) returns (next: nat)
      requires current < |nodes| && |nodes[current].kids| == |nodes[current].names|
      modifies this
      ensures Descent(nodes, next) == Descend(old(nodes), current, c)
    {
      var n := nodes[current];
      next := |nodes|;
      var names, kids;
      if n.names == [] || n.names[0] < c {
        names, kids := Promoted(n.names, c), Promoted(n.kids, next);
      } else {
        var at := Place(n.names, c);
        if at < |n.names| && n.names[at] == c {
          return n.kids[at];
        }
        names, kids := Spliced(n.names, at, c), Spliced(n.kids, at, next);
      }
      nodes := nodes[current := n.(names := names, kids := kids)] + [Node(0, [], [])];
    }

    /** Goes down along a key, making nodes where there are none. */
    method Down(key: Text) returns (ok: bool, current: nat)
      requires WalkFits(nodes, 0, key)
      modifies this
      ensures ok && Descent(nodes, current) == Walked(old(nodes), 0, key)
    {
      current := 0;
      var offset: nat := 0;
      assert key[0..] == key;
      while offset < |key| && |nodes[current].names| < 255
        invariant 0 <= offset <= |key| && WalkFits(nodes, current, key[offset..])
        invariant Walked(old(nodes), 0, key) == Walked(nodes, current, key[offset..])
      {
        WalkOneMore(nodes, current, key, offset);
        current := Child(current, key[offset]);
        offset := offset + 1;
      }
      ok := offset == |key|;
    }

    /** Adds a key that is greater than all keys so far. */
    method Insert(key: Text, value: nat, ghost pos: Places, ghost vals: map<Text, nat>)
        returns (ok: bool, ghost pos': Places)
      requires Trie(nodes, pos, vals) && Tight(pos, vals) && Covered(nodes, pos)
      requires Proper(key) && forall k | k in vals :: Less(k, key)
      modifies this
      ensures ok && Trie(nodes, pos', vals[key := value]) && Tight(pos', vals[key := value]) && Covered(nodes, pos')
      ensures Adds(pos, pos', key) && nodes == Inserted(old(nodes), key, value)
    {
      pos' := InsertedKeeps(nodes, pos, vals, key, value);
      var current;
      ok, current := Down(key);
      if !ok {
        return;
      }
      nodes := nodes[current := nodes[current].(value := value)];
    }
  }

  /** The way down along a key stays inside the nodes, and no node on it is full. */
  predicate WalkFits(nodes: seq<Node>, current: nat, key: Text)
    decreases |key|
  {
    && current < |nodes| && |nodes[current].kids| == |nodes[current].names| < 255
    && (key != [] ==> var d := Descend(nodes, current, key[0]);
                      WalkFits(d.nodes, d.next, key[1..]))
  }

  /** On the way down: the trie has places for the prefixes of p, and current is the node of p. */
  ghost predicate Downward(nodes: seq<Node>, pos: Places, pos': Places, vals: map<Text, nat>, p: Text, current: nat) {
    && Trie(nodes, pos', vals) && Covered(nodes, pos') && Adds(pos, pos', p)
    && p in pos' && current == pos'[p] && current < |nodes|
  }

  lemma DownStart(nodes: seq<Node>, pos: Places, vals: map<Text, nat>, key: Text)
    requires Trie(nodes, pos, vals) && Covered(nodes, pos)
    ensures Downward(nodes, pos, pos, vals, key[..0], 0) && key[0..] == key
  {
    AddsNothing(pos, key);
    assert PlaceOk(nodes, pos, vals, []);
  }

  lemma DownStep(nodes: seq<Node>, pos: Places, pos': Places, vals: map<Text, nat>, key: Text, offset: nat,
                 current: nat)
    requires offset < |key| && Downward(nodes, pos, pos', vals, key[..offset], current)
    requires Tight(pos, vals) && Proper(key) && forall k | k in vals :: Less(k, key)
    ensures |nodes[current].kids| == |nodes[current].names|
    ensures var d := Descend(nodes, current, key[offset]);
            Downward(d.nodes, pos, Extended(pos', key[..offset + 1], |nodes|), vals, key[..offset + 1], d.next)
  {
    var p, c := key[..offset], key[offset];
    StillLast(pos, pos', vals, key, offset);
    DescendKeeps(nodes, pos', vals, p, c);
    var d := Descend(nodes, current, c);
    CoveredAfter(nodes, d.nodes, pos', Ext(p, c));
    AddsOne(pos, pos', key, offset, |nodes|);
    assert PlaceOk(d.nodes, Extended(pos', Ext(p, c), |nodes|), vals, Ext(p, c));
  }

  lemma DownFits(nodes: seq<Node>, pos: Places, pos': Places, vals: map<Text, nat>, p: Text, current: nat)
    requires Downward(nodes, pos, pos', vals, p, current)
    ensures |nodes[current].names| <= 127 && |nodes[current].kids| == |nodes[current].names|
  {
    assert PlaceOk(nodes, pos', vals, p);
    FewNames(nodes[current].names);
  }

  lemma DownEnd(nodes: seq<Node>, pos: Places, pos': Places, vals: map<Text, nat>, key: Text, value: nat, current: nat)
    requires Downward(nodes, pos, pos', vals, key, current) && Tight(pos, vals)
    ensures var more, vals' := nodes[current := nodes[current].(value := value)], vals[key := value];
            Trie(more, pos', vals') && Tight(pos', vals') && Covered(more, pos')
  {
    SetValueKeeps(nodes, pos', vals, key, value);
    TightAfter(pos, pos', vals, key, value);
  }

  lemma WalkOneMore(nodes: seq<Node>, current: nat, key: Text, offset: nat)
    requires offset < |key| && current < |nodes| && |nodes[current].kids| == |nodes[current].names| < 255
    ensures var d := Descend(nodes, current, key[offset]);
            && Walked(nodes, current, key[offset..]) == Walked(d.nodes, d.next, key[offset + 1..])
            && WalkFits(nodes, current, key[offset..]) == WalkFits(d.nodes, d.next, key[offset + 1..])
  {
    assert key[offset..][0] == key[offset] && key[offset..][1..] == key[offset + 1..];
  }

  /** The whole way down ends at the node of the key. */
  lemma {:induction false} WalkDown(nodes: seq<Node>, pos: Places, pos': Places, vals: map<Text, nat>, key: Text,
                                    offset: nat, current: nat) returns (pos'': Places)
    requires offset <= |key| && Downward(nodes, pos, pos', vals, key[..offset], current)
    requires Tight(pos, vals) && Proper(key) && forall k | k in vals :: Less(k, key)
    ensures WalkFits(nodes, current, key[offset..])
    ensures var d := Walked(nodes, current, key[offset..]); Downward(d.nodes, pos, pos'', vals, key, d.next)
    decreases |key| - offset
  {
    DownFits(nodes, pos, pos', vals, key[..offset], current);
    if offset == |key| {
      pos'' := pos';
      assert key[..offset] == key;
    } else {
      DownStep(nodes, pos, pos', vals, key, offset, current);
      WalkOneMore(nodes, current, key, offset);
      var d := Descend(nodes, current, key[offset]);
      pos'' := WalkDown(d.nodes, pos, Extended(pos', key[..offset + 1], |nodes|), vals, key, offset + 1, d.next);
    }
  }

  lemma InsertedKeeps(nodes: seq<Node>, pos: Places, vals: map<Text, nat>, key: Text, value: nat) returns (pos': Places)
    requires Trie(nodes, pos, vals) && Tight(pos, vals) && Covered(nodes, pos)
    requires Proper(key) && forall k | k in vals :: Less(k, key)
    ensures WalkFits(nodes, 0, key) && Adds(pos, pos', key)
    ensures var d, more := Walked(nodes, 0, key), Inserted(nodes, key, value);
            && d.next < |d.nodes| && Trie(more, pos', vals[key := value]) && Tight(pos', vals[key := value])
            && Covered(more, pos')
  {
    DownStart(nodes, pos, vals, key);
    pos' := WalkDown(nodes, pos, pos, vals, key, 0, 0);
    var d := Walked(nodes, 0, key);
    DownEnd(d.nodes, pos, pos', vals, key, value, d.next);
  }

  /** pos' has places for the same prefixes as pos and for those of p. */
  ghost predicate Adds(pos: Places, pos': Places, p: Text) {
    forall q :: q in pos' <==> q in pos || q <= p
  }

  lemma AddsNothing(pos: Places, key: Text)
    requires [] in pos
    ensures key[..0] == [] && Adds(pos, pos, key[..0])
  {
  }

  lemma AddsOne(pos: Places, pos': Places, key: Text, offset: nat, at: nat)
    requires offset < |key| && Adds(pos, pos', key[..offset])
    ensures key[..offset + 1] == Ext(key[..offset], key[offset])
            && Adds(pos, Extended(pos', key[..offset + 1], at), key[..offset + 1])
  {
    var p, q := key[..offset], key[..offset + 1];
    forall o ensures o in Extended(pos', q, at) <==> o in pos || o <= q {
      if o <= q && o != q {
        assert |o| < |q| && o == q[..|o|] == p[..|o|];
      }
    }
  }

  lemma TightAfter(pos: Places, pos': Places, vals: map<Text, nat>, key: Text, value: nat)
    requires Tight(pos, vals) && Adds(pos, pos', key)
    ensures Tight(pos', vals[key := value])
  {
    var vals' := vals[key := value];
    forall p | p in pos' && p != [] ensures exists k :: k in vals' && p <= k {
      if p in pos {
        var k :| k in vals && p <= k;
        assert k in vals';
      } else {
        assert key in vals';
      }
    }
  }

  /** pos with a place for p if it has none. */
  ghost function Extended(pos: Places, p: Text, at: nat): Places {
    if p in pos then pos else pos[p := at]
  }

  lemma CoveredAfter(nodes: seq<Node>, nodes': seq<Node>, pos: Places, q: Text)
    requires Covered(nodes, pos) && |nodes'| == |nodes| + (if q in pos then 0 else 1)
    ensures Covered(nodes', Extended(pos, q, |nodes|))
  {
    var pos' := Extended(pos, q, |nodes|);
    forall i | 0 <= i < |nodes'| ensures IsPlace(pos', i) {
      if i < |nodes| {
        assert IsPlace(pos, i);
        var p :| p in pos && pos[p] == i;
        assert p in pos' && pos'[p] == i;
      } else {
        assert q in pos' && pos'[q] == i;
      }
    }
  }

  lemma StillLast(pos: Places, pos': Places, vals: map<Text, nat>, key: Text, offset: nat)
    requires Tight(pos, vals) && (forall k | k in vals :: Less(k, key)) && offset < |key| && Proper(key)
    requires Adds(pos, pos', key[..offset])
    ensures 1 <= key[offset] <= 127 && forall d | Ext(key[..offset], d) in pos' :: d <= key[offset]
  {
    var p, c := key[..offset], key[offset];
    assert c in key;
    assert Ext(p, c) == key[..offset + 1];
    BranchIsLast(pos, vals, p, c, key);
    forall d | Ext(p, d) in pos' ensures d <= c {
      assert !(Ext(p, d) <= p);
    }
  }

  lemma PromotedAt<T>(s: seq<T>, x: T, i: nat)
    requires i <= |s|
    ensures |Promoted(s, x)| == |s| + 1
    ensures Promoted(s, x)[i] == if i == 0 then x else if i < |s| then s[i] else s[0]
  {
  }

  lemma PromotedMaxFirst(names: seq<int>, c: int)
    requires MaxFirst(names) && (forall x | x in names :: x < c)
    ensures MaxFirst(Promoted(names, c))
    ensures forall x | x in names :: x in Promoted(names, c)
  {
    var r := Promoted(names, c);
    forall i | 0 <= i < |r|
      ensures i <= |names| && r[i] == if i == 0 then c else if i < |names| then names[i] else names[0]
    {
      PromotedAt(names, c, i);
    }
    forall i | 0 < i < |r| ensures r[i] < r[0] {
      assert r[i] in names;
    }
    forall i, j | 0 < i < j < |r| ensures r[i] < r[j] {
      assert r[i] == names[i];
    }
    forall x | x in names ensures x in r {
      var i :| 0 <= i < |names| && names[i] == x;
      assert r[if i == 0 then |names| else i] == x;
    }
  }

  lemma SetValueKeeps(nodes: seq<Node>, pos: Places, vals: map<Text, nat>, key: Text, value: nat)
    requires Trie(nodes, pos, vals) && key in pos && pos[key] < |nodes|
    ensures Trie(nodes[pos[key] := nodes[pos[key]].(value := value)], pos, vals[key := value])
  {
    var nodes', vals' := nodes[pos[key] := nodes[pos[key]].(value := value)], vals[key := value];
    forall p ensures PlaceOk(nodes', pos, vals', p) {
      assert PlaceOk(nodes, pos, vals, p);
      if p in pos {
        ValueOk(nodes[pos[p]], p, pos, vals, key, value);
      }
    }
  }

  lemma ValueOk(n: Node, p: Text, pos: Places, vals: map<Text, nat>, key: Text, value: nat)
    requires NodeOk(n, p, pos, vals)
    ensures NodeOk(if p == key then n.(value := value) else n, p, pos, vals[key := value])
  {
  }

  /** Going down, with a new node or without, keeps the trie and ends at the longer prefix. */
  lemma DescendKeeps(nodes: seq<Node>, pos: Places, vals: map<Text, nat>, p: Text, c: int)
    requires Trie(nodes, pos, vals) && p in pos && 1 <= c <= 127 && (forall d | Ext(p, d) in pos :: d <= c)
    ensures pos[p] < |nodes| && |nodes[pos[p]].kids| == |nodes[pos[p]].names|
    ensures var r, pos' := Descend(nodes, pos[p], c), Extended(pos, Ext(p, c), |nodes|);
            Trie(r.nodes, pos', vals) && r.next == pos'[Ext(p, c)]
              && |r.nodes| == |nodes| + (if Ext(p, c) in pos then 0 else 1)
  {
    assert PlaceOk(nodes, pos, vals, p);
    var n := nodes[pos[p]];
    forall i | 0 <= i < |n.names| ensures n.names[i] <= c && (n.names[i] == c ==> Ext(p, c) in pos) {
      assert Ext(p, n.names[i]) in pos;
    }
    if Ext(p, c) in pos {
      assert c in n.names;
      assert n.names[0] == c;
      assert PlaceOf(n.names, c, 0) == 0;
    } else {
      assert n.names != [] ==> n.names[0] < c;
      GrowKeeps(nodes, pos, vals, p, c);
    }
  }

  lemma GrowKeeps(nodes: seq<Node>, pos: Places, vals: map<Text, nat>, p: Text, c: int)
    requires Trie(nodes, pos, vals) && p in pos && pos[p] < |nodes| && 1 <= c <= 127 && Ext(p, c) !in pos
    requires forall x | x in nodes[pos[p]].names :: x < c
    ensures var n := nodes[pos[p]];
            Trie(Grown(nodes, pos[p], Promoted(n.names, c), Promoted(n.kids, |nodes|)).nodes, pos[Ext(p, c) := |nodes|],
                 vals)
  {
    var n, q := nodes[pos[p]], Ext(p, c);
    var nodes' := Grown(nodes, pos[p], Promoted(n.names, c), Promoted(n.kids, |nodes|)).nodes;
    var pos' := pos[q := |nodes|];
    forall o ensures PlaceOk(nodes', pos', vals, o) {
      assert PlaceOk(nodes, pos, vals, o);
      if o == q {
        NewNodeOk(pos, pos', vals, q);
      } else if o in pos {
        if o == p {
          ParentOk(n, p, pos, pos', vals, c, |nodes|);
        } else {
          OtherOk(nodes[pos[o]], o, pos, pos', vals, p, c);
        }
      }
    }
    assert Injective(pos') by {
      forall a | a in pos ensures pos[a] < |nodes| { assert PlaceOk(nodes, pos, vals, a); }
    }
    ClosedAfter(pos, pos', p, c);
  }

  lemma ClosedAfter(pos: Places, pos': Places, p: Text, c: int)
    requires PrefixClosed(pos) && p in pos && pos'.Keys == pos.Keys + {Ext(p, c)}
    ensures PrefixClosed(pos')
  {
    forall o, d | Ext(o, d) in pos' ensures o in pos' {
      ExtInjective(o, d, p, c);
    }
  }

  lemma NewNodeOk(pos: Places, pos': Places, vals: map<Text, nat>, q: Text)
    requires PrefixClosed(pos) && q !in pos && vals.Keys <= pos.Keys && pos'.Keys == pos.Keys + {q}
    ensures NodeOk(Node(0, [], []), q, pos', vals)
  {
  }

  lemma OtherOk(n: Node, o: Text, pos: Places, pos': Places, vals: map<Text, nat>, p: Text, c: int)
    requires NodeOk(n, o, pos, vals) && o != p && Ext(p, c) !in pos && Ext(p, c) in pos'
             && pos' == pos[Ext(p, c) := pos'[Ext(p, c)]]
    ensures NodeOk(n, o, pos', vals)
  {
    forall d | Ext(o, d) in pos' ensures d in n.names {
      ExtInjective(o, d, p, c);
    }
  }

  lemma ParentOk(n: Node, p: Text, pos: Places, pos': Places, vals: map<Text, nat>, c: int, at: nat)
    requires NodeOk(n, p, pos, vals) && Ext(p, c) !in pos && pos' == pos[Ext(p, c) := at] && 1 <= c <= 127
    requires forall x | x in n.names :: x < c
    ensures NodeOk(n.(names := Promoted(n.names, c), kids := Promoted(n.kids, at)), p, pos', vals)
  {
    var names, kids := Promoted(n.names, c), Promoted(n.kids, at);
    PromotedMaxFirst(n.names, c);
    forall i | 0 <= i < |names|
      ensures 1 <= names[i] <= 127 && Ext(p, names[i]) in pos' && kids[i] == pos'[Ext(p, names[i])]
    {
      PromotedAt(n.names, c, i);
      PromotedAt(n.kids, at, i);
      if i > 0 {
        var j := if i < |n.names| then i else 0;
        assert Ext(p, n.names[j]) in pos;
      }
    }
    forall d | Ext(p, d) in pos' ensures d in names {
      ExtInjective(p, d, p, c);
      PromotedAt(n.names, c, 0);
    }
  }

  // ----- The whole map -----

  datatype Entry = Entry(key: Text, value: nat)

  /** The entries of a map in iteration order, with characters the trie can hold. */
  ghost predicate MapOrder(es: seq<Entry>) {
    && (forall i | 0 <= i < |es| :: Proper(es[i].key))
    && (forall i, j | 0 <= i < j < |es| :: Less(es[i].key, es[j].key))
  }

  function Values(es: seq<Entry>): map<Text, nat> {
    if es == [] then map[] else Values(es[..|es| - 1])[es[|es| - 1].key := es[|es| - 1].value]
  }

  lemma {:induction false} KeysOfValues(es: seq<Entry>, k: Text)
    ensures k in Values(es) <==> exists i :: 0 <= i < |es| && es[i].key == k
    decreases |es|
  {
    if es != [] {
      var front, n := es[..|es| - 1], |es| - 1;
      KeysOfValues(front, k);
      if i :| 0 <= i < |front| && front[i].key == k {
        assert es[i].key == k;
      }
      if i :| 0 <= i < |es| && es[i].key == k {
        assert i == n || front[i].key == k;
      }
    }
  }

  /** The nodes that inserting the entries one by one makes. */
  function FatOf(es: seq<Entry>): seq<Node> {
    if es == [] then [Node(0, [], [])] else Inserted(FatOf(es[..|es| - 1]), es[|es| - 1].key, es[|es| - 1].value)
  }

  /** The linked trie of a map: its prefixes are the nodes, its values are at the keys. */
  method BuildFat(es: seq<Entry>) returns (nodes: seq<Node>, ghost pos: Places)
    requires MapOrder(es)
    ensures nodes == FatOf(es) && Trie(nodes, pos, Values(es)) && Tight(pos, Values(es)) && Covered(nodes, pos)
  {
    var trie := new FatTrie();
    pos := map[[] := 0];
    assert forall p :: PlaceOk(trie.nodes, pos, map[], p) by { EmptyTrie(pos); }
    assert es[..0] == [];
    assert IsPlace(pos, 0) by { assert [] in pos; }
    for i := 0 to |es|
      invariant trie.nodes == FatOf(es[..i])
      invariant Trie(trie.nodes, pos, Values(es[..i])) && Tight(pos, Values(es[..i])) && Covered(trie.nodes, pos)
    {
      GreaterThanAll(es, i);
      assert es[..i + 1][..i] == es[..i];
      var ok;
      ok, pos := trie.Insert(es[i].key, es[i].value, pos, Values(es[..i]));
    }
    assert es[..|es|] == es;
    nodes := trie.nodes;
  }

  lemma EmptyTrie(pos: Places)
    requires pos == map[[] := 0]
    ensures forall p :: PlaceOk([Node(0, [], [])], pos, map[], p)
  {
  }

  lemma GreaterThanAll(es: seq<Entry>, i: nat)
    requires MapOrder(es) && i < |es|
    ensures Proper(es[i].key) && forall k | k in Values(es[..i]) :: Less(k, es[i].key)
  {
    forall k | k in Values(es[..i]) ensures Less(k, es[i].key) {
      KeysOfValues(es[..i], k);
    }
  }

  /** Inserting out of order puts a smaller name first: the order of the map is needed. */
  lemma OutOfOrderBreaksOrder()
    ensures var one := Descend([Node(0, [], [])], 0, 98).nodes;
            var two := Descend(one, 0, 97).nodes;
            two[0].names == [97, 98] && !MaxFirst(two[0].names)
  {
    var one := Descend([Node(0, [], [])], 0, 98).nodes;
    assert one[0] == Node(0, [98], [1]);
    var two := Descend(one, 0, 97).nodes;
    assert PlaceOf([98], 97, 0) == 0;
    assert two[0].names == [97, 98];
    assert two[0].names[1] >= two[0].names[0];
  }
}
