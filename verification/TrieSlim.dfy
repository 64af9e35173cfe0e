/** Lookup in the SLIM layout is exact. */
module TrieSlim {
  import opened Collections
  import opened TrieFat
  import opened TrieFlat

  lemma NoneBehind(names: seq<int>, c: int, j: nat)
    requires MaxFirst(names) && j < |names| && ((j == 0 && names[0] < c) || (j > 0 && names[j] > c))
    requires forall l | 0 <= l < j :: names[l] != c
    ensures c !in names
  {
  }

  /** The names and the children of a node read back from the buffer. */
  ghost predicate ReadsBack(b: seq<int>, nodes: seq<Node>, i: nat, f: Format)
    requires i < |nodes| && Shaped(nodes[i], |nodes|)
  {
    var n, a := nodes[i], Start(nodes, i, f);
    forall j | 0 <= j < |n.names| ::
      NameAt(b, a, j, f) == n.names[j] && KidAt(b, a, |n.names|, j, f) == Start(nodes, n.kids[j], f)
  }

  lemma SlimReadsBack(b: seq<int>, nodes: seq<Node>, i: nat, f: Format)
    requires i < |nodes| && Shaped(nodes[i], |nodes|) && HoldsNode(b, nodes, i, f) && f.layout.Slim?
    requires forall l | 0 <= l < |nodes[i].kids| :: KidFits(nodes, nodes[i], l, f)
    ensures ReadsBack(b, nodes, i, f)
  {
    var n, a := nodes[i], Start(nodes, i, f);
    forall j | 0 <= j < |n.names|
      ensures NameAt(b, a, j, f) == n.names[j] && KidAt(b, a, |n.names|, j, f) == Start(nodes, n.kids[j], f)
    {
      ReadName(b, nodes, i, f, j);
      ReadKid(b, nodes, i, f, j);
      assert KidFits(nodes, n, j, f);
    }
  }

  lemma {:induction false} ScanFinds(b: seq<int>, nodes: seq<Node>, i: nat, f: Format, c: int, j: nat)
    requires i < |nodes| && Shaped(nodes[i], |nodes|) && ReadsBack(b, nodes, i, f)
    requires j <= |nodes[i].names| && forall l | 0 <= l < j :: nodes[i].names[l] != c
    ensures var r := NextSlim(b, Start(nodes, i, f), |nodes[i].names|, c, j, f);
            && (c !in nodes[i].names ==> r == Nothing)
            && (forall l | 0 <= l < |nodes[i].names| && nodes[i].names[l] == c ::
               r == At(Start(nodes, nodes[i].kids[l], f)))
    decreases |nodes[i].names| - j
  {
    var n := nodes[i];
    if j < |n.names| {
      assert NameAt(b, Start(nodes, i, f), j, f) == n.names[j];
      if n.names[j] != c {
        if (j == 0 && n.names[0] < c) || (j > 0 && n.names[j] > c) {
          NoneBehind(n.names, c, j);
        } else {
          ScanFinds(b, nodes, i, f, c, j + 1);
        }
      }
    }
  }

  /** Stopping early never misses a name, because the greatest comes first and the rest ascend. */
  lemma NextSlimFinds(b: seq<int>, nodes: seq<Node>, i: nat, f: Format, c: int)
    requires i < |nodes| && Shaped(nodes[i], |nodes|) && HoldsNode(b, nodes, i, f) && f.layout.Slim?
    requires forall l | 0 <= l < |nodes[i].kids| :: KidFits(nodes, nodes[i], l, f)
    ensures var r := NextSlim(b, Start(nodes, i, f), |nodes[i].names|, c, 0, f);
            && (c !in nodes[i].names ==> r == Nothing)
            && (forall l | 0 <= l < |nodes[i].names| && nodes[i].names[l] == c ::
               r == At(Start(nodes, nodes[i].kids[l], f)))
  {
    SlimReadsBack(b, nodes, i, f);
    ScanFinds(b, nodes, i, f, c, 0);
  }

  lemma NextNodeFinds(b: seq<int>, nodes: seq<Node>, pos: Places, vals: map<Text, nat>, f: Format, p: Text, c: int)
    requires Trie(nodes, pos, vals) && Holds(b, nodes, f) && OffsetsFit(nodes, f) && f.layout.Slim? && p in pos
    ensures NextNode(b, Start(nodes, pos[p], f), c, f)
            == if Ext(p, c) in pos then At(Start(nodes, pos[Ext(p, c)], f)) else Nothing
  {
    assert PlaceOk(nodes, pos, vals, p);
    var n := nodes[pos[p]];
    assert HoldsNode(b, nodes, pos[p], f);
    ReadValue(b, nodes, pos[p], f);
    NextSlimFinds(b, nodes, pos[p], f, c);
    var l := IndexOf(n.names, c);
    assert l >= 0 ==> n.names[l] == c && Ext(p, n.names[l]) in pos;
    assert Ext(p, c) in pos ==> c in n.names;
  }

  lemma {:induction false} FindFinds(b: seq<int>, nodes: seq<Node>, pos: Places, vals: map<Text, nat>, f: Format,
                                     p: Text, rest: Text)
    requires Trie(nodes, pos, vals) && Holds(b, nodes, f) && OffsetsFit(nodes, f) && f.layout.Slim? && p in pos
    ensures FindFrom(b, Start(nodes, pos[p], f), rest, f)
            == if p + rest in pos then At(Start(nodes, pos[p + rest], f)) else Nothing
    decreases |rest|
  {
    if rest == [] {
      assert p + rest == p;
    } else {
      var q := Ext(p, rest[0]);
      assert q + rest[1..] == p + rest;
      NextNodeFinds(b, nodes, pos, vals, f, p, rest[0]);
      if q in pos {
        FindFinds(b, nodes, pos, vals, f, q, rest[1..]);
      } else if q + rest[1..] in pos {
        FrontStays(pos, q, rest[1..]);
      }
    }
  }

  /**
   If a map has been packed, looking up any text finds a node exactly if the text is empty or a prefix
   of a key, and the value there is the map's value for a key and 0 otherwise.
   */
  lemma SlimIsExact(es: seq<Entry>, b: seq<int>, nodes: seq<Node>, pos: Places, f: Format, key: Text)
    requires Trie(nodes, pos, Values(es)) && Tight(pos, Values(es)) && f.layout.Slim?
    requires Holds(b, nodes, f) && OffsetsFit(nodes, f) && ValuesFit(nodes, f)
    ensures if IsPrefix(es, key) then Finds(es, b, f, key) else FindFrom(b, 0, key, f) == Nothing
  {
    FindFinds(b, nodes, pos, Values(es), f, [], key);
    assert [] + key == key;
    PlacesArePrefixes(es, pos, nodes, key);
    if key in pos {
      assert PlaceOk(nodes, pos, Values(es), key);
      assert HoldsNode(b, nodes, pos[key], f);
      ReadValue(b, nodes, pos[key], f);
    }
  }
}
