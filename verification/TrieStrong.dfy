/** Lookup in the STRONG layout: through a table from the least name of a node to its greatest. */
module TrieStrong {
  import opened Collections
  import opened TrieFat
  import opened TrieBytes
  import opened TrieFlat

  /** c lies between the least and the greatest name. */
  predicate Spans(names: seq<int>, c: int) {
    names != [] && Least(names) <= c <= names[0]
  }

  lemma NamesAreSpanned(names: seq<int>, c: int)
    requires MaxFirst(names) && c in names
    ensures Spans(names, c)
  {
  }

  lemma {:induction false} IndexOfName(names: seq<int>, l: nat)
    requires MaxFirst(names) && l < |names|
    ensures IndexOf(names, names[l]) == l
  {
  }

  /** Outside the range of the table there is nothing, inside it the entry counts from the least name. */
  lemma NextIsEntry(b: seq<int>, nodes: seq<Node>, i: nat, f: Format, c: int)
    requires i < |nodes| && Shaped(nodes[i], |nodes|) && HoldsNode(b, nodes, i, f) && f.layout.Strong?
    ensures var a, names := Start(nodes, i, f), nodes[i].names;
            NextNode(b, a, c, f)
              == if Spans(names, c) then Kid(b, a, Count(nodes[i], f), c - Least(names), f) else Nothing
  {
    ReadValue(b, nodes, i, f);
    if nodes[i].names != [] {
      ReadName(b, nodes, i, f, 0);
    }
  }

  lemma TableEntry(nodes: seq<Node>, n: Node, f: Format, c: int)
    requires Shaped(n, |nodes|) && f.layout.Strong? && Spans(n.names, c)
    ensures c - Least(n.names) < Count(n, f)
    ensures Table(nodes, n, f)[c - Least(n.names)] == KidFor(nodes, n, c, f)
  {
  }

  /** Where the table of node i leads for c: nowhere outside its range, to the child, or to the root in a gap. */
  lemma NextStrongFinds(b: seq<int>, nodes: seq<Node>, i: nat, f: Format, c: int)
    requires i < |nodes| && Shaped(nodes[i], |nodes|) && HoldsNode(b, nodes, i, f) && f.layout.Strong?
    ensures var r := NextNode(b, Start(nodes, i, f), c, f);
            && (r.At? <==> Spans(nodes[i].names, c))
            && (r.At? && c !in nodes[i].names ==> r == At(0))
            && (forall l | 0 <= l < |nodes[i].names| && nodes[i].names[l] == c ::
                  r == At(Start(nodes, nodes[i].kids[l], f)) <==> KidFits(nodes, nodes[i], l, f))
  {
    var n := nodes[i];
    NextIsEntry(b, nodes, i, f, c);
    if Spans(n.names, c) {
      TableEntry(nodes, n, f, c);
      ReadKid(b, nodes, i, f, c - Least(n.names));
      DecEnc(0, f.offsetBytes);
    }
    forall l | 0 <= l < |n.names| && n.names[l] == c ensures IndexOf(n.names, c) == l && Spans(n.names, c) {
      IndexOfName(n.names, l);
      NamesAreSpanned(n.names, c);
    }
  }

  lemma NextNodeFinds(b: seq<int>, nodes: seq<Node>, pos: Places, vals: map<Text, nat>, f: Format, p: Text, c: int)
    requires Trie(nodes, pos, vals) && Holds(b, nodes, f) && OffsetsFit(nodes, f) && f.layout.Strong? && p in pos
             && pos[p] < |nodes|
    ensures NextNode(b, Start(nodes, pos[p], f), c, f)
            == if Ext(p, c) in pos then At(Start(nodes, pos[Ext(p, c)], f))
               else if Spans(nodes[pos[p]].names, c) then At(0) else Nothing
  {
    assert PlaceOk(nodes, pos, vals, p);
    var n := nodes[pos[p]];
    assert HoldsNode(b, nodes, pos[p], f);
    NextStrongFinds(b, nodes, pos[p], f, c);
    var l := IndexOf(n.names, c);
    assert l >= 0 ==> n.names[l] == c && Ext(p, n.names[l]) in pos && KidFits(nodes, n, l, f);
    assert Ext(p, c) in pos ==> c in n.names;
  }

  /** Every key, and every prefix of one, leads to its node. */
  lemma {:induction false} StrongFinds(b: seq<int>, nodes: seq<Node>, pos: Places, vals: map<Text, nat>, f: Format,
                                       p: Text)
    requires Trie(nodes, pos, vals) && Holds(b, nodes, f) && OffsetsFit(nodes, f) && f.layout.Strong? && p in pos
    ensures FindFrom(b, 0, p, f) == At(Start(nodes, pos[p], f))
    decreases |p|
  {
    if p != [] {
      var q, c := p[..|p| - 1], p[|p| - 1];
      assert p == Ext(q, c);
      assert PlaceOk(nodes, pos, vals, q);
      StrongFinds(b, nodes, pos, vals, f, q);
      FindSnoc(b, 0, q, c, f);
      NextNodeFinds(b, nodes, pos, vals, f, q, c);
    }
  }

  /** Only the second child's offset is compared with the limit; the texts lead to their nodes exactly if all fit. */
  lemma StrongFindsIffOffsetsFit(b: seq<int>, nodes: seq<Node>, pos: Places, vals: map<Text, nat>, f: Format)
    requires Trie(nodes, pos, vals) && Covered(nodes, pos) && Holds(b, nodes, f) && f.layout.Strong?
    ensures (forall p | p in pos :: FindFrom(b, 0, p, f) == At(Start(nodes, pos[p], f))) <==> OffsetsFit(nodes, f)
  {
    if OffsetsFit(nodes, f) {
      forall p | p in pos ensures FindFrom(b, 0, p, f) == At(Start(nodes, pos[p], f)) {
        StrongFinds(b, nodes, pos, vals, f, p);
      }
    }
    if forall p | p in pos :: FindFrom(b, 0, p, f) == At(Start(nodes, pos[p], f)) {
      forall i, j | 0 <= i < |nodes| && 0 <= j < |nodes[i].kids| ensures KidFits(nodes, nodes[i], j, f) {
        assert IsPlace(pos, i);
        var p :| p in pos && pos[p] == i;
        assert PlaceOk(nodes, pos, vals, p);
        assert HoldsNode(b, nodes, i, f);
        FindSnoc(b, 0, p, nodes[i].names[j], f);
        assert Ext(p, nodes[i].names[j]) in pos;
        NextStrongFinds(b, nodes, i, f, nodes[i].names[j]);
      }
    }
  }

  /** Every key of the map is found with its value. */
  lemma StrongFindsKeys(es: seq<Entry>, b: seq<int>, nodes: seq<Node>, pos: Places, f: Format, key: Text)
    requires Trie(nodes, pos, Values(es)) && Tight(pos, Values(es)) && f.layout.Strong?
    requires Holds(b, nodes, f) && OffsetsFit(nodes, f) && ValuesFit(nodes, f) && IsPrefix(es, key)
    ensures Finds(es, b, f, key)
  {
    PlacesArePrefixes(es, pos, nodes, key);
    StrongFinds(b, nodes, pos, Values(es), f, key);
    assert PlaceOk(nodes, pos, Values(es), key);
    assert HoldsNode(b, nodes, pos[key], f);
    ReadValue(b, nodes, pos[key], f);
  }

  /** Every character between two children of a node has a child too. */
  ghost predicate NoGap(nodes: seq<Node>, pos: Places, p: Text, c: int) {
    p in pos && pos[p] < |nodes| && Spans(nodes[pos[p]].names, c) ==> Ext(p, c) in pos
  }

  lemma {:induction false} AbsentIsRejected(b: seq<int>, nodes: seq<Node>, pos: Places, vals: map<Text, nat>, f: Format,
                                            key: Text)
    requires Trie(nodes, pos, vals) && Holds(b, nodes, f) && OffsetsFit(nodes, f) && f.layout.Strong?
    requires (forall p, c :: NoGap(nodes, pos, p, c)) && key !in pos
    ensures FindFrom(b, 0, key, f) == Nothing
    decreases |key|
  {
    var q, c := key[..|key| - 1], key[|key| - 1];
    assert key == Ext(q, c);
    FindSnoc(b, 0, q, c, f);
    if q in pos {
      assert PlaceOk(nodes, pos, vals, q);
      StrongFinds(b, nodes, pos, vals, f, q);
      NextNodeFinds(b, nodes, pos, vals, f, q, c);
      assert NoGap(nodes, pos, q, c);
    } else {
      AbsentIsRejected(b, nodes, pos, vals, f, q);
    }
  }

  /** A gap in a table leads back to the root, so exactly the maps without gaps reject every other text. */
  lemma StrongRejectsIffNoGaps(b: seq<int>, nodes: seq<Node>, pos: Places, vals: map<Text, nat>, f: Format)
    requires Trie(nodes, pos, vals) && Holds(b, nodes, f) && OffsetsFit(nodes, f) && f.layout.Strong?
    ensures (forall key | key !in pos :: FindFrom(b, 0, key, f) == Nothing) <==> forall p, c :: NoGap(nodes, pos, p, c)
  {
    if forall p, c :: NoGap(nodes, pos, p, c) {
      forall key | key !in pos ensures FindFrom(b, 0, key, f) == Nothing {
        AbsentIsRejected(b, nodes, pos, vals, f, key);
      }
    }
    if forall key | key !in pos :: FindFrom(b, 0, key, f) == Nothing {
      forall p, c ensures NoGap(nodes, pos, p, c) {
        if p in pos && pos[p] < |nodes| {
          StrongFinds(b, nodes, pos, vals, f, p);
          FindSnoc(b, 0, p, c, f);
          NextNodeFinds(b, nodes, pos, vals, f, p, c);
        }
      }
    }
  }
}
