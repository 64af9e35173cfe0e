/** Maps whose STRONG buffer is built without complaint although lookups in it go wrong. */
module TrieTruncation {
  import opened TrieFat
  import opened TrieBytes
  import opened TrieFlat
  import opened TrieBuild

  /** One key for each of the characters 1 to n. */
  function Letters(n: nat): seq<Entry> {
    seq(n, i => Entry([i + 1], 0))
  }

  /** The names of the root's children in the order the trie keeps them; child c is node c. */
  function Order(n: nat): seq<nat>
    requires n > 0
  {
    [n] + seq(n - 1, i requires 0 <= i => i + 1)
  }

  function Fan(n: nat): seq<Node>
    requires n > 0
  {
    [Node(0, Order(n), Order(n))] + seq(n, _ => Node(0, [], []))
  }

  lemma {:induction false} FanStart(n: nat, i: nat, f: Format)
    requires 0 < i <= n <= 127 && f == Format(1, 1, Strong)
    ensures Start(Fan(n), i, f) == n + 3 * i
    decreases i
  {
    RoomIsProduct(n, 1);
    if i > 1 {
      FanStart(n, i - 1, f);
    } else {
      FanRoot(n, f);
    }
  }

  lemma FanRoot(n: nat, f: Format)
    requires 0 < n <= 127 && f == Format(1, 1, Strong)
    ensures Count(Fan(n)[0], f) == n && Size(Fan(n)[0], f) == n + 3
  {
    RoomIsProduct(n, 1);
  }

  // ----- The fan is what is built -----

  lemma FanGrows(n: nat)
    requires n > 0
    ensures Descend(Fan(n), 0, n + 1) == Descent(Fan(n + 1), n + 1)
  {
    var root := Fan(n)[0];
    assert Promoted(Order(n), n + 1) == Order(n + 1);
    var more := Fan(n)[0 := Node(0, Order(n + 1), Order(n + 1))] + [Node(0, [], [])];
    assert |more| == |Fan(n + 1)| && forall i | 0 <= i < |more| :: more[i] == Fan(n + 1)[i];
  }

  lemma FanStarts()
    ensures Descend([Node(0, [], [])], 0, 1) == Descent(Fan(1), 1)
  {
    assert Order(1) == [1];
    assert Fan(1)[0] == Node(0, [1], [1]) && Fan(1)[1] == Node(0, [], []) && |Fan(1)| == 2;
    assert Fan(1) == [Node(0, [1], [1]), Node(0, [], [])];
  }

  lemma OneStep(nodes: seq<Node>, c: int, next: nat)
    requires nodes != [] && |nodes[0].kids| == |nodes[0].names| && next < |Descend(nodes, 0, c).nodes|
    requires Descend(nodes, 0, c).next == next && Descend(nodes, 0, c).nodes[next].value == 0
    ensures Inserted(nodes, [c], 0) == Descend(nodes, 0, c).nodes
  {
    var d := Descend(nodes, 0, c);
    assert [c][1..] == [];
    assert Walked(nodes, 0, [c]) == Walked(d.nodes, d.next, []) == d;
    assert d.nodes[next := d.nodes[next].(value := 0)] == d.nodes;
  }

  lemma {:induction false} FanIsBuilt(n: nat)
    requires n > 0
    ensures FatOf(Letters(n)) == Fan(n)
    decreases n
  {
    var front := Letters(n)[..n - 1];
    if n == 1 {
      assert front == [];
      FanStarts();
      OneStep([Node(0, [], [])], 1, 1);
    } else {
      assert front == Letters(n - 1);
      FanIsBuilt(n - 1);
      FanGrows(n - 1);
      OneStep(Fan(n - 1), n, n);
    }
  }

  lemma LettersInOrder(n: nat)
    requires n <= 127
    ensures MapOrder(Letters(n))
  {
  }

  // ----- And it is cut off -----

  lemma FanPasses(n: nat, f: Format)
    requires 1 < n <= 127 && f == Format(1, 1, Strong)
    ensures AllPass(Fan(n), f)
  {
    assert Pow256(1) == 256 * Pow256(0) == 256;
    FanStart(n, 1, f);
    assert Order(n)[1] == 1;
  }

  /**
   With one-byte offsets a map of at least 64 one-character keys is built without complaint, and yet its
   greatest key does not lead to its node.
   */
  lemma StrongBuildMayTruncate(n: nat, f: Format, b: seq<int>)
    requires 64 <= n <= 127 && f == Format(1, 1, Strong)
    ensures MapOrder(Letters(n)) && AllPass(FatOf(Letters(n)), f) && !OffsetsFit(FatOf(Letters(n)), f)
    ensures Holds(b, FatOf(Letters(n)), f) ==> FindFrom(b, 0, [n], f) != At(Start(FatOf(Letters(n)), n, f))
  {
    FanIsBuilt(n);
    LettersInOrder(n);
    FanPasses(n, f);
    assert Pow256(1) == 256 * Pow256(0) == 256;
    FanStart(n, n, f);
    assert !KidFits(Fan(n), Fan(n)[0], 0, f);
    if Holds(b, Fan(n), f) {
      assert HoldsNode(b, Fan(n), 0, f);
      TrieStrong.NextStrongFinds(b, Fan(n), 0, f, n);
      assert [n][1..] == [];
    }
  }

  // ----- A map that is refused -----

  /** The nodes for a single key: one for each of its prefixes. */
  function Line(key: Text, value: nat): seq<Node> {
    seq(|key| + 1, i requires 0 <= i <= |key| => if i < |key| then Node(0, [key[i]], [i + 1]) else Node(value, [], []))
  }

  lemma LineGrows(key: Text, c: int)
    ensures Descend(Line(key, 0), |key|, c) == Descent(Line(key + [c], 0), |key| + 1)
  {
    var nodes, more := Line(key, 0), Line(key + [c], 0);
    var d := Descend(nodes, |key|, c);
    assert nodes[|key|] == Node(0, [], []) && Promoted(nodes[|key|].names, c) == [c];
    assert d.nodes == nodes[|key| := Node(0, [c], [|nodes|])] + [Node(0, [], [])];
    forall i | 0 <= i < |more| ensures d.nodes[i] == more[i] {
    }
  }

  lemma {:induction false} LineIsWalked(key: Text, i: nat)
    requires i <= |key|
    ensures Walked(Line(key[..i], 0), i, key[i..]) == Descent(Line(key, 0), |key|)
    decreases |key| - i
  {
    if i == |key| {
      assert key[..i] == key && key[i..] == [];
    } else {
      LineGrows(key[..i], key[i]);
      assert key[..i] + [key[i]] == key[..i + 1];
      assert key[i..][0] == key[i] && key[i..][1..] == key[i + 1..];
      LineIsWalked(key, i + 1);
    }
  }

  lemma LineIsBuilt(key: Text, value: nat)
    ensures FatOf([Entry(key, value)]) == Line(key, value)
  {
    var es := [Entry(key, value)];
    assert es[..0] == [] && FatOf(es[..0]) == [Node(0, [], [])];
    assert key[..0] == [] && key[0..] == key && Line([], 0) == [Node(0, [], [])];
    LineIsWalked(key, 0);
    assert Line(key, 0)[|key| := Line(key, 0)[|key|].(value := value)] == Line(key, value);
  }

  lemma {:induction false} LineStart(key: Text, value: nat, i: nat, f: Format)
    requires i <= |key| && f == Format(1, 1, Strong)
    ensures Start(Line(key, value), i, f) == 4 * i
  {
    if i > 0 {
      LineStart(key, value, i - 1, f);
      assert Line(key, value)[i - 1] == Node(0, [key[i - 1]], [i]);
      RoomIsProduct(1, 1);
    }
  }

  /** With one-byte values and offsets a single key is refused exactly if it or its value is too large. */
  lemma LongKeyIsRefused(key: Text, value: nat, f: Format)
    requires Proper(key) && f == Format(1, 1, Strong)
    ensures MapOrder([Entry(key, value)]) && (AllPass(FatOf([Entry(key, value)]), f) <==> |key| < 64 && value < 256)
  {
    var nodes := Line(key, value);
    LineIsBuilt(key, value);
    PassIsExact(nodes, f);
    assert Pow256(1) == 256 * Pow256(0) == 256;
    assert nodes[|key|] == Node(value, [], []);
    forall i | 0 <= i < |key| ensures nodes[i] == Node(0, [key[i]], [i + 1]) && Start(nodes, i + 1, f) == 4 * (i + 1) {
      LineStart(key, value, i + 1, f);
    }
    assert |key| >= 64 ==> |nodes[63].kids| == 1 && Start(nodes, nodes[63].kids[0], f) == 256;
  }

  /** The keys 1 and 3 leave a gap: the absent text 2 finds the root. */
  lemma GapFindsRoot(es: seq<Entry>, f: Format, b: seq<int>)
    requires es == [Entry([1], 0), Entry([3], 0)] && f == Format(1, 1, Strong)
    ensures MapOrder(es) && AllPass(FatOf(es), f) && OffsetsFit(FatOf(es), f) && !IsPrefix(es, [2])
    ensures Holds(b, FatOf(es), f) ==> FindFrom(b, 0, [2], f) == At(0)
  {
    var nodes := GapNodes(es);
    GapFits(nodes, f);
    if Holds(b, nodes, f) {
      GapIsRoot(nodes, f, b);
    }
  }

  lemma GapIsRoot(nodes: seq<Node>, f: Format, b: seq<int>)
    requires nodes == [Node(0, [3, 1], [2, 1]), Node(0, [], []), Node(0, [], [])] && f == Format(1, 1, Strong)
    requires Holds(b, nodes, f)
    ensures FindFrom(b, 0, [2], f) == At(0)
  {
    assert HoldsNode(b, nodes, 0, f);
    TrieStrong.NextStrongFinds(b, nodes, 0, f, 2);
    assert [2][1..] == [];
  }

  lemma GapNodes(es: seq<Entry>) returns (nodes: seq<Node>)
    requires es == [Entry([1], 0), Entry([3], 0)]
    ensures FatOf(es) == nodes == [Node(0, [3, 1], [2, 1]), Node(0, [], []), Node(0, [], [])]
  {
    var first := [Entry([1], 0)];
    FanStarts();
    OneStep([Node(0, [], [])], 1, 1);
    assert first[..0] == [] && FatOf(first) == Fan(1) == [Node(0, [1], [1]), Node(0, [], [])];
    assert es[..1] == first;
    nodes := [Node(0, [3, 1], [2, 1]), Node(0, [], []), Node(0, [], [])];
    assert Promoted([1], 3) == [3, 1] && Promoted([1], 2) == [2, 1];
    assert Descend(Fan(1), 0, 3).nodes == nodes;
    OneStep(Fan(1), 3, 2);
  }

  lemma GapStarts(nodes: seq<Node>, f: Format)
    requires nodes == [Node(0, [3, 1], [2, 1]), Node(0, [], []), Node(0, [], [])] && f == Format(1, 1, Strong)
    ensures Start(nodes, 1, f) == 6 && Start(nodes, 2, f) == 9
  {
    RoomIsProduct(3, 1);
    assert Count(nodes[0], f) == 3 && Size(nodes[0], f) == 6;
    assert Count(nodes[1], f) == 0 && Size(nodes[1], f) == 3;
    assert Start(nodes, 0, f) == 0;
  }

  lemma GapFits(nodes: seq<Node>, f: Format)
    requires nodes == [Node(0, [3, 1], [2, 1]), Node(0, [], []), Node(0, [], [])] && f == Format(1, 1, Strong)
    ensures AllPass(nodes, f) && OffsetsFit(nodes, f)
  {
    assert Pow256(1) == 256 * Pow256(0) == 256;
    GapStarts(nodes, f);
  }
}
