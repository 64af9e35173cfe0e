/** The flat trie: nodes packed into one buffer, children found by their offset from its start. */
module TrieFlat {
  import opened Collections
  import opened TrieFat
  import opened TrieBytes

  /** SLIM stores the children's names; STRONG stores a table from the least name to the greatest. */
  datatype Layout = Slim | Strong

  /** Sizes of a stored value and of a stored offset. */
  datatype Format = Format(valueBytes: nat, offsetBytes: nat, layout: Layout)

  // ----- A node as bytes -----

  function Count(n: Node, f: Format): nat {
    if f.layout.Strong? && |n.names| > 1 && n.names[0] >= n.names[1] then n.names[0] - n.names[1] + 1 else |n.names|
  }

  /** How many bytes hold names. */
  function NameBytes(count: nat, f: Format): nat {
    if f.layout.Slim? then count else 1
  }

  function Size(n: Node, f: Format): nat {
    f.valueBytes + 1 + NameBytes(Count(n, f), f) + Room(Count(n, f), f.offsetBytes)
  }

  /** Where node i starts. */
  function Start(nodes: seq<Node>, i: nat, f: Format): nat {
    if i == 0 || i > |nodes| then 0 else Start(nodes, i - 1, f) + Size(nodes[i - 1], f)
  }

  /** Where the child named c starts, 0 if there is none. */
  function KidFor(nodes: seq<Node>, n: Node, c: int, f: Format): nat
    requires |n.kids| == |n.names|
  {
    var j := IndexOf(n.names, c);
    if j < 0 then 0 else Start(nodes, n.kids[j], f)
  }

  function Least(names: seq<int>): int {
    if |names| > 1 then names[1] else if |names| == 1 then names[0] else 0
  }

  /** The stored offsets. */
  function Table(nodes: seq<Node>, n: Node, f: Format): (r: seq<nat>)
    requires |n.kids| == |n.names|
    ensures |r| == Count(n, f)
  {
    if f.layout.Slim? then seq<nat>(|n.names|, i requires 0 <= i < |n.names| => Start(nodes, n.kids[i], f))
    else seq<nat>(Count(n, f), i requires 0 <= i => KidFor(nodes, n, Least(n.names) + i, f))
  }

  function StoredNames(n: Node, f: Format): (r: seq<int>)
    ensures |r| == NameBytes(Count(n, f), f)
  {
    if f.layout.Slim? then n.names else [Least(n.names)]
  }

  function Head(n: Node, f: Format): seq<int> {
    Enc(n.value, f.valueBytes) + [Count(n, f)] + StoredNames(n, f)
  }

  function Record(nodes: seq<Node>, n: Node, f: Format): (r: seq<int>)
    requires |n.kids| == |n.names|
    ensures |r| == Size(n, f)
  {
    Head(n, f) + EncAll(Table(nodes, n, f), f.offsetBytes)
  }

  ghost predicate Shaped(n: Node, total: nat) {
    |n.kids| == |n.names| && MaxFirst(n.names) && Proper(n.names) && forall i | 0 <= i < |n.kids| :: n.kids[i] < total
  }

  ghost predicate AllShaped(nodes: seq<Node>) {
    forall i | 0 <= i < |nodes| :: Shaped(nodes[i], |nodes|)
  }

  /** The buffer holds the record of node i. */
  ghost predicate HoldsNode(b: seq<int>, nodes: seq<Node>, i: nat, f: Format)
    requires i < |nodes| && Shaped(nodes[i], |nodes|)
  {
    Bytes(b, Start(nodes, i, f), Size(nodes[i], f)) == Record(nodes, nodes[i], f)
  }

  ghost predicate Holds(b: seq<int>, nodes: seq<Node>, f: Format) {
    AllShaped(nodes) && forall i | 0 <= i < |nodes| :: HoldsNode(b, nodes, i, f)
  }

  // ----- Reading -----

  function ValueAt(b: seq<int>, a: nat, f: Format): int {
    Dec(Bytes(b, a, f.valueBytes))
  }

  function ByteAt(b: seq<int>, a: nat): int {
    if a < |b| then b[a] else 0
  }

  function CountAt(b: seq<int>, a: nat, f: Format): int {
    ByteAt(b, a + f.valueBytes)
  }

  function NameAt(b: seq<int>, a: nat, j: nat, f: Format): int {
    ByteAt(b, a + f.valueBytes + 1 + j)
  }

  function KidAt(b: seq<int>, a: nat, count: nat, j: nat, f: Format): int {
    Dec(Bytes(b, a + f.valueBytes + 1 + NameBytes(count, f) + Room(j, f.offsetBytes), f.offsetBytes))
  }

  lemma ReadByte(b: seq<int>, s: nat, r: seq<int>, a: nat)
    requires Bytes(b, s, |r|) == r && a < |r|
    ensures ByteAt(b, s + a) == r[a]
  {
    BytesOfBytes(b, s, r, a, 1);
    assert Bytes(b, s + a, 1) == [ByteAt(b, s + a)] && Bytes(r, a, 1) == [r[a]];
  }

  lemma ReadHead(e: seq<int>, c: int, names: seq<int>, t: seq<int>, b: seq<int>, s: nat)
    requires Bytes(b, s, |e + [c] + names + t|) == e + [c] + names + t
    ensures Bytes(b, s, |e|) == e && ByteAt(b, s + |e|) == c
  {
    var r := e + [c] + names + t;
    BytesOfBytes(b, s, r, 0, |e|);
    assert Bytes(r, 0, |e|) == e;
    ReadByte(b, s, r, |e|);
  }

  lemma ReadNames(e: seq<int>, c: int, names: seq<int>, t: seq<int>, b: seq<int>, s: nat, j: nat)
    requires Bytes(b, s, |e + [c] + names + t|) == e + [c] + names + t && j < |names|
    ensures ByteAt(b, s + |e| + 1 + j) == names[j]
  {
    ReadByte(b, s, e + [c] + names + t, |e| + 1 + j);
  }

  lemma ReadTable(h: seq<int>, t: seq<int>, b: seq<int>, s: nat, a: nat, n: nat)
    requires Bytes(b, s, |h + t|) == h + t && a + n <= |t| && h != []
    ensures Bytes(b, s + |h| + a, n) == Bytes(t, a, n)
  {
    BytesOfBytes(b, s, h + t, |h| + a, n);
    BytesOfConcat(h, t, a, n);
  }

  /** Bytes at o in the table are bytes at o behind the head. */
  lemma ReadEntry(h: seq<int>, t: seq<int>, b: seq<int>, s: nat, o: nat, w: nat, v: nat)
    requires Bytes(b, s, |h + t|) == h + t && h != [] && o + w <= |t| && Bytes(t, o, w) == Enc(v, w)
    ensures var k := Dec(Bytes(b, s + |h| + o, w)); k >= 0 && (k == v <==> v < Pow256(w))
  {
    ReadTable(h, t, b, s, o, w);
    DecEnc(v, w);
  }

  lemma ReadNumber(b: seq<int>, s: nat, v: nat, w: nat, c: int, names: seq<int>, t: seq<int>)
    requires var r := Enc(v, w) + [c] + names + t; Bytes(b, s, |r|) == r
    ensures v < Pow256(w) ==> Dec(Bytes(b, s, w)) == v
    ensures ByteAt(b, s + w) == c
  {
    var e := Enc(v, w);
    ReadHead(e, c, names, t, b, s);
    DecEnc(v, w);
  }

  lemma ReadValue(b: seq<int>, nodes: seq<Node>, i: nat, f: Format)
    requires i < |nodes| && Shaped(nodes[i], |nodes|) && HoldsNode(b, nodes, i, f)
    ensures nodes[i].value < Pow256(f.valueBytes) ==> ValueAt(b, Start(nodes, i, f), f) == nodes[i].value
    ensures CountAt(b, Start(nodes, i, f), f) == Count(nodes[i], f)
  {
    var n := nodes[i];
    ReadNumber(b, Start(nodes, i, f), n.value, f.valueBytes, Count(n, f), StoredNames(n, f),
               EncAll(Table(nodes, n, f), f.offsetBytes));
  }

  lemma ReadName(b: seq<int>, nodes: seq<Node>, i: nat, f: Format, j: nat)
    requires i < |nodes| && Shaped(nodes[i], |nodes|) && HoldsNode(b, nodes, i, f)
             && j < NameBytes(Count(nodes[i], f), f)
    ensures NameAt(b, Start(nodes, i, f), j, f) == StoredNames(nodes[i], f)[j]
  {
    var n := nodes[i];
    ReadNames(Enc(n.value, f.valueBytes), Count(n, f), StoredNames(n, f), EncAll(Table(nodes, n, f), f.offsetBytes), b,
              Start(nodes, i, f), j);
  }

  /** An offset reads back as itself exactly if it fits. */
  lemma ReadKid(b: seq<int>, nodes: seq<Node>, i: nat, f: Format, j: nat)
    requires i < |nodes| && Shaped(nodes[i], |nodes|) && HoldsNode(b, nodes, i, f) && j < Count(nodes[i], f)
    ensures var k, t := KidAt(b, Start(nodes, i, f), Count(nodes[i], f), j, f), Table(nodes, nodes[i], f)[j];
            k >= 0 && (k == t <==> t < Pow256(f.offsetBytes))
  {
    var h, table := Head(nodes[i], f), Table(nodes, nodes[i], f);
    var t := EncAll(table, f.offsetBytes);
    BytesOfEncAll(table, f.offsetBytes, j);
    ReadEntry(h, t, b, Start(nodes, i, f), Room(j, f.offsetBytes), f.offsetBytes, table[j]);
  }

  // ----- The stored form -----

  /** Both layouts begin with the value and a count. */
  lemma HeadStands(b: seq<int>, nodes: seq<Node>, i: nat, f: Format)
    requires i < |nodes| && Shaped(nodes[i], |nodes|) && HoldsNode(b, nodes, i, f)
    ensures var n, a := nodes[i], Start(nodes, i, f);
            Bytes(b, a, f.valueBytes) == Enc(n.value, f.valueBytes) && ByteAt(b, a + f.valueBytes) == Count(n, f)
  {
    var n := nodes[i];
    ReadHead(Enc(n.value, f.valueBytes), Count(n, f), StoredNames(n, f), EncAll(Table(nodes, n, f), f.offsetBytes), b,
             Start(nodes, i, f));
  }

  /** Entry j of the table stands behind the head. */
  lemma EntryStands(b: seq<int>, nodes: seq<Node>, i: nat, f: Format, j: nat, at: nat)
    requires i < |nodes| && Shaped(nodes[i], |nodes|) && HoldsNode(b, nodes, i, f) && j < Count(nodes[i], f)
    requires at == Start(nodes, i, f) + f.valueBytes + 1 + NameBytes(Count(nodes[i], f), f) + j * f.offsetBytes
    ensures Bytes(b, at, f.offsetBytes) == Enc(Table(nodes, nodes[i], f)[j], f.offsetBytes)
  {
    var h, table := Head(nodes[i], f), Table(nodes, nodes[i], f);
    var t := EncAll(table, f.offsetBytes);
    BytesOfEncAll(table, f.offsetBytes, j);
    RoomIsProduct(j, f.offsetBytes);
    ReadTable(h, t, b, Start(nodes, i, f), Room(j, f.offsetBytes), f.offsetBytes);
  }

  lemma SlimOffset(b: seq<int>, nodes: seq<Node>, i: nat, f: Format, j: nat, at: nat)
    requires i < |nodes| && Shaped(nodes[i], |nodes|) && HoldsNode(b, nodes, i, f) && f.layout.Slim?
    requires j < |nodes[i].names| && at == Start(nodes, i, f) + f.valueBytes + 1 + |nodes[i].names| + j * f.offsetBytes
    ensures Bytes(b, at, f.offsetBytes) == Enc(Start(nodes, nodes[i].kids[j], f), f.offsetBytes)
  {
    EntryStands(b, nodes, i, f, j, at);
  }

  ghost predicate SlimOffsetsStand(b: seq<int>, nodes: seq<Node>, n: Node, a: nat, f: Format)
    requires |n.kids| == |n.names|
  {
    forall j, at: nat | 0 <= j < |n.names| && at == a + f.valueBytes + 1 + |n.names| + j * f.offsetBytes ::
      Bytes(b, at, f.offsetBytes) == Enc(Start(nodes, n.kids[j], f), f.offsetBytes)
  }

  lemma SlimOffsets(b: seq<int>, nodes: seq<Node>, i: nat, n: Node, a: nat, f: Format)
    requires i < |nodes| && n == nodes[i] && Shaped(n, |nodes|) && a == Start(nodes, i, f)
    requires HoldsNode(b, nodes, i, f) && f.layout.Slim?
    ensures SlimOffsetsStand(b, nodes, n, a, f)
  {
    forall j, at: nat | 0 <= j < |n.names| && at == a + f.valueBytes + 1 + |n.names| + j * f.offsetBytes
      ensures Bytes(b, at, f.offsetBytes) == Enc(Start(nodes, n.kids[j], f), f.offsetBytes)
    {
      SlimOffset(b, nodes, i, f, j, at);
    }
  }

  ghost predicate NamesStand(b: seq<int>, names: seq<int>, from: nat) {
    forall j, at: nat | 0 <= j < |names| && at == from + j :: ByteAt(b, at) == names[j]
  }

  lemma ReadAllNames(e: seq<int>, c: int, names: seq<int>, t: seq<int>, b: seq<int>, s: nat)
    requires Bytes(b, s, |e + [c] + names + t|) == e + [c] + names + t
    ensures NamesStand(b, names, s + |e| + 1)
  {
    forall j, at: nat | 0 <= j < |names| && at == s + |e| + 1 + j ensures ByteAt(b, at) == names[j] {
      ReadNames(e, c, names, t, b, s, j);
    }
  }

  lemma SlimNames(b: seq<int>, nodes: seq<Node>, i: nat, f: Format)
    requires i < |nodes| && Shaped(nodes[i], |nodes|) && HoldsNode(b, nodes, i, f) && f.layout.Slim?
    ensures NamesStand(b, nodes[i].names, Start(nodes, i, f) + f.valueBytes + 1)
  {
    var n := nodes[i];
    ReadAllNames(Enc(n.value, f.valueBytes), Count(n, f), StoredNames(n, f), EncAll(Table(nodes, n, f), f.offsetBytes),
                 b, Start(nodes, i, f));
  }

  /** A node as it stands in the buffer from a on: value, count, names and offsets of the children. */
  ghost predicate SlimStands(b: seq<int>, nodes: seq<Node>, n: Node, a: nat, f: Format)
    requires |n.kids| == |n.names|
  {
    && Bytes(b, a, f.valueBytes) == Enc(n.value, f.valueBytes) && ByteAt(b, a + f.valueBytes) == |n.names|
    && NamesStand(b, n.names, a + f.valueBytes + 1) && SlimOffsetsStand(b, nodes, n, a, f)
  }

  /** SLIM goes on with one name and then one offset for each child. */
  lemma SlimLayout(b: seq<int>, nodes: seq<Node>, i: nat, f: Format)
    requires i < |nodes| && Shaped(nodes[i], |nodes|) && HoldsNode(b, nodes, i, f) && f.layout.Slim?
    ensures SlimStands(b, nodes, nodes[i], Start(nodes, i, f), f)
  {
    HeadStands(b, nodes, i, f);
    SlimNames(b, nodes, i, f);
    SlimOffsets(b, nodes, i, nodes[i], Start(nodes, i, f), f);
  }

  lemma StrongOffset(b: seq<int>, nodes: seq<Node>, i: nat, f: Format, c: int, at: nat)
    requires i < |nodes| && Shaped(nodes[i], |nodes|) && HoldsNode(b, nodes, i, f) && f.layout.Strong?
    requires nodes[i].names != [] && Least(nodes[i].names) <= c <= nodes[i].names[0]
    requires at == Start(nodes, i, f) + f.valueBytes + 2 + (c - Least(nodes[i].names)) * f.offsetBytes
    ensures Bytes(b, at, f.offsetBytes) == Enc(KidFor(nodes, nodes[i], c, f), f.offsetBytes)
  {
    EntryStands(b, nodes, i, f, c - Least(nodes[i].names), at);
  }

  ghost predicate StrongOffsetsStand(b: seq<int>, nodes: seq<Node>, n: Node, a: nat, least: int, f: Format)
    requires |n.kids| == |n.names| > 0
  {
    forall c, at: nat | least <= c <= n.names[0] && at == a + f.valueBytes + 2 + (c - least) * f.offsetBytes ::
      Bytes(b, at, f.offsetBytes) == Enc(KidFor(nodes, n, c, f), f.offsetBytes)
  }

  lemma StrongOffsets(b: seq<int>, nodes: seq<Node>, i: nat, n: Node, a: nat, least: int, f: Format)
    requires i < |nodes| && n == nodes[i] && Shaped(n, |nodes|) && a == Start(nodes, i, f)
    requires HoldsNode(b, nodes, i, f) && f.layout.Strong? && n.names != [] && least == Least(n.names)
    ensures StrongOffsetsStand(b, nodes, n, a, least, f)
  {
    forall c, at: nat | least <= c <= n.names[0] && at == a + f.valueBytes + 2 + (c - least) * f.offsetBytes
      ensures Bytes(b, at, f.offsetBytes) == Enc(KidFor(nodes, n, c, f), f.offsetBytes)
    {
      StrongOffset(b, nodes, i, f, c, at);
    }
  }

  ghost predicate StrongStands(b: seq<int>, nodes: seq<Node>, n: Node, a: nat, least: int, f: Format)
    requires |n.kids| == |n.names| > 0
  {
    && Bytes(b, a, f.valueBytes) == Enc(n.value, f.valueBytes)
    && ByteAt(b, a + f.valueBytes) == n.names[0] - least + 1 && ByteAt(b, a + f.valueBytes + 1) == least
    && StrongOffsetsStand(b, nodes, n, a, least, f)
  }

  /**
   STRONG goes on with the least name and then one offset for every character from there to the greatest name, 0 for
   those that name no child.
   */
  lemma StrongLayout(b: seq<int>, nodes: seq<Node>, i: nat, f: Format)
    requires i < |nodes| && Shaped(nodes[i], |nodes|) && HoldsNode(b, nodes, i, f) && f.layout.Strong?
    requires nodes[i].names != []
    ensures var names := nodes[i].names;
            StrongStands(b, nodes, nodes[i], Start(nodes, i, f), if |names| == 1 then names[0] else names[1], f)
  {
    HeadStands(b, nodes, i, f);
    ReadName(b, nodes, i, f, 0);
    StrongOffsets(b, nodes, i, nodes[i], Start(nodes, i, f), Least(nodes[i].names), f);
  }

  /** A STRONG node without children still has the byte of a name, and it is 0. */
  lemma StrongLeafLayout(b: seq<int>, nodes: seq<Node>, i: nat, f: Format)
    requires i < |nodes| && Shaped(nodes[i], |nodes|) && HoldsNode(b, nodes, i, f) && f.layout.Strong?
    requires nodes[i].names == []
    ensures var a := Start(nodes, i, f);
            && Bytes(b, a, f.valueBytes) == Enc(nodes[i].value, f.valueBytes)
            && ByteAt(b, a + f.valueBytes) == 0 && ByteAt(b, a + f.valueBytes + 1) == 0
  {
    HeadStands(b, nodes, i, f);
    ReadName(b, nodes, i, f, 0);
  }

  // ----- Lookup -----

  datatype Found = Nothing | At(address: nat)

  function Kid(b: seq<int>, a: nat, count: nat, j: nat, f: Format): Found {
    var k := KidAt(b, a, count, j, f);
    if k < 0 then Nothing else At(k)
  }

  /** SLIM: looks at the greatest name first and then upwards, and stops once c is passed. */
  function NextSlim(b: seq<int>, a: nat, count: nat, c: int, j: nat, f: Format): Found
    decreases count - j
  {
    if j >= count then Nothing
    else
      var name := NameAt(b, a, j, f);
      if name == c then Kid(b, a, count, j, f)
      else if (j == 0 && name < c) || (j > 0 && name > c) then Nothing
      else NextSlim(b, a, count, c, j + 1, f)
  }

  /** The child for c. */
  function NextNode(b: seq<int>, a: nat, c: int, f: Format): Found {
    var count := CountAt(b, a, f);
    if count <= 0 then Nothing
    else if f.layout.Slim? then NextSlim(b, a, count, c, 0, f)
    else
      var offset := c - NameAt(b, a, 0, f);
      if offset < 0 || offset >= count then Nothing else Kid(b, a, count, offset, f)
  }

  function FindFrom(b: seq<int>, a: nat, key: Text, f: Format): Found
    decreases |key|
  {
    if key == [] then At(a)
    else
      match NextNode(b, a, key[0], f)
      case Nothing => Nothing
      case At(k) => FindFrom(b, k, key[1..], f)
  }

  // ----- Prefixes -----

  /** The text is empty or a prefix of a key. */
  ghost predicate IsPrefix(es: seq<Entry>, key: Text) {
    key == [] || exists i :: 0 <= i < |es| && key <= es[i].key
  }

  /** The lookup ends at a node that holds the map's value, 0 for what is no key. */
  ghost predicate Finds(es: seq<Entry>, b: seq<int>, f: Format, key: Text) {
    var r := FindFrom(b, 0, key, f);
    r.At? && ValueAt(b, r.address, f) == if key in Values(es) then Values(es)[key] else 0
  }

  lemma {:induction false} FrontStays(pos: Places, q: Text, rest: Text)
    requires PrefixClosed(pos) && q + rest in pos
    ensures q in pos
    decreases |rest|
  {
    if rest == [] {
      assert q + rest == q;
    } else {
      var front := rest[..|rest| - 1];
      assert q + rest == Ext(q + front, rest[|rest| - 1]);
      FrontStays(pos, q, front);
    }
  }

  lemma PlacesArePrefixes(es: seq<Entry>, pos: Places, nodes: seq<Node>, key: Text)
    requires Trie(nodes, pos, Values(es)) && Tight(pos, Values(es))
    ensures key in pos <==> IsPrefix(es, key)
  {
    if key in pos && key != [] {
      var k :| k in Values(es) && key <= k;
      KeysOfValues(es, k);
    }
    if key != [] && IsPrefix(es, key) {
      var i :| 0 <= i < |es| && key <= es[i].key;
      KeysOfValues(es, es[i].key);
      assert es[i].key in pos;
      assert key + es[i].key[|key|..] == es[i].key;
      FrontStays(pos, key, es[i].key[|key|..]);
    }
  }

  lemma {:induction false} FindSnoc(b: seq<int>, a: nat, p: Text, c: int, f: Format)
    ensures FindFrom(b, a, Ext(p, c), f)
            == match FindFrom(b, a, p, f) case Nothing => Nothing case At(k) => NextNode(b, k, c, f)
    decreases |p|
  {
    if p == [] {
      assert Ext(p, c)[1..] == [] && Ext(p, c)[0] == c;
    } else {
      assert Ext(p, c)[0] == p[0] && Ext(p, c)[1..] == Ext(p[1..], c);
      match NextNode(b, a, p[0], f)
      case Nothing =>
      case At(k) => FindSnoc(b, k, p[1..], c, f);
    }
  }

  // ----- What fits -----

  ghost predicate ValuesFit(nodes: seq<Node>, f: Format) {
    forall i | 0 <= i < |nodes| :: nodes[i].value < Pow256(f.valueBytes)
  }

  ghost predicate KidFits(nodes: seq<Node>, n: Node, j: nat, f: Format)
    requires j < |n.kids|
  {
    Start(nodes, n.kids[j], f) < Pow256(f.offsetBytes)
  }

  ghost predicate OffsetsFit(nodes: seq<Node>, f: Format) {
    forall i, j | 0 <= i < |nodes| && 0 <= j < |nodes[i].kids| :: KidFits(nodes, nodes[i], j, f)
  }
}
