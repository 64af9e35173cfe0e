/** Packing a map into a buffer, and looking texts up in it. */
module TrieBuild {
  import opened Collections
  import opened TrieFat
  import opened TrieBytes
  import opened TrieFlat
  import TrieSlim
  import TrieStrong

  method Write(buffer: array<int>, a: nat, s: seq<int>)
    requires a + |s| <= buffer.Length
    modifies buffer
    ensures buffer[..] == Put(old(buffer[..]), a, s)
  {
    for i := 0 to |s|
      invariant buffer[..] == Put(old(buffer[..]), a, s[..i])
    {
      PutMore(old(buffer[..]), a, s, i);
      buffer[a + i] := s[i];
    }
    assert s[..|s|] == s;
  }

  lemma PutMore(b: seq<int>, a: nat, s: seq<int>, i: nat)
    requires a + |s| <= |b| && i < |s|
    ensures Put(b, a, s[..i + 1]) == Put(b, a, s[..i])[a + i := s[i]]
  {
  }

  /** Overwrites a part of x, which was written at a. */
  method Overwrite(buffer: array<int>, ghost b: seq<int>, a: nat, ghost x: seq<int>, o: nat, s: seq<int>)
    requires a + |x| <= |b| == buffer.Length && o + |s| <= |x| && buffer[..] == Put(b, a, x)
    modifies buffer
    ensures buffer[..] == Put(b, a, Put(x, o, s))
  {
    PutPut(b, a, x, o, s);
    Write(buffer, a + o, s);
  }

  lemma EntryRoom(table: seq<nat>, n: nat, j: nat, v: nat)
    requires j < |table|
    ensures Room(j, n) + |Enc(v, n)| <= Room(|table|, n)
  {
    RoomGrows(j, |table|, n);
  }

  lemma EntryBytes(h: seq<int>, table: seq<nat>, n: nat, j: nat, v: nat, t: seq<int>, t': seq<int>, e: seq<int>, o: nat)
    requires j < |table| && t == EncAll(table, n) && t' == EncAll(table[j := v], n) && e == Enc(v, n) && o == Room(j, n)
    requires o + |e| <= |t|
    ensures Put(h + t, |h| + o, e) == h + t'
  {
    PutEntry(table, n, j, v);
    PutBehindAs(h, t, o, e, t');
  }

  lemma PutBehindAs(h: seq<int>, t: seq<int>, o: nat, s: seq<int>, t': seq<int>)
    requires o + |s| <= |t| && Put(t, o, s) == t'
    ensures Put(h + t, |h| + o, s) == h + t'
  {
    PutBehind(h, t, o, s);
  }

  /** Writes entry j of the table that follows the `head` bytes of the record at a. */
  method StoreEntry(buffer: array<int>, ghost b: seq<int>, a: nat, ghost h: seq<int>, head: nat, ghost table: seq<nat>,
                    j: nat, v: nat, f: Format)
    requires j < |table| && head == |h| && |b| == buffer.Length
    requires a + |h| + Room(|table|, f.offsetBytes) <= |b|
    requires buffer[..] == Put(b, a, h + EncAll(table, f.offsetBytes))
    modifies buffer
    ensures buffer[..] == Put(b, a, h + EncAll(table[j := v], f.offsetBytes))
  {
    var o, e := Room(j, f.offsetBytes), Enc(v, f.offsetBytes);
    ghost var t := EncAll(table, f.offsetBytes);
    EntryRoom(table, f.offsetBytes, j, v);
    EntryBytes(h, table, f.offsetBytes, j, v, t, EncAll(table[j := v], f.offsetBytes), e, o);
    Overwrite(buffer, b, a, h + t, head + o, e);
  }

  ghost predicate StartsUpTo(starts: seq<nat>, nodes: seq<Node>, m: nat, f: Format) {
    |starts| == m && forall i | 0 <= i < m :: starts[i] == Start(nodes, i, f)
  }

  ghost predicate StartsOf(starts: seq<nat>, nodes: seq<Node>, f: Format) {
    StartsUpTo(starts, nodes, |nodes|, f)
  }

  lemma OneMoreStart(starts: seq<nat>, nodes: seq<Node>, m: nat, f: Format)
    requires StartsUpTo(starts, nodes, m, f)
    ensures StartsUpTo(starts + [Start(nodes, m, f)], nodes, m + 1, f)
  {
  }

  /** The offsets compared with the limit: all in SLIM, one in STRONG. */
  predicate Guarded(n: Node, j: nat, f: Format) {
    f.layout.Slim? || j == (if |n.kids| > 1 then 1 else 0)
  }

  ghost predicate KidsPass(nodes: seq<Node>, n: Node, f: Format) {
    forall j | 0 <= j < |n.kids| && Guarded(n, j, f) :: KidFits(nodes, n, j, f)
  }

  ghost predicate NodePasses(nodes: seq<Node>, n: Node, f: Format) {
    n.value < Pow256(f.valueBytes) && KidsPass(nodes, n, f)
  }

  ghost predicate AllPass(nodes: seq<Node>, f: Format) {
    forall i | 0 <= i < |nodes| :: NodePasses(nodes, nodes[i], f)
  }

  method FillSlim(buffer: array<int>, ghost b: seq<int>, a: nat, ghost h: seq<int>, head: nat, nodes: seq<Node>,
                  n: Node, starts: seq<nat>, f: Format)
      returns (ok: bool)
    requires StartsOf(starts, nodes, f) && Shaped(n, |nodes|) && f.layout.Slim? && head == |h| && |b| == buffer.Length
    requires a + |h| + Room(Count(n, f), f.offsetBytes) <= |b|
    requires buffer[..] == Put(b, a, h + EncAll(seq(Count(n, f), _ => 0), f.offsetBytes))
    modifies buffer
    ensures ok <==> KidsPass(nodes, n, f)
    ensures ok ==> buffer[..] == Put(b, a, h + EncAll(Table(nodes, n, f), f.offsetBytes))
  {
    ghost var table: seq<nat> := seq(Count(n, f), _ => 0);
    for i := 0 to |n.names|
      invariant |table| == Count(n, f) && buffer[..] == Put(b, a, h + EncAll(table, f.offsetBytes))
      invariant forall j | 0 <= j < i :: table[j] == Start(nodes, n.kids[j], f) && KidFits(nodes, n, j, f)
    {
      if starts[n.kids[i]] >= Pow256(f.offsetBytes) {
        assert Guarded(n, i, f) && !KidFits(nodes, n, i, f);
        return false;
      }
      StoreEntry(buffer, b, a, h, head, table, i, starts[n.kids[i]], f);
      table := table[i := starts[n.kids[i]]];
    }
    assert table == Table(nodes, n, f);
    ok := true;
  }

  /** The table entry for c once the first i children are entered. */
  ghost function EnteredAt(nodes: seq<Node>, n: Node, i: nat, c: int, f: Format): nat
    requires i <= |n.names| == |n.kids|
  {
    var j := IndexOf(n.names[..i], c);
    if j < 0 then 0 else Start(nodes, n.kids[j], f)
  }

  ghost predicate Entered(table: seq<nat>, nodes: seq<Node>, n: Node, i: nat, f: Format)
    requires i <= |n.names| == |n.kids|
  {
    forall d | 0 <= d < |table| :: table[d] == EnteredAt(nodes, n, i, Least(n.names) + d, f)
  }

  lemma EnterOne(table: seq<nat>, nodes: seq<Node>, n: Node, i: nat, f: Format)
    requires MaxFirst(n.names) && f.layout.Strong? && i < |n.names| == |n.kids|
    requires |table| == Count(n, f) && Entered(table, nodes, n, i, f)
    ensures 0 <= n.names[i] - Least(n.names) < |table|
    ensures Entered(table[n.names[i] - Least(n.names) := Start(nodes, n.kids[i], f)], nodes, n, i + 1, f)
  {
  }

  lemma EnteredAll(table: seq<nat>, nodes: seq<Node>, n: Node, f: Format)
    requires Shaped(n, |nodes|) && f.layout.Strong? && |table| == Count(n, f) && Entered(table, nodes, n, |n.names|, f)
    ensures table == Table(nodes, n, f)
  {
    assert n.names[..|n.names|] == n.names;
    var all := Table(nodes, n, f);
    forall d | 0 <= d < |table| ensures table[d] == all[d] {
      assert table[d] == EnteredAt(nodes, n, |n.names|, Least(n.names) + d, f);
      assert all[d] == KidFor(nodes, n, Least(n.names) + d, f);
    }
  }

  method FillStrong(buffer: array<int>, ghost b: seq<int>, a: nat, ghost h: seq<int>, head: nat, nodes: seq<Node>,
                    n: Node, starts: seq<nat>, f: Format)
      returns (ok: bool)
    requires StartsOf(starts, nodes, f) && Shaped(n, |nodes|) && f.layout.Strong? && head == |h| && |b| == buffer.Length
    requires a + |h| + Room(Count(n, f), f.offsetBytes) <= |b|
    requires buffer[..] == Put(b, a, h + EncAll(seq(Count(n, f), _ => 0), f.offsetBytes))
    modifies buffer
    ensures ok <==> KidsPass(nodes, n, f)
    ensures |n.kids| == 0 ==> ok
    ensures |n.kids| == 1 ==> (ok <==> Start(nodes, n.kids[0], f) < Pow256(f.offsetBytes))
    ensures |n.kids| > 1 ==> (ok <==> Start(nodes, n.kids[1], f) < Pow256(f.offsetBytes))
    ensures ok ==> buffer[..] == Put(b, a, h + EncAll(Table(nodes, n, f), f.offsetBytes))
  {
    ghost var table: seq<nat> := seq(Count(n, f), _ => 0);
    var guarded := if |n.names| > 1 then 1 else 0;
    for i := 0 to |n.names|
      invariant |table| == Count(n, f) && buffer[..] == Put(b, a, h + EncAll(table, f.offsetBytes))
      invariant Entered(table, nodes, n, i, f) && (i > 0 ==> KidFits(nodes, n, guarded, f))
    {
      if starts[n.kids[guarded]] >= Pow256(f.offsetBytes) {
        assert Guarded(n, guarded, f) && !KidFits(nodes, n, guarded, f);
        return false;
      }
      EnterOne(table, nodes, n, i, f);
      StoreEntry(buffer, b, a, h, head, table, n.names[i] - Least(n.names), starts[n.kids[i]], f);
      table := table[n.names[i] - Least(n.names) := starts[n.kids[i]]];
    }
    EnteredAll(table, nodes, n, f);
    ok := true;
  }

  /** The record with its value, count and names filled in and its table still empty. */
  lemma HeadWritten(e: seq<int>, c: int, names: seq<int>, m: nat)
    ensures Put(Put(Put(Zeros(|e| + 1 + |names| + m), 0, e), |e|, [c]), |e| + 1, names) == e + [c] + names + Zeros(m)
  {
    var z := Zeros(|e| + 1 + |names| + m);
    assert Put(z, 0, e) == e + Zeros(1 + |names| + m);
    assert Put(e + Zeros(1 + |names| + m), |e|, [c]) == e + [c] + Zeros(|names| + m);
  }

  method WriteHead(buffer: array<int>, a: nat, n: Node, f: Format)
    requires a + Size(n, f) <= buffer.Length && Bytes(buffer[..], a, Size(n, f)) == Zeros(Size(n, f))
    modifies buffer
    ensures a + |Head(n, f)| + Room(Count(n, f), f.offsetBytes) <= buffer.Length
    ensures buffer[..] == Put(old(buffer[..]), a, Head(n, f) + EncAll(seq(Count(n, f), _ => 0), f.offsetBytes))
  {
    ghost var z := Zeros(Size(n, f));
    PutSame(buffer[..], a, z);
    EncAllZero(Count(n, f), f.offsetBytes);
    FillHead(buffer, buffer[..], a, Enc(n.value, f.valueBytes), Count(n, f), StoredNames(n, f),
             Room(Count(n, f), f.offsetBytes));
  }

  /** Value, count and names, written over zeros. */
  method FillHead(buffer: array<int>, ghost b: seq<int>, a: nat, e: seq<int>, c: int, names: seq<int>, ghost m: nat)
    requires a + |e| + 1 + |names| + m <= |b| == buffer.Length && buffer[..] == Put(b, a, Zeros(|e| + 1 + |names| + m))
    modifies buffer
    ensures buffer[..] == Put(b, a, e + [c] + names + Zeros(m))
  {
    ghost var z := Zeros(|e| + 1 + |names| + m);
    HeadWritten(e, c, names, m);
    Overwrite(buffer, b, a, z, 0, e);
    ghost var z1 := Put(z, 0, e);
    Overwrite(buffer, b, a, z1, |e|, [c]);
    ghost var z2 := Put(z1, |e|, [c]);
    Overwrite(buffer, b, a, z2, |e| + 1, names);
  }

  method WriteNode(buffer: array<int>, nodes: seq<Node>, i: nat, starts: seq<nat>, f: Format) returns (ok: bool)
    requires i < |nodes| && Shaped(nodes[i], |nodes|) && StartsOf(starts, nodes, f)
    requires starts[i] + Size(nodes[i], f) <= buffer.Length
    requires Bytes(buffer[..], starts[i], Size(nodes[i], f)) == Zeros(Size(nodes[i], f))
    modifies buffer
    ensures ok <==> NodePasses(nodes, nodes[i], f)
    ensures ok ==> buffer[..] == Put(old(buffer[..]), starts[i], Record(nodes, nodes[i], f))
  {
    var n := nodes[i];
    if n.value >= Pow256(f.valueBytes) {
      return false;
    }
    ghost var b := buffer[..];
    WriteHead(buffer, starts[i], n, f);
    var head := f.valueBytes + 1 + NameBytes(Count(n, f), f);
    if f.layout.Slim? {
      ok := FillSlim(buffer, b, starts[i], Head(n, f), head, nodes, n, starts, f);
    } else {
      ok := FillStrong(buffer, b, starts[i], Head(n, f), head, nodes, n, starts, f);
    }
  }

  lemma {:induction false} StartGrows(nodes: seq<Node>, i: nat, j: nat, f: Format)
    requires i < j <= |nodes|
    ensures Start(nodes, i, f) + Size(nodes[i], f) <= Start(nodes, j, f)
    decreases j
  {
    if i < j - 1 {
      StartGrows(nodes, i, j - 1, f);
    }
  }

  /** Node k is written, or its bytes are still zero. */
  ghost predicate Progress(b: seq<int>, nodes: seq<Node>, f: Format, todo: set<nat>, k: nat)
    requires k < |nodes| && Shaped(nodes[k], |nodes|)
  {
    if k in todo then Bytes(b, Start(nodes, k, f), Size(nodes[k], f)) == Zeros(Size(nodes[k], f))
    else HoldsNode(b, nodes, k, f) && NodePasses(nodes, nodes[k], f)
  }

  lemma WriteProgress(b: seq<int>, nodes: seq<Node>, f: Format, todo: set<nat>, i: nat, k: nat)
    requires AllShaped(nodes) && i < |nodes| && k < |nodes| && |b| == Start(nodes, |nodes|, f) && i in todo
    requires Start(nodes, i, f) + Size(nodes[i], f) <= |b| && NodePasses(nodes, nodes[i], f)
             && Progress(b, nodes, f, todo, k)
    ensures Progress(Put(b, Start(nodes, i, f), Record(nodes, nodes[i], f)), nodes, f, todo - {i}, k)
  {
    var r := Record(nodes, nodes[i], f);
    if i == k {
      PutHere(b, Start(nodes, i, f), r);
    } else {
      StartGrows(nodes, if i < k then i else k, if i < k then k else i, f);
      StartGrows(nodes, k, |nodes|, f);
      PutElsewhere(b, Start(nodes, i, f), r, Start(nodes, k, f), Size(nodes[k], f));
    }
  }

  method Measure(nodes: seq<Node>, f: Format) returns (size: nat)
    ensures size == Start(nodes, |nodes|, f)
  {
    size := 0;
    for i := 0 to |nodes|
      invariant size == Start(nodes, i, f)
    {
      size := size + Size(nodes[i], f);
    }
  }

  method PlaceNodes(nodes: seq<Node>, f: Format) returns (starts: seq<nat>, placed: set<nat>)
    ensures StartsOf(starts, nodes, f) && forall i: nat :: i in placed <==> i < |nodes|
  {
    starts, placed := [], {};
    var offset := 0;
    for i := 0 to |nodes|
      invariant offset == Start(nodes, i, f) && StartsUpTo(starts, nodes, i, f)
      invariant forall k: nat :: k in placed <==> k < i
    {
      OneMoreStart(starts, nodes, i, f);
      starts, placed := starts + [offset], placed + {i};
      offset := offset + Size(nodes[i], f);
    }
  }

  lemma ZeroProgress(b: seq<int>, nodes: seq<Node>, f: Format, todo: set<nat>, k: nat)
    requires AllShaped(nodes) && k < |nodes| && |b| == Start(nodes, |nodes|, f) && b == Zeros(|b|) && k in todo
    ensures Progress(b, nodes, f, todo, k)
  {
    StartGrows(nodes, k, |nodes|, f);
  }

  /** Fills the buffer node by node, in any order. */
  method Flatten(nodes: seq<Node>, f: Format) returns (ok: bool, buffer: array<int>)
    requires AllShaped(nodes)
    ensures fresh(buffer) && buffer.Length == Start(nodes, |nodes|, f)
    ensures ok <==> AllPass(nodes, f)
    ensures ok ==> Holds(buffer[..], nodes, f)
  {
    var size := Measure(nodes, f);
    buffer := new int[size](_ => 0);
    var starts, todo := PlaceNodes(nodes, f);
    assert buffer[..] == Zeros(size);
    forall k: nat | k < |nodes| ensures Progress(buffer[..], nodes, f, todo, k) {
      ZeroProgress(buffer[..], nodes, f, todo, k);
    }
    while todo != {}
      invariant forall i | i in todo :: i < |nodes|
      invariant forall k: nat | k < |nodes| :: Progress(buffer[..], nodes, f, todo, k)
    {
      var i :| i in todo;
      StartGrows(nodes, i, |nodes|, f);
      assert Progress(buffer[..], nodes, f, todo, i);
      ghost var b := buffer[..];
      ok := WriteNode(buffer, nodes, i, starts, f);
      if !ok {
        return;
      }
      forall k: nat | k < |nodes| ensures Progress(buffer[..], nodes, f, todo - {i}, k) {
        WriteProgress(b, nodes, f, todo, i, k);
      }
      todo := todo - {i};
    }
    ok := true;
    forall k: nat | k < |nodes| ensures HoldsNode(buffer[..], nodes, k, f) && NodePasses(nodes, nodes[k], f) {
      assert Progress(buffer[..], nodes, f, todo, k);
    }
  }

  lemma TrieIsShaped(nodes: seq<Node>, pos: Places, vals: map<Text, nat>)
    requires Trie(nodes, pos, vals) && Covered(nodes, pos)
    ensures AllShaped(nodes)
  {
    forall i | 0 <= i < |nodes| ensures Shaped(nodes[i], |nodes|) {
      assert IsPlace(pos, i);
      var p :| p in pos && pos[p] == i;
      assert PlaceOk(nodes, pos, vals, p);
      forall j | 0 <= j < |nodes[i].kids| ensures nodes[i].kids[j] < |nodes| {
        assert PlaceOk(nodes, pos, vals, Ext(p, nodes[i].names[j]));
      }
    }
  }

  lemma WithinBuffer(nodes: seq<Node>, f: Format)
    requires AllShaped(nodes) && Start(nodes, |nodes|, f) <= Pow256(f.offsetBytes)
    ensures OffsetsFit(nodes, f)
  {
    forall i, j | 0 <= i < |nodes| && 0 <= j < |nodes[i].kids| ensures KidFits(nodes, nodes[i], j, f) {
      assert Shaped(nodes[i], |nodes|);
      StartGrows(nodes, nodes[i].kids[j], |nodes|, f);
    }
  }

  /** Every value and every offset is less than its field can hold. */
  ghost predicate SlimFits(nodes: seq<Node>, f: Format) {
    && (forall i | 0 <= i < |nodes| :: nodes[i].value < Pow256(f.valueBytes))
    && forall i, j | 0 <= i < |nodes| && 0 <= j < |nodes[i].kids| ::
       Start(nodes, nodes[i].kids[j], f) < Pow256(f.offsetBytes)
  }

  /** Every value is, and of every node the offset of its second child, or of its only one. */
  ghost predicate StrongFits(nodes: seq<Node>, f: Format) {
    && (forall i | 0 <= i < |nodes| :: nodes[i].value < Pow256(f.valueBytes))
    && (forall i | 0 <= i < |nodes| && |nodes[i].kids| == 1 ::
       Start(nodes, nodes[i].kids[0], f) < Pow256(f.offsetBytes))
    && forall i | 0 <= i < |nodes| && |nodes[i].kids| > 1 :: Start(nodes, nodes[i].kids[1], f) < Pow256(f.offsetBytes)
  }

  lemma PassIsExact(nodes: seq<Node>, f: Format)
    ensures AllPass(nodes, f) <==> if f.layout.Slim? then SlimFits(nodes, f) else StrongFits(nodes, f)
  {
    forall i | 0 <= i < |nodes| && f.layout.Strong?
      ensures KidsPass(nodes, nodes[i], f) <==>
                && (|nodes[i].kids| == 1 ==> Start(nodes, nodes[i].kids[0], f) < Pow256(f.offsetBytes))
                && (|nodes[i].kids| > 1 ==> Start(nodes, nodes[i].kids[1], f) < Pow256(f.offsetBytes))
    {
      var n := nodes[i];
      assert KidsPass(nodes, n, f) <==> n.kids == [] || KidFits(nodes, n, if |n.kids| > 1 then 1 else 0, f) by {
        assert n.kids != [] ==> Guarded(n, if |n.kids| > 1 then 1 else 0, f);
      }
    }
    if f.layout.Slim? {
      PassedFits(nodes, f);
      assert ValuesFit(nodes, f) && OffsetsFit(nodes, f) ==> SlimFits(nodes, f) by {
        forall i, j | OffsetsFit(nodes, f) && 0 <= i < |nodes| && 0 <= j < |nodes[i].kids|
          ensures Start(nodes, nodes[i].kids[j], f) < Pow256(f.offsetBytes)
        {
          assert KidFits(nodes, nodes[i], j, f);
        }
      }
    }
  }

  /**
   Turns a map into a buffer; fails exactly if a value or a compared offset does not fit. In a SLIM buffer
   every text then finds what the map says, in a STRONG one that is within reach of its offsets every key does.
   */
  method BuildTrie(es: seq<Entry>, f: Format) returns (ok: bool, buffer: array<int>, ghost pos: Places)
    requires MapOrder(es)
    ensures Trie(FatOf(es), pos, Values(es)) && Tight(pos, Values(es)) && Covered(FatOf(es), pos)
    ensures buffer.Length == Start(FatOf(es), |FatOf(es)|, f)
    ensures ok <==> AllPass(FatOf(es), f)
    ensures ok <==> if f.layout.Slim? then SlimFits(FatOf(es), f) else StrongFits(FatOf(es), f)
    ensures ok ==> Holds(buffer[..], FatOf(es), f)
    ensures ok && f.layout.Slim? ==>
              forall key ::
                if IsPrefix(es, key) then Finds(es, buffer[..], f, key) else FindFrom(buffer[..], 0, key, f) == Nothing
    ensures ok && buffer.Length <= Pow256(f.offsetBytes) ==>
              forall key | IsPrefix(es, key) :: Finds(es, buffer[..], f, key)
  {
    var nodes;
    nodes, pos := BuildFat(es);
    TrieIsShaped(nodes, pos, Values(es));
    PassIsExact(nodes, f);
    ok, buffer := Flatten(nodes, f);
    if ok {
      BuiltAnswers(es, buffer[..], nodes, pos, f);
    }
  }

  lemma BuiltAnswers(es: seq<Entry>, b: seq<int>, nodes: seq<Node>, pos: Places, f: Format)
    requires Trie(nodes, pos, Values(es)) && Tight(pos, Values(es)) && Holds(b, nodes, f)
    requires AllPass(nodes, f)
    ensures f.layout.Slim? ==>
              forall key :: if IsPrefix(es, key) then Finds(es, b, f, key) else FindFrom(b, 0, key, f) == Nothing
    ensures Start(nodes, |nodes|, f) <= Pow256(f.offsetBytes) ==> forall key | IsPrefix(es, key) :: Finds(es, b, f, key)
  {
    PassedFits(nodes, f);
    if f.layout.Slim? {
      forall key ensures if IsPrefix(es, key) then Finds(es, b, f, key) else FindFrom(b, 0, key, f) == Nothing {
        TrieSlim.SlimIsExact(es, b, nodes, pos, f, key);
      }
    } else if Start(nodes, |nodes|, f) <= Pow256(f.offsetBytes) {
      WithinBuffer(nodes, f);
      forall key | IsPrefix(es, key) ensures Finds(es, b, f, key) {
        TrieStrong.StrongFindsKeys(es, b, nodes, pos, f, key);
      }
    }
  }

  /**
   Building a SLIM buffer succeeds exactly if everything fits; a STRONG one may succeed although an offset does not.
   */
  lemma PassedFits(nodes: seq<Node>, f: Format)
    ensures AllPass(nodes, f) ==> ValuesFit(nodes, f)
    ensures f.layout.Slim? ==> (AllPass(nodes, f) <==> ValuesFit(nodes, f) && OffsetsFit(nodes, f))
  {
  }

  // ----- Looking up -----

  method Next(buffer: array<int>, a: nat, c: int, f: Format) returns (r: Found)
    ensures r == NextNode(buffer[..], a, c, f)
  {
    var b := buffer[..];
    var count := CountAt(b, a, f);
    if count <= 0 {
      return Nothing;
    }
    if f.layout.Strong? {
      var offset := c - NameAt(b, a, 0, f);
      return if offset < 0 || offset >= count then Nothing else Kid(b, a, count, offset, f);
    }
    for j := 0 to count
      invariant NextSlim(b, a, count, c, 0, f) == NextSlim(b, a, count, c, j, f)
    {
      var name := NameAt(b, a, j, f);
      if name == c {
        return Kid(b, a, count, j, f);
      }
      if j == 0 {
        if name < c {
          return Nothing;
        }
      } else if name > c {
        return Nothing;
      }
    }
    r := Nothing;
  }

  method FindTrie(buffer: array<int>, key: Text, f: Format) returns (r: Found)
    ensures r == FindFrom(buffer[..], 0, key, f)
  {
    var current := 0;
    for i := 0 to |key|
      invariant FindFrom(buffer[..], 0, key, f) == FindFrom(buffer[..], current, key[i..], f)
    {
      var next := Next(buffer, current, key[i], f);
      assert key[i..][1..] == key[i + 1..];
      if next.Nothing? {
        return Nothing;
      }
      current := next.address;
    }
    r := At(current);
  }
}
