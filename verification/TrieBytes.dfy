/** Little-endian numbers in a byte buffer. */
module TrieBytes {
  import opened Division

  function Pow256(n: nat): nat {
    if n == 0 then 1 else 256 * Pow256(n - 1)
  }

  function Enc(v: nat, n: nat): (r: seq<int>)
    ensures |r| == n
  {
    if n == 0 then [] else [v % 256] + Enc(v / 256, n - 1)
  }

  function Dec(s: seq<int>): int {
    if s == [] then 0 else s[0] + 256 * Dec(s[1..])
  }

  /** A number reads back as itself exactly if it fits its field. */
  lemma {:induction false} DecEnc(v: nat, n: nat)
    ensures 0 <= Dec(Enc(v, n)) < Pow256(n) && (v < Pow256(n) <==> Dec(Enc(v, n)) == v)
    decreases n
  {
    if n > 0 {
      assert Enc(v, n)[1..] == Enc(v / 256, n - 1);
      DecEnc(v / 256, n - 1);
    }
  }

  /** The bytes are the digits to base 256, the low one first. */
  lemma {:induction false} EncDigits(v: nat, n: nat, i: nat)
    requires i < n
    ensures Pow256(i) > 0 && Enc(v, n)[i] == v / Pow256(i) % 256
    decreases n
  {
    if i > 0 {
      EncDigits(v / 256, n - 1, i - 1);
      DivTwice(v, Pow256(i - 1));
    }
  }

  lemma DivTwice(v: nat, p: nat)
    requires p > 0
    ensures v / 256 / p == v / (256 * p)
  {
    var q, r := v / 256 / p, v / 256 % p;
    var w := v % 256;
    assert v / 256 == q * p + r;
    assert v == 256 * (q * p + r) + w == q * (256 * p) + (256 * r + w);
    assert 0 <= 256 * r + w < 256 * p;
    QuotientIsUnique(q, 256 * r + w, 256 * p);
  }

  /** The space taken by m numbers of n bytes. */
  function Room(m: nat, n: nat): nat {
    if m == 0 then 0 else n + Room(m - 1, n)
  }

  lemma {:induction false} RoomIsProduct(m: nat, n: nat)
    ensures Room(m, n) == m * n
  {
    if m > 0 {
      RoomIsProduct(m - 1, n);
    }
  }

  lemma {:induction false} RoomGrows(i: nat, j: nat, n: nat)
    requires i < j
    ensures Room(i, n) + n <= Room(j, n)
    decreases j
  {
    if i < j - 1 {
      RoomGrows(i, j - 1, n);
    }
  }

  /** Numbers one after another, n bytes each. */
  function EncAll(vs: seq<nat>, n: nat): (r: seq<int>)
    ensures |r| == Room(|vs|, n)
  {
    if vs == [] then [] else Enc(vs[0], n) + EncAll(vs[1..], n)
  }

  /** The n bytes at a, or nothing if they are not all there. */
  function Bytes(b: seq<int>, a: nat, n: nat): seq<int> {
    if a + n <= |b| then b[a..a + n] else []
  }

  lemma BytesOfConcat(x: seq<int>, y: seq<int>, a: nat, n: nat)
    requires a + n <= |y|
    ensures Bytes(x + y, |x| + a, n) == Bytes(y, a, n)
  {
  }

  lemma BytesOfFront(x: seq<int>, y: seq<int>, a: nat, n: nat)
    requires a + n <= |x|
    ensures Bytes(x + y, a, n) == Bytes(x, a, n)
  {
  }

  lemma BytesOfBytes(b: seq<int>, s: nat, r: seq<int>, a: nat, n: nat)
    requires Bytes(b, s, |r|) == r && 0 < |r| && a + n <= |r|
    ensures Bytes(b, s + a, n) == Bytes(r, a, n)
  {
    assert r == b[s..s + |r|];
    var x, y := b[s + a..s + a + n], r[a..a + n];
    forall k | 0 <= k < n ensures x[k] == y[k] {
      assert r[a + k] == b[s + (a + k)];
    }
    assert x == y;
  }

  lemma {:induction false} BytesOfEncAll(vs: seq<nat>, n: nat, j: nat)
    requires j < |vs|
    ensures Room(j, n) + n <= Room(|vs|, n) && Bytes(EncAll(vs, n), Room(j, n), n) == Enc(vs[j], n)
    decreases j
  {
    RoomGrows(j, |vs|, n);
    var rest := vs[1..];
    if j == 0 {
      BytesOfFront(Enc(vs[0], n), EncAll(rest, n), 0, n);
    } else {
      BytesOfEncAll(rest, n, j - 1);
      BytesOfConcat(Enc(vs[0], n), EncAll(rest, n), Room(j - 1, n), n);
    }
  }

  // ----- Overwriting -----

  /** The buffer with s written over the bytes at a. */
  function Put(b: seq<int>, a: nat, s: seq<int>): (r: seq<int>)
    requires a + |s| <= |b|
    ensures |r| == |b|
  {
    b[..a] + s + b[a + |s|..]
  }

  lemma PutHere(b: seq<int>, a: nat, s: seq<int>)
    requires a + |s| <= |b|
    ensures Bytes(Put(b, a, s), a, |s|) == s
  {
  }

  lemma PutElsewhere(b: seq<int>, a: nat, s: seq<int>, c: nat, n: nat)
    requires a + |s| <= |b| && c + n <= |b| && (c + n <= a || a + |s| <= c)
    ensures Bytes(Put(b, a, s), c, n) == Bytes(b, c, n)
  {
    var r := Put(b, a, s);
    assert r[c..c + n] == b[c..c + n];
  }

  lemma PutPut(b: seq<int>, a: nat, x: seq<int>, o: nat, s: seq<int>)
    requires a + |x| <= |b| && o + |s| <= |x|
    ensures Put(Put(b, a, x), a + o, s) == Put(b, a, Put(x, o, s))
  {
  }

  lemma PutSame(b: seq<int>, a: nat, x: seq<int>)
    requires a + |x| <= |b| && Bytes(b, a, |x|) == x
    ensures Put(b, a, x) == b
  {
  }

  lemma PutBehind(h: seq<int>, t: seq<int>, o: nat, s: seq<int>)
    requires o + |s| <= |t|
    ensures Put(h + t, |h| + o, s) == h + Put(t, o, s)
  {
  }

  lemma PutFront(x: seq<int>, t: seq<int>, s: seq<int>)
    requires |s| == |x|
    ensures Put(x + t, 0, s) == s + t
  {
  }

  lemma {:induction false} PutEntry(vs: seq<nat>, n: nat, j: nat, v: nat)
    requires j < |vs|
    ensures Room(j, n) + n <= Room(|vs|, n) && Put(EncAll(vs, n), Room(j, n), Enc(v, n)) == EncAll(vs[j := v], n)
    decreases j
  {
    RoomGrows(j, |vs|, n);
    var rest := vs[1..];
    if j == 0 {
      PutFront(Enc(vs[0], n), EncAll(rest, n), Enc(v, n));
      assert vs[j := v][1..] == rest;
    } else {
      PutEntry(rest, n, j - 1, v);
      PutBehind(Enc(vs[0], n), EncAll(rest, n), Room(j - 1, n), Enc(v, n));
      assert vs[j := v][1..] == rest[j - 1 := v];
    }
  }

  function Zeros(n: nat): (r: seq<int>)
    ensures |r| == n
  {
    seq(n, _ => 0)
  }

  lemma {:induction false} EncAllZero(m: nat, n: nat)
    ensures EncAll(seq(m, _ => 0), n) == Zeros(Room(m, n))
    decreases m
  {
    if m > 0 {
      assert (seq(m, _ => 0))[1..] == seq(m - 1, _ => 0);
      EncZero(n);
      EncAllZero(m - 1, n);
    }
  }

  lemma {:induction false} EncZero(n: nat)
    ensures Enc(0, n) == Zeros(n)
  {
    if n > 0 {
      EncZero(n - 1);
    }
  }
}
