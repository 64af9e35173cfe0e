/** How the fields of a bucket are packed into a 64-bit word and a byte, and how many buckets to reserve. */
module QedWord {
  import opened QedTable
  import opened Division

  const MIN_BUCKET_TYPE: nat := 2
  const MAX_BUCKET_TYPE: nat := 50

  function Pow2(n: nat): (r: nat)
    ensures r > 0
  {
    if n == 0 then 1 else 2 * Pow2(n - 1)
  }

  lemma {:induction false} Pow2Splits(a: nat, b: nat)
    requires a <= b
    ensures Pow2(b) == Pow2(b - a) * Pow2(a)
    decreases a
  {
    if a > 0 {
      Pow2Splits(a - 1, b - 1);
    }
  }

  // Masking with the bits above or below the bucket type is taking a multiple of, or the remainder
  // by, the bucket count; disjoint fields are or-ed together by adding them.

  function LowBits(w: nat, count: nat): nat
    requires count > 0
  {
    w % count
  }

  function HighBits(w: nat, count: nat): nat
    requires count > 0
  {
    w - w % count
  }

  function SetNext(w: nat, id: nat, count: nat): nat
    requires count > 0
  {
    HighBits(w, count) + LowBits(id, count)
  }

  function SetKey(w: nat, key: nat, count: nat): nat
    requires count > 0
  {
    HighBits(key, count) + LowBits(w, count)
  }

  /** The size byte with its flag set or cleared. */
  function WithFlag(byte: nat, internal: bool): nat {
    byte % 128 + if internal then 128 else 0
  }

  /** The size byte with another size. */
  function WithSize(byte: nat, size: nat): nat {
    byte / 128 * 128 + size % 128
  }

  /** One more in a byte. */
  function OneMore(byte: nat): nat {
    (byte + 1) % 256
  }

  function KeyWord(b: Bucket, count: nat): nat {
    b.hi * count + b.next
  }

  function SizeByte(b: Bucket): nat {
    b.size + if b.internal then 128 else 0
  }

  ghost predicate Packable(b: Bucket, count: nat) {
    b.next < count && b.size < 128
  }

  /** Reading the packed word and byte gives the fields. */
  lemma UnpackPacked(b: Bucket, count: nat, key: nat)
    requires count > 0 && Packable(b, count)
    ensures LowBits(KeyWord(b, count), count) == b.next
    ensures HighBits(KeyWord(b, count), count) == HighBits(key, count) <==> b.hi == key / count
    ensures SizeByte(b) % 128 == b.size && (SizeByte(b) / 128 == 1) == b.internal && SizeByte(b) < 256
  {
    QuotientIsUnique(b.hi, b.next, count);
    assert key == count * (key / count) + key % count;
    if b.hi * count == (key / count) * count {
      DivisionIsUnique(b.hi, 0, key / count, 0, count);
    }
  }

  /** Writing one field of the word is writing that field and no other. */
  lemma WriteWord(b: Bucket, count: nat, id: nat, key: nat)
    requires count > 0 && Packable(b, count) && id < count
    ensures SetNext(KeyWord(b, count), id, count) == KeyWord(b.(next := id), count)
    ensures SetKey(KeyWord(b, count), key, count) == KeyWord(b.(hi := key / count), count)
  {
    QuotientIsUnique(b.hi, b.next, count);
    assert id % count == id;
    assert key == (key / count) * count + key % count;
  }

  /** Writing the flag or the size in the byte is writing that field and no other; adding one carries into the flag. */
  lemma WriteByte(b: Bucket, count: nat, size: nat, internal: bool)
    requires Packable(b, count) && size < 128
    ensures WithFlag(SizeByte(b), internal) == SizeByte(b.(internal := internal))
    ensures WithSize(SizeByte(b), size) == SizeByte(b.(size := size))
    ensures OneMore(SizeByte(b)) == SizeByte(Bumped(b))
  {
    assert SizeByte(b) % 128 == b.size && SizeByte(b) / 128 == if b.internal then 1 else 0;
  }

  /** A payload of seven bytes is stored as it is, and is not mistaken for an absent key. */
  lemma PayloadIsKept(payload: nat)
    requires payload < Pow2(56)
    ensures Stored(payload) == payload < NOT_FOUND == Pow2(64) - 1
  {
    assert Pow2(8) == 0x100;
    Pow2Splits(8, 16);
    Pow2Splits(16, 32);
    Pow2Splits(16, 48);
    Pow2Splits(8, 56);
    Pow2Splits(32, 64);
  }

  /** The whole key word, as it is stored by an insertion, is the key itself. */
  lemma StoredKeyIsKey(key: nat, count: nat, payload: nat)
    requires count > 0
    ensures KeyWord(Bucket(key / count, key % count, 1, false, payload), count) == key
  {
  }

  lemma {:induction false} Pow2Monotone(a: nat, b: nat)
    requires a <= b
    ensures Pow2(a) <= Pow2(b)
    decreases b - a
  {
    if a < b {
      Pow2Monotone(a, b - 1);
    }
  }

  /** The least positive exponent whose power exceeds the count. */
  method LeastType(count: nat) returns (i: nat)
    ensures 1 <= i && count < Pow2(i) && (i > 1 ==> Pow2(i - 1) <= count)
  {
    i := 1;
    while Pow2(i) < count + 1
      invariant 1 <= i && (i > 1 ==> Pow2(i - 1) <= count)
      decreases count + 1 - Pow2(i)
    {
      i := i + 1;
    }
  }

  /** The exponent of the bucket count for a number of entries. */
  method GetBucketType(count: nat) returns (r: nat)
    requires count < 0x8000_0000_0000_0000
    ensures 2 <= r <= 50
    ensures count < Pow2(50) ==> count < Pow2(r)
    ensures count >= Pow2(50) ==> r == 50
    ensures 2 < r ==> Pow2(r - 1) <= count
  {
    r := LeastType(count);
    if r < MAX_BUCKET_TYPE {
      Pow2Monotone(r, MAX_BUCKET_TYPE);
    }
    if r < MIN_BUCKET_TYPE {
      Pow2Monotone(r, MIN_BUCKET_TYPE);
      r := MIN_BUCKET_TYPE;
    }
    if r > MAX_BUCKET_TYPE {
      Pow2Monotone(MAX_BUCKET_TYPE, r - 1);
      r := MAX_BUCKET_TYPE;
    }
  }
}
