/** Quotients and remainders by a variable divisor. */
module Division {

  lemma {:induction false} MultiplesApart(a: nat, b: nat, count: nat)
    requires a < b
    ensures a * count + count <= b * count
    decreases b
  {
    assert b * count == (b - 1) * count + count;
    if a < b - 1 {
      MultiplesApart(a, b - 1, count);
    }
  }

  lemma DivisionIsUnique(q: nat, r: nat, p: nat, s: nat, count: nat)
    requires r < count && s < count && q * count + r == p * count + s
    ensures q == p && r == s
  {
    if p < q { MultiplesApart(p, q, count); }
    if q < p { MultiplesApart(q, p, count); }
  }

  lemma QuotientIsUnique(q: nat, r: nat, count: nat)
    requires r < count
    ensures (q * count + r) / count == q && (q * count + r) % count == r
  {
    var w := q * count + r;
    DivisionIsUnique(q, r, w / count, w % count, count);
  }
}
