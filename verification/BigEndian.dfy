/** Fixed-width big-endian numbers, as the binary session codec writes and reads them. */
module BigEndian {
  import opened Wrappers

  type Byte = x: int | 0 <= x < 256

  type Bytes = seq<Byte>

  function Pow256(n: nat): (p: nat)
    ensures p > 0
  {
    if n == 0 then 1 else 256 * Pow256(n - 1)
  }

  /** n bytes, most significant first. */
  function Put(v: nat, n: nat): (r: Bytes)
    ensures |r| == n
  {
    if n == 0 then [] else Put(v / 256, n - 1) + [v % 256]
  }

  /** The number that some bytes spell. */
  function Value(bs: Bytes): nat {
    if bs == [] then 0 else Value(bs[..|bs| - 1]) * 256 + bs[|bs| - 1]
  }

  lemma {:induction false} ValueOfPut(v: nat, n: nat)
    requires v < Pow256(n)
    ensures Value(Put(v, n)) == v
  {
    if n > 0 {
      assert v / 256 < Pow256(n - 1);
      ValueOfPut(v / 256, n - 1);
      var bs := Put(v, n);
      assert bs[..n - 1] == Put(v / 256, n - 1);
    }
  }

  lemma {:induction false} PutOfValue(bs: Bytes)
    ensures Value(bs) < Pow256(|bs|) && Put(Value(bs), |bs|) == bs
  {
    if bs != [] {
      var n := |bs| - 1;
      PutOfValue(bs[..n]);
      var v := Value(bs);
      assert v / 256 == Value(bs[..n]) && v % 256 == bs[n];
      assert bs == bs[..n] + [bs[n]];
    }
  }

  lemma DivDiv(v: nat, a: nat)
    requires a > 0
    ensures v / (256 * a) == v / 256 / a
  {
    var q, r := v / 256 / a, v / 256 % a;
    assert v / 256 == q * a + r;
    assert v == (q * a + r) * 256 + v % 256 == q * (256 * a) + (r * 256 + v % 256);
    assert r * 256 + v % 256 < 256 * a by { assert r + 1 <= a; }
    QuotientUnique(v, 256 * a, q, r * 256 + v % 256);
  }

  lemma QuotientUnique(v: nat, m: nat, q: nat, r: nat)
    requires m > 0 && v == q * m + r && r < m
    ensures v / m == q
  {
    var x := v / m;
    assert v == x * m + v % m;
    assert (x - q) * m == r - v % m;
    Gap(x - q, m);
  }

  lemma Gap(x: int, m: nat)
    requires m > 0
    ensures (x >= 1 ==> x * m >= m) && (x <= -1 ==> x * m <= 0 - m)
  {
  }

  /** Byte i, counted from the front, is the number shifted down and masked. */
  lemma {:induction false} PutAt(v: nat, n: nat, i: nat)
    requires i < n
    ensures Put(v, n)[i] == v / Pow256(n - 1 - i) % 256
    decreases n
  {
    if i < n - 1 {
      PutAt(v / 256, n - 1, i);
      DivDiv(v, Pow256(n - 2 - i));
    }
  }

  /** put32 and put64: shift and mask, from the top byte down. */
  method PutNumber(out: Bytes, v: nat, n: nat) returns (longer: Bytes)
    ensures longer == out + Put(v, n)
  {
    longer := out;
    var i := 0;
    while i < n
      invariant 0 <= i <= n && longer == out + Put(v, n)[..i]
    {
      PutAt(v, n, i);
      hide Put, Pow256;
      assert Put(v, n)[..i + 1] == Put(v, n)[..i] + [Put(v, n)[i]];
      longer := longer + [v / Pow256(n - 1 - i) % 256];
      i := i + 1;
    }
    assert Put(v, n)[..n] == Put(v, n);
  }

  /** get32 and get64: the number at the cursor, if enough bytes are left. */
  method GetNumber(text: Bytes, p: nat, n: nat) returns (value: Option<nat>)
    requires p <= |text|
    ensures value == if |text| - p < n then None else Some(Value(text[p..p + n]))
  {
    if |text| - p < n {
      return None;
    }
    var v: nat, i: nat := 0, 0;
    while i < n
      invariant 0 <= i <= n && v == Value(text[p..p + i])
    {
      assert text[p..p + i + 1][..i] == text[p..p + i];
      v := v * 256 + text[p + i];
      i := i + 1;
    }
    return Some(v);
  }
}
